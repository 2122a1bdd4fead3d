/** Delivery handles and the fan-out of one message over a subscription list.

    Both `BaseProducer.loopBroadcast` (producer.go) and `BaseConsumer.listen`
    (consumer.go) walk their subscription list and start one send of the message per
    entry; that walk is defined once here. The sends run as independent goroutines,
    so the order in which they complete is not modelled: a delivery list is read as
    "one send per list entry", entry `i` giving delivery `i`. */
module Channels {

  /** A send-only Go channel, identified by the allocation that created it. */
  type Handle = nat

  /** One pending send of `msg` on the channel `to`. */
  datatype Delivery<M> = Delivery(to: Handle, msg: M)

  /** One send of `m` per entry of `subscribers`, duplicates included. */
  function Fanout<M>(subscribers: seq<Handle>, m: M): (ds: seq<Delivery<M>>)
    ensures |ds| == |subscribers|
    ensures forall i :: 0 <= i < |ds| ==> ds[i] == Delivery(subscribers[i], m)
  {
    if |subscribers| == 0 then []
    else [Delivery(subscribers[0], m)] + Fanout(subscribers[1..], m)
  }

  /** The channels a list of deliveries writes to, in list order. */
  function Recipients<M>(ds: seq<Delivery<M>>): (hs: seq<Handle>)
    ensures |hs| == |ds|
    ensures forall i :: 0 <= i < |ds| ==> hs[i] == ds[i].to
  {
    if |ds| == 0 then [] else [ds[0].to] + Recipients(ds[1..])
  }

  /** The fan-out reaches exactly the subscription list back, and carries only `m`. */
  lemma FanoutReachesEverySubscriber<M>(subscribers: seq<Handle>, m: M)
    ensures Recipients(Fanout(subscribers, m)) == subscribers
    ensures forall d :: d in Fanout(subscribers, m) ==> d.msg == m
  {
    var ds := Fanout(subscribers, m);
    assert forall i :: 0 <= i < |ds| ==> Recipients(ds)[i] == subscribers[i];
  }

  /** A channel listed `k` times receives `k` sends of the message. */
  lemma {:induction false} FanoutCountsDuplicates<M>(subscribers: seq<Handle>, m: M, h: Handle)
    ensures multiset(Fanout(subscribers, m))[Delivery(h, m)] == multiset(subscribers)[h]
  {
    if |subscribers| > 0 {
      FanoutCountsDuplicates(subscribers[1..], m, h);
      assert subscribers == [subscribers[0]] + subscribers[1..];
      assert multiset(subscribers) == multiset{subscribers[0]} + multiset(subscribers[1..]);
    }
  }
}
