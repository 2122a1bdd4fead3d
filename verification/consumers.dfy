/** The consumer of consumer.go, an older variant of the producer's fan-out: it reads
    from an input channel and forwards each message to every entry of its subscription
    list. The `listen` goroutine is modelled one received message at a time. */
module Consumers {
  import opened Channels

  /** `BaseConsumer`: the channel it reads from and its subscription list. */
  datatype BaseConsumer = BaseConsumer(inCh: Handle, subscriptions: seq<Handle>)

  /** `NewBaseConsumer(inCh)`: reads from `inCh` and has no subscriptions. */
  function NewBaseConsumer(inCh: Handle): (c: BaseConsumer)
    ensures c.inCh == inCh
    ensures TotalSubscriptions(c) == 0
  {
    BaseConsumer(inCh, [])
  }

  /** `TotalSubscriptions`: the number of entries of the subscription list. */
  function TotalSubscriptions(c: BaseConsumer): (n: nat)
    ensures n == |c.subscriptions|
  {
    |c.subscriptions|
  }

  /** `AddSubscription(s)`: appends `s`, duplicates (and the nil channel) allowed; the
      input channel is untouched. */
  function AddSubscription(c: BaseConsumer, s: Handle): (c': BaseConsumer)
    ensures TotalSubscriptions(c') == TotalSubscriptions(c) + 1
    ensures c'.subscriptions[..|c.subscriptions|] == c.subscriptions
    ensures c'.subscriptions[|c.subscriptions|] == s
    ensures c'.inCh == c.inCh
  {
    c.(subscriptions := c.subscriptions + [s])
  }

  /** One iteration of `listen` for a message received on `inCh`: one send per
      subscription-list entry. The consumer itself is not changed by it. */
  function ListenStep<M>(c: BaseConsumer, msg: M): (ds: seq<Delivery<M>>)
    ensures |ds| == TotalSubscriptions(c)
    ensures forall i :: 0 <= i < |ds| ==> ds[i] == Delivery(c.subscriptions[i], msg)
  {
    Fanout(c.subscriptions, msg)
  }

  /** Adding `hs` one by one. */
  function AddSubscriptions(c: BaseConsumer, hs: seq<Handle>): BaseConsumer
    decreases |hs|
  {
    if |hs| == 0 then c else AddSubscriptions(AddSubscription(c, hs[0]), hs[1..])
  }

  /** Adding a list of subscriptions appends it in order and counts every entry. */
  lemma {:induction false} AddSubscriptionsAppends(c: BaseConsumer, hs: seq<Handle>)
    ensures AddSubscriptions(c, hs).subscriptions == c.subscriptions + hs
    ensures TotalSubscriptions(AddSubscriptions(c, hs)) == TotalSubscriptions(c) + |hs|
    ensures AddSubscriptions(c, hs).inCh == c.inCh
    decreases |hs|
  {
    if |hs| > 0 {
      AddSubscriptionsAppends(AddSubscription(c, hs[0]), hs[1..]);
      assert c.subscriptions + [hs[0]] + hs[1..] == c.subscriptions + hs;
    }
  }

  /** After subscriptions are added, a received message is sent once per added entry,
      so a channel added twice receives it twice. */
  lemma ListenAfterAdding<M>(inCh: Handle, hs: seq<Handle>, msg: M, h: Handle)
    ensures var c := AddSubscriptions(NewBaseConsumer(inCh), hs);
            multiset(ListenStep(c, msg))[Delivery(h, msg)] == multiset(hs)[h]
  {
    var c := AddSubscriptions(NewBaseConsumer(inCh), hs);
    AddSubscriptionsAppends(NewBaseConsumer(inCh), hs);
    assert c.subscriptions == hs;
    assert ListenStep(c, msg) == Fanout(hs, msg);
    FanoutCountsDuplicates(hs, msg, h);
  }

  /** consumer_test.go's `TestBaseConsumer_AddSubscription`: a fresh consumer has no
      subscriptions, and adding the nil channel (handle 0) makes one. */
  lemma AddSubscriptionExample(inCh: Handle)
    ensures TotalSubscriptions(NewBaseConsumer(inCh)) == 0
    ensures TotalSubscriptions(AddSubscription(NewBaseConsumer(inCh), 0)) == 1
  {
  }
}
