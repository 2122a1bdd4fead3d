/** The per-topic producer of producer.go: a bounded FIFO queue (the buffered Go
    channel `ch`) and an append-only list of subscriptions.

    The broadcast goroutine is modelled one iteration at a time (`BroadcastStep`), and
    an interleaving of calls on one producer as a list of events (`Run`). */
module Producers {
  import opened Results
  import opened Channels

  /** `BaseProducer`: the queue holds the published messages not yet taken by the
      broadcast loop, oldest first. The topic only names the logger and is not kept. */
  datatype BaseProducer<M> = BaseProducer(capacity: nat, queue: seq<M>, subscriptions: seq<Handle>)

  /** The error `Publish` returns; it names the rejected message. */
  datatype PublishError<M> = QueueFull(msg: M)

  /** The buffered channel never holds more than its capacity. */
  predicate Valid<M>(p: BaseProducer<M>) {
    |p.queue| <= p.capacity
  }

  /** `NewBaseProducer(topic, capacity)`: an empty queue of the given capacity and no
      subscriptions. */
  function NewBaseProducer<M>(capacity: nat): (p: BaseProducer<M>)
    ensures Valid(p)
    ensures p.capacity == capacity && p.queue == []
    ensures TotalSubscriptions(p) == 0
  {
    BaseProducer(capacity, [], [])
  }

  /** `TotalSubscriptions`: the number of entries of the subscription list. */
  function TotalSubscriptions<M>(p: BaseProducer<M>): (n: nat)
    ensures n == |p.subscriptions|
  {
    |p.subscriptions|
  }

  /** `AddSubscription(s)`: appends `s`, duplicates allowed; the queue is untouched. */
  function AddSubscription<M>(p: BaseProducer<M>, s: Handle): (p': BaseProducer<M>)
    ensures TotalSubscriptions(p') == TotalSubscriptions(p) + 1
    ensures p'.subscriptions[..|p.subscriptions|] == p.subscriptions
    ensures p'.subscriptions[|p.subscriptions|] == s
    ensures p'.capacity == p.capacity && p'.queue == p.queue
  {
    p.(subscriptions := p.subscriptions + [s])
  }

  /** `Publish(msg)`: a non-blocking send on the buffered channel. It succeeds, appending
      at the tail, exactly when the queue has room; otherwise it fails with `QueueFull`
      and changes nothing. The subscription list is never touched. */
  function Publish<M>(p: BaseProducer<M>, msg: M): (r: Transition<BaseProducer<M>, PublishError<M>>)
    ensures r.outcome == Pass <==> |p.queue| < p.capacity
    ensures r.outcome == Pass ==> r.state.queue == p.queue + [msg]
    ensures r.outcome != Pass ==> r.outcome == Fail(QueueFull(msg)) && r.state == p
    ensures r.state.capacity == p.capacity && r.state.subscriptions == p.subscriptions
    ensures Valid(p) ==> Valid(r.state)
  {
    if |p.queue| < p.capacity then Transition(p.(queue := p.queue + [msg]), Pass)
    else Transition(p, Fail(QueueFull(msg)))
  }

  /** What one iteration of `loopBroadcast` produces. */
  datatype Broadcast<M> = Broadcast(state: BaseProducer<M>, msg: M, deliveries: seq<Delivery<M>>)

  /** One iteration of `loopBroadcast`: take the oldest message (`None` when the queue is
      empty, where the loop blocks) and start one send per subscription-list entry. */
  function BroadcastStep<M>(p: BaseProducer<M>): (r: Option<Broadcast<M>>)
    ensures r.None? <==> |p.queue| == 0
    ensures r.Some? ==> r.value.msg == p.queue[0] && r.value.state.queue == p.queue[1..]
    ensures r.Some? ==> |r.value.deliveries| == |p.subscriptions|
    ensures r.Some? ==> forall i :: 0 <= i < |p.subscriptions| ==>
              r.value.deliveries[i] == Delivery(p.subscriptions[i], p.queue[0])
    ensures r.Some? ==> r.value.state.subscriptions == p.subscriptions
    ensures r.Some? ==> r.value.state.capacity == p.capacity
  {
    if |p.queue| == 0 then None
    else
      var msg := p.queue[0];
      Some(Broadcast(p.(queue := p.queue[1..]), msg, Fanout(p.subscriptions, msg)))
  }

  /** A broadcast iteration sends the message once per list entry: a channel listed `k`
      times receives it `k` times. */
  lemma BroadcastCountsDuplicates<M>(p: BaseProducer<M>, h: Handle)
    requires |p.queue| > 0
    ensures multiset(BroadcastStep(p).value.deliveries)[Delivery(h, p.queue[0])] == multiset(p.subscriptions)[h]
  {
    FanoutCountsDuplicates(p.subscriptions, p.queue[0], h);
  }

  // ---------------------------------------------------------------------------
  // Interleavings of calls on one producer
  // ---------------------------------------------------------------------------

  /** A call on a producer: a `Publish`, an `AddSubscription`, or one broadcast iteration. */
  datatype Event<M> = PublishCall(msg: M) | AddSubscriptionCall(handle: Handle) | BroadcastTick

  /** The effect of a list of events: the final producer, the messages `Publish`
      accepted and rejected, the messages the broadcast loop took, and the sends it
      started. A tick on an empty queue has no effect (the loop is still waiting). */
  datatype Trace<M> = Trace(final: BaseProducer<M>, accepted: seq<M>, rejected: seq<M>,
                            dequeued: seq<M>, deliveries: seq<Delivery<M>>)

  function Run<M>(p: BaseProducer<M>, events: seq<Event<M>>): (t: Trace<M>)
    ensures t.final.capacity == p.capacity
    decreases |events|
  {
    if |events| == 0 then Trace(p, [], [], [], [])
    else
      match events[0]
      case PublishCall(msg) =>
        var r := Publish(p, msg);
        var t := Run(r.state, events[1..]);
        if r.outcome == Pass then t.(accepted := [msg] + t.accepted)
        else t.(rejected := [msg] + t.rejected)
      case AddSubscriptionCall(h) =>
        Run(AddSubscription(p, h), events[1..])
      case BroadcastTick =>
        match BroadcastStep(p)
        case None => Run(p, events[1..])
        case Some(b) =>
          var t := Run(b.state, events[1..]);
          t.(dequeued := [b.msg] + t.dequeued, deliveries := b.deliveries + t.deliveries)
  }

  /** FIFO: the broadcast loop takes messages in the order they were queued. What was
      queued at the start followed by what `Publish` accepted equals what the loop took
      followed by what is still queued. */
  lemma {:induction false} RunIsFifo<M>(p: BaseProducer<M>, events: seq<Event<M>>)
    ensures p.queue + Run(p, events).accepted == Run(p, events).dequeued + Run(p, events).final.queue
    decreases |events|
  {
    if |events| > 0 {
      match events[0]
      case PublishCall(msg) =>
        var r := Publish(p, msg);
        RunIsFifo(r.state, events[1..]);
        if r.outcome == Pass {
          QueueAppendAssociates(p.queue, msg, Run(r.state, events[1..]).accepted);
        }
      case AddSubscriptionCall(h) =>
        RunIsFifo(AddSubscription(p, h), events[1..]);
      case BroadcastTick =>
        match BroadcastStep(p)
        case None =>
          RunIsFifo(p, events[1..]);
        case Some(b) =>
          RunIsFifo(b.state, events[1..]);
          QueueHeadAssociates(p.queue, Run(b.state, events[1..]).accepted);
    }
  }

  /** An accepted message joins the queue before everything accepted after it. */
  lemma QueueAppendAssociates<M>(queue: seq<M>, msg: M, later: seq<M>)
    ensures queue + ([msg] + later) == (queue + [msg]) + later
  {
  }

  /** The head of a non-empty queue comes before the rest of it and what follows. */
  lemma QueueHeadAssociates<M>(queue: seq<M>, later: seq<M>)
    requires |queue| > 0
    ensures queue + later == [queue[0]] + (queue[1..] + later)
  {
    assert queue == [queue[0]] + queue[1..];
  }

  /** With an initially empty queue, messages leave in publish order: the messages the
      loop took are a prefix of the messages `Publish` accepted. */
  lemma FifoFromEmpty<M>(p: BaseProducer<M>, events: seq<Event<M>>)
    requires p.queue == []
    ensures Run(p, events).dequeued <= Run(p, events).accepted
  {
    RunIsFifo(p, events);
    var t := Run(p, events);
    assert t.accepted == t.dequeued + t.final.queue;
  }

  /** The queue bound holds after any interleaving of calls. */
  lemma {:induction false} RunKeepsValid<M>(p: BaseProducer<M>, events: seq<Event<M>>)
    requires Valid(p)
    ensures Valid(Run(p, events).final)
    decreases |events|
  {
    if |events| > 0 {
      match events[0]
      case PublishCall(msg) =>
        RunKeepsValid(Publish(p, msg).state, events[1..]);
      case AddSubscriptionCall(h) =>
        RunKeepsValid(AddSubscription(p, h), events[1..]);
      case BroadcastTick =>
        match BroadcastStep(p)
        case None =>
          RunKeepsValid(p, events[1..]);
        case Some(b) =>
          RunKeepsValid(b.state, events[1..]);
    }
  }

  /** The number of `AddSubscriptionCall` events in a list. */
  function AddCount<M>(events: seq<Event<M>>): nat
  {
    if |events| == 0 then 0
    else (if events[0].AddSubscriptionCall? then 1 else 0) + AddCount(events[1..])
  }

  /** Only `AddSubscription` changes the subscription list, and each call adds one entry:
      `Publish` and the broadcast loop leave it alone. */
  lemma {:induction false} RunCountsSubscriptions<M>(p: BaseProducer<M>, events: seq<Event<M>>)
    ensures TotalSubscriptions(Run(p, events).final) == TotalSubscriptions(p) + AddCount(events)
    ensures Run(p, events).final.subscriptions[..|p.subscriptions|] == p.subscriptions
    decreases |events|
  {
    if |events| > 0 {
      match events[0]
      case PublishCall(msg) =>
        RunCountsSubscriptions(Publish(p, msg).state, events[1..]);
      case AddSubscriptionCall(h) =>
        var p' := AddSubscription(p, h);
        RunCountsSubscriptions(p', events[1..]);
        var subs := Run(p', events[1..]).final.subscriptions;
        assert subs[..|p.subscriptions|] == subs[..|p'.subscriptions|][..|p.subscriptions|];
      case BroadcastTick =>
        match BroadcastStep(p)
        case None =>
          RunCountsSubscriptions(p, events[1..]);
        case Some(b) =>
          RunCountsSubscriptions(b.state, events[1..]);
    }
  }

  // ---------------------------------------------------------------------------
  // Publishing without draining
  // ---------------------------------------------------------------------------

  /** One `Publish` call per message, in order. */
  function PublishCalls<M>(msgs: seq<M>): (events: seq<Event<M>>)
    ensures |events| == |msgs|
    ensures forall i :: 0 <= i < |msgs| ==> events[i] == PublishCall(msgs[i])
  {
    seq(|msgs|, i requires 0 <= i < |msgs| => PublishCall(msgs[i]))
  }

  /** With nothing draining the queue, `Publish` accepts exactly as many messages as the
      queue has room for, in order, and rejects all later ones. */
  lemma {:induction false} PublishWithoutDraining<M>(p: BaseProducer<M>, msgs: seq<M>)
    requires Valid(p)
    ensures var room := p.capacity - |p.queue|;
            var k := if |msgs| < room then |msgs| else room;
            && Run(p, PublishCalls(msgs)).accepted == msgs[..k]
            && Run(p, PublishCalls(msgs)).rejected == msgs[k..]
            && Run(p, PublishCalls(msgs)).dequeued == []
    decreases |msgs|
  {
    if |msgs| > 0 {
      var r := Publish(p, msgs[0]);
      assert PublishCalls(msgs)[1..] == PublishCalls(msgs[1..]);
      PublishWithoutDraining(r.state, msgs[1..]);
      if r.outcome != Pass {
        assert msgs[1..][0..] == msgs[1..] && msgs[0..] == msgs;
        assert msgs == [msgs[0]] + msgs[1..];
      } else {
        var room := p.capacity - |p.queue|;
        var k := if |msgs| < room then |msgs| else room;
        assert msgs[..k] == [msgs[0]] + msgs[1..][..k - 1];
        assert msgs[k..] == msgs[1..][k - 1..];
      }
    }
  }

  /** producer_test.go's `TestBaseProducer_Publish`: with capacity 10 and nothing draining,
      ten publishes succeed and the eleventh fails. */
  lemma CapacityTenExample<M>(msgs: seq<M>)
    requires |msgs| == 11
    ensures Run(NewBaseProducer(10), PublishCalls(msgs)).accepted == msgs[..10]
    ensures Run(NewBaseProducer(10), PublishCalls(msgs)).rejected == [msgs[10]]
  {
    PublishWithoutDraining(NewBaseProducer(10), msgs);
  }
}
