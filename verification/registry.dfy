/** The registry of pubsub.go (`BasePubSub`): producers keyed by topic, idle
    subscriptions keyed by pattern, and the attachments of subscriptions to producers.

    The source attaches a subscription to a producer in a goroutine; the model treats
    every such goroutine as already run and records the attachment as an edge
    (topic, subscription). Map iteration order and the order in which those goroutines
    run only decide the order of a producer's subscription list, so the edges form a
    set. Both operations run under the registry mutex, so each is one atomic transition. */
module Registry {
  import opened Results
  import opened Topics
  import opened Channels

  /** The producer passed to `RegisterProducer`: the source accepts only a
      `*BaseProducer` and rejects every other implementation of `Producer`. */
  datatype ProducerRef = BaseProducerRef(id: nat) | ForeignProducerRef(id: nat)

  /** A subscription: its pattern and the channel its messages go to. */
  datatype Subscription = Subscription(pattern: string, handle: Handle)

  /** `sub` has been added to the producer registered for `topic`. */
  datatype Attachment = Attachment(topic: string, sub: Subscription)

  /** `BasePubSub`. `nextHandle` stands for the allocation of a fresh Go channel: every
      handle handed out so far is below it. Handle 0 is the nil channel and is never
      allocated. */
  datatype BasePubSub = BasePubSub(
    producers: map<string, ProducerRef>,
    idle: map<string, Subscription>,
    attached: set<Attachment>,
    nextHandle: Handle)

  /** The errors `RegisterProducer` returns, in the order the source checks them. */
  datatype RegisterError =
    | BadTopic(cause: TopicError)
    | DuplicateTopic(topic: string)
    | UnexpectedProducerType

  // ---------------------------------------------------------------------------
  // Invariant
  // ---------------------------------------------------------------------------

  /** Some registered topic matches `pattern`. */
  predicate MatchesRegisteredTopic(producers: map<string, ProducerRef>, pattern: string) {
    exists t :: t in producers && MatchTopic(t, pattern)
  }

  /** The subscriptions attached to at least one producer. */
  function AttachedSubscriptions(ps: BasePubSub): (subs: set<Subscription>)
    ensures forall s :: s in subs <==> exists a :: a in ps.attached && a.sub == s
  {
    set a | a in ps.attached :: a.sub
  }

  /** Every subscription the registry still holds: attached somewhere or idle. */
  function KnownSubscriptions(ps: BasePubSub): (subs: set<Subscription>)
    ensures forall s :: s in subs <==> s in AttachedSubscriptions(ps) || s in ps.idle.Values
  {
    AttachedSubscriptions(ps) + ps.idle.Values
  }

  /** The invariant every reachable registry keeps:
      - attachments only point at registered producers, whose topic matches the pattern;
      - an idle subscription is stored under its own pattern;
      - no idle pattern matches a registered topic (so idle subscriptions are attached
        nowhere);
      - an attached subscription is attached to every registered topic it matches;
      - every handle in use was allocated before `nextHandle`, and the nil channel (0)
        is never allocated. */
  predicate Valid(ps: BasePubSub) {
    && (forall a :: a in ps.attached ==> a.topic in ps.producers && MatchTopic(a.topic, a.sub.pattern))
    && (forall p :: p in ps.idle ==> ps.idle[p].pattern == p)
    && (forall p, t :: p in ps.idle && t in ps.producers ==> !MatchTopic(t, p))
    && (forall a, t :: a in ps.attached && t in ps.producers && MatchTopic(t, a.sub.pattern) ==>
          Attachment(t, a.sub) in ps.attached)
    && (forall a :: a in ps.attached ==> a.sub.handle < ps.nextHandle)
    && (forall p :: p in ps.idle ==> ps.idle[p].handle < ps.nextHandle)
    && ps.nextHandle > 0
  }

  /** `NewBasePubSub`: no producers, no subscriptions. */
  function NewBasePubSub(): (ps: BasePubSub)
    ensures Valid(ps)
    ensures ps.producers == map[] && ps.idle == map[] && ps.attached == {}
    ensures ps.nextHandle != 0
  {
    BasePubSub(map[], map[], {}, 1)
  }

  // ---------------------------------------------------------------------------
  // RegisterProducer
  // ---------------------------------------------------------------------------

  /** `matchNewProducer`, as its doc comment describes it: every existing subscription
      (one attached to an existing producer) whose pattern matches the new topic is
      added to the new producer. */
  function MatchNewProducer(ps: BasePubSub, topic: string): (added: set<Attachment>)
    ensures forall a :: a in added <==>
              a.topic == topic && a.sub in AttachedSubscriptions(ps) && MatchTopic(topic, a.sub.pattern)
  {
    set s | s in AttachedSubscriptions(ps) && MatchTopic(topic, s.pattern) :: Attachment(topic, s)
  }

  /** The registry after cross-attaching to the new producer and then storing it: the
      scan runs before the store, so it sees only the producers registered earlier. */
  function CrossAttached(ps: BasePubSub, topic: string, producer: ProducerRef): (ps': BasePubSub)
    ensures ps'.producers == ps.producers[topic := producer]
    ensures forall a :: a in ps'.attached <==>
              || a in ps.attached
              || (a.topic == topic && a.sub in AttachedSubscriptions(ps) && MatchTopic(topic, a.sub.pattern))
    ensures ps'.idle == ps.idle && ps'.nextHandle == ps.nextHandle
  {
    ps.(producers := ps.producers[topic := producer], attached := ps.attached + MatchNewProducer(ps, topic))
  }

  /** `subscribeIdle`: each idle subscription whose pattern matches some registered topic
      is attached to every such producer and leaves the idle map; the others stay. */
  function SubscribeIdle(ps: BasePubSub): (ps': BasePubSub)
    ensures ps'.producers == ps.producers && ps'.nextHandle == ps.nextHandle
    ensures forall p :: p in ps'.idle <==> p in ps.idle && !MatchesRegisteredTopic(ps.producers, p)
    ensures forall p :: p in ps'.idle ==> ps'.idle[p] == ps.idle[p]
    ensures forall a :: a in ps'.attached <==>
              || a in ps.attached
              || exists p :: p in ps.idle && a.sub == ps.idle[p] && a.topic in ps.producers && MatchTopic(a.topic, p)
  {
    var resolved := set p | p in ps.idle && MatchesRegisteredTopic(ps.producers, p);
    var added := set p, t | p in resolved && t in ps.producers && MatchTopic(t, p) :: Attachment(t, ps.idle[p]);
    ps.(idle := ps.idle - resolved, attached := ps.attached + added)
  }

  /** `RegisterProducer(topic, producer)`: validate the topic, reject a registered topic,
      reject a producer that is not a `BaseProducer`; otherwise cross-attach existing
      subscriptions, store the producer and resolve idle subscriptions. Starting the
      broadcast goroutine has no effect on the registry. */
  function RegisterProducer(ps: BasePubSub, topic: string, producer: ProducerRef): (r: Transition<BasePubSub, RegisterError>)
    ensures ValidTopic(topic) != Pass ==> r == Transition(ps, Fail(BadTopic(ValidTopic(topic).error)))
    ensures ValidTopic(topic) == Pass && topic in ps.producers ==> r == Transition(ps, Fail(DuplicateTopic(topic)))
    ensures r.outcome == Pass <==> IsTopic(topic) && topic !in ps.producers && producer.BaseProducerRef?
    ensures r.outcome != Pass ==> r.state == ps
    ensures r.outcome == Pass ==> r.state.producers == ps.producers[topic := producer]
    ensures ps.attached <= r.state.attached
    ensures r.state.idle.Keys <= ps.idle.Keys
    ensures r.state.nextHandle == ps.nextHandle
  {
    match ValidTopic(topic)
    case Fail(e) => Transition(ps, Fail(BadTopic(e)))
    case Pass =>
      if topic in ps.producers then Transition(ps, Fail(DuplicateTopic(topic)))
      else if !producer.BaseProducerRef? then Transition(ps, Fail(UnexpectedProducerType))
      else
        Transition(SubscribeIdle(CrossAttached(ps, topic, producer)), Pass)
  }

  // ---------------------------------------------------------------------------
  // Subscribe
  // ---------------------------------------------------------------------------

  /** What `Subscribe` returns: the new registry and the receive side of the new channel. */
  datatype Subscribed = Subscribed(state: BasePubSub, handle: Handle)

  /** `Subscribe(pattern)`: a fresh channel; the subscription is attached to every
      registered producer whose topic matches, and is parked as idle under its pattern
      (replacing an earlier idle entry) only when none matches. The pattern is not
      validated and `producers` is never changed. */
  function Subscribe(ps: BasePubSub, pattern: string): (r: Subscribed)
    ensures r.handle == ps.nextHandle && r.state.nextHandle == ps.nextHandle + 1
    ensures r.state.producers == ps.producers
    ensures forall a :: a in r.state.attached <==>
              a in ps.attached ||
              (a.sub == Subscription(pattern, r.handle) && a.topic in ps.producers && MatchTopic(a.topic, pattern))
    ensures MatchesRegisteredTopic(ps.producers, pattern) ==> r.state.idle == ps.idle
    ensures !MatchesRegisteredTopic(ps.producers, pattern) ==>
              r.state.idle == ps.idle[pattern := Subscription(pattern, r.handle)]
  {
    var sub := Subscription(pattern, ps.nextHandle);
    var added := set t | t in ps.producers && MatchTopic(t, pattern) :: Attachment(t, sub);
    var idle := if MatchesRegisteredTopic(ps.producers, pattern) then ps.idle else ps.idle[pattern := sub];
    Subscribed(ps.(idle := idle, attached := ps.attached + added, nextHandle := ps.nextHandle + 1), sub.handle)
  }

  // ---------------------------------------------------------------------------
  // Properties of the transitions
  // ---------------------------------------------------------------------------

  /** A successful registration is cross-attachment followed by `subscribeIdle`. */
  lemma RegisterProducerSteps(ps: BasePubSub, topic: string, producer: ProducerRef)
    requires RegisterProducer(ps, topic, producer).outcome == Pass
    ensures RegisterProducer(ps, topic, producer).state == SubscribeIdle(CrossAttached(ps, topic, producer))
  {
  }

  /** In a valid registry, an idle pattern matches a registered topic after the
      registration of `topic` exactly when it matches `topic`. */
  lemma IdleMatchesOnlyNewTopic(ps: BasePubSub, topic: string, producer: ProducerRef, p: string)
    requires Valid(ps) && p in ps.idle
    ensures MatchesRegisteredTopic(CrossAttached(ps, topic, producer).producers, p) <==> MatchTopic(topic, p)
  {
  }

  /** A successful `RegisterProducer` attaches to the new producer exactly the
      subscriptions the registry holds (attached elsewhere or idle) whose pattern
      matches the new topic, and attaches nothing to the other producers. */
  lemma RegisterProducerAttachesMatching(ps: BasePubSub, topic: string, producer: ProducerRef)
    requires Valid(ps)
    requires RegisterProducer(ps, topic, producer).outcome == Pass
    ensures forall a :: a in RegisterProducer(ps, topic, producer).state.attached <==>
              || a in ps.attached
              || (a.topic == topic && a.sub in KnownSubscriptions(ps) && MatchTopic(topic, a.sub.pattern))
  {
    var reg := CrossAttached(ps, topic, producer);
    var ps' := SubscribeIdle(reg);
    RegisterProducerSteps(ps, topic, producer);
    forall a | a in ps'.attached && a !in ps.attached
      ensures a.topic == topic && a.sub in KnownSubscriptions(ps) && MatchTopic(topic, a.sub.pattern)
    {
      if a !in reg.attached {
        var p :| p in ps.idle && a.sub == ps.idle[p] && a.topic in reg.producers && MatchTopic(a.topic, p);
        assert a.sub in ps.idle.Values;
      }
    }
    forall s | s in KnownSubscriptions(ps) && MatchTopic(topic, s.pattern)
      ensures Attachment(topic, s) in ps'.attached
    {
      if s !in AttachedSubscriptions(ps) {
        var p :| p in ps.idle && ps.idle[p] == s;
        IdleMatchesOnlyNewTopic(ps, topic, producer, p);
      }
    }
  }

  /** A successful `RegisterProducer` removes from the idle map exactly the patterns
      that match the new topic and keeps the other entries as they were. */
  lemma RegisterProducerResolvesIdle(ps: BasePubSub, topic: string, producer: ProducerRef)
    requires Valid(ps)
    requires RegisterProducer(ps, topic, producer).outcome == Pass
    ensures forall p :: p in RegisterProducer(ps, topic, producer).state.idle <==>
              p in ps.idle && !MatchTopic(topic, p)
    ensures forall p :: p in RegisterProducer(ps, topic, producer).state.idle ==>
              RegisterProducer(ps, topic, producer).state.idle[p] == ps.idle[p]
  {
    RegisterProducerSteps(ps, topic, producer);
    forall p | p in ps.idle {
      IdleMatchesOnlyNewTopic(ps, topic, producer, p);
    }
  }

  /** `RegisterProducer` keeps the invariant; in particular no idle pattern matches a
      registered topic afterwards. */
  lemma RegisterProducerKeepsValid(ps: BasePubSub, topic: string, producer: ProducerRef)
    requires Valid(ps)
    ensures Valid(RegisterProducer(ps, topic, producer).state)
  {
    var r := RegisterProducer(ps, topic, producer);
    if r.outcome == Pass {
      var ps' := r.state;
      RegisterProducerAttachesMatching(ps, topic, producer);
      RegisterProducerResolvesIdle(ps, topic, producer);
      forall a, t | a in ps'.attached && t in ps'.producers && MatchTopic(t, a.sub.pattern)
        ensures Attachment(t, a.sub) in ps'.attached
      {
        if t != topic {
          var a0 :| a0 in ps.attached && a0.sub == a.sub;
          assert Attachment(t, a0.sub) in ps.attached;
        }
      }
    }
  }

  /** Registering a producer loses no subscription: each idle one it resolves becomes
      attached. */
  lemma RegisterProducerKeepsSubscriptions(ps: BasePubSub, topic: string, producer: ProducerRef)
    requires Valid(ps)
    ensures KnownSubscriptions(RegisterProducer(ps, topic, producer).state) == KnownSubscriptions(ps)
  {
    var r := RegisterProducer(ps, topic, producer);
    if r.outcome == Pass {
      RegisterProducerAttachesMatching(ps, topic, producer);
      RegisterProducerResolvesIdle(ps, topic, producer);
      forall s | s in KnownSubscriptions(ps) ensures s in KnownSubscriptions(r.state) {
        if s !in AttachedSubscriptions(ps) {
          var p :| p in ps.idle && ps.idle[p] == s;
          if MatchTopic(topic, p) {
            assert Attachment(topic, s) in r.state.attached;
          } else {
            assert r.state.idle[p] == s;
          }
        } else {
          var a :| a in ps.attached && a.sub == s;
        }
      }
      forall s | s in KnownSubscriptions(r.state) ensures s in KnownSubscriptions(ps) {
        if s in AttachedSubscriptions(r.state) {
          var a :| a in r.state.attached && a.sub == s;
        } else {
          var p :| p in r.state.idle && r.state.idle[p] == s;
        }
      }
    }
  }

  /** `Subscribe` keeps the invariant: the new subscription is parked only when no
      registered topic matches it. */
  lemma SubscribeKeepsValid(ps: BasePubSub, pattern: string)
    requires Valid(ps)
    ensures Valid(Subscribe(ps, pattern).state)
  {
  }

  /** In a valid registry `Subscribe` attaches the new subscription to every registered
      producer whose topic matches the pattern and to no other, and the subscription is
      then held by the registry. */
  lemma SubscribeAttachesMatching(ps: BasePubSub, pattern: string)
    requires Valid(ps)
    ensures var r := Subscribe(ps, pattern);
            && (forall t :: Attachment(t, Subscription(pattern, r.handle)) in r.state.attached <==>
                  t in ps.producers && MatchTopic(t, pattern))
            && Subscription(pattern, r.handle) in KnownSubscriptions(r.state)
            && r.handle != 0
  {
    var r := Subscribe(ps, pattern);
    var sub := Subscription(pattern, r.handle);
    if MatchesRegisteredTopic(ps.producers, pattern) {
      var t :| t in ps.producers && MatchTopic(t, pattern);
      assert Attachment(t, sub) in r.state.attached;
    } else {
      assert r.state.idle[pattern] == sub;
    }
  }

  /** A subscription parked as idle is attached to the first producer registered later
      whose topic matches its pattern, and leaves the idle map. */
  lemma IdleSubscriptionResolved(ps: BasePubSub, pattern: string, topic: string, producer: ProducerRef)
    requires Valid(ps) && pattern in ps.idle
    requires RegisterProducer(ps, topic, producer).outcome == Pass
    requires MatchTopic(topic, pattern)
    ensures Attachment(topic, ps.idle[pattern]) in RegisterProducer(ps, topic, producer).state.attached
    ensures pattern !in RegisterProducer(ps, topic, producer).state.idle
  {
    RegisterProducerAttachesMatching(ps, topic, producer);
    RegisterProducerResolvesIdle(ps, topic, producer);
    assert ps.idle[pattern] in KnownSubscriptions(ps);
  }

  /** Two `Subscribe` calls with the same pattern that no registered topic matches: the
      second replaces the first in the idle map, and the first subscription is no longer
      held by the registry, so it never receives a message. */
  lemma IdleOverwriteDropsEarlierSubscription(ps: BasePubSub, pattern: string)
    requires Valid(ps)
    requires !MatchesRegisteredTopic(ps.producers, pattern)
    ensures var first := Subscribe(ps, pattern);
            var second := Subscribe(first.state, pattern);
            && second.state.idle[pattern] == Subscription(pattern, second.handle)
            && Subscription(pattern, first.handle) !in KnownSubscriptions(second.state)
  {
    var first := Subscribe(ps, pattern);
    var second := Subscribe(first.state, pattern);
    var s1 := Subscription(pattern, first.handle);
    assert s1 !in AttachedSubscriptions(second.state);
    forall p | p in second.state.idle ensures second.state.idle[p] != s1 {
      if p != pattern {
        assert second.state.idle[p] == ps.idle[p];
      }
    }
  }

  // ---------------------------------------------------------------------------
  // Runs of operations
  // ---------------------------------------------------------------------------

  /** A call on the registry. */
  datatype Operation =
    | RegisterProducerCall(topic: string, producer: ProducerRef)
    | SubscribeCall(pattern: string)

  /** The registry after a sequence of calls, one after the other. */
  function Apply(ps: BasePubSub, ops: seq<Operation>): BasePubSub
    decreases |ops|
  {
    if |ops| == 0 then ps
    else
      match ops[0]
      case RegisterProducerCall(topic, producer) => Apply(RegisterProducer(ps, topic, producer).state, ops[1..])
      case SubscribeCall(pattern) => Apply(Subscribe(ps, pattern).state, ops[1..])
  }

  /** After every sequence of calls on a new registry the invariant holds: no idle
      pattern matches a registered topic, and every attached subscription is attached
      to all registered topics its pattern matches. */
  lemma {:induction false} ApplyKeepsValid(ps: BasePubSub, ops: seq<Operation>)
    requires Valid(ps)
    ensures Valid(Apply(ps, ops))
    decreases |ops|
  {
    if |ops| > 0 {
      match ops[0]
      case RegisterProducerCall(topic, producer) =>
        RegisterProducerKeepsValid(ps, topic, producer);
        ApplyKeepsValid(RegisterProducer(ps, topic, producer).state, ops[1..]);
      case SubscribeCall(pattern) =>
        SubscribeKeepsValid(ps, pattern);
        ApplyKeepsValid(Subscribe(ps, pattern).state, ops[1..]);
    }
  }

  /** Every reachable registry is valid. */
  lemma ReachableIsValid(ops: seq<Operation>)
    ensures Valid(Apply(NewBasePubSub(), ops))
  {
    ApplyKeepsValid(NewBasePubSub(), ops);
  }
}
