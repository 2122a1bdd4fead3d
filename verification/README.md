# pubsub-challenge in Dafny

A verified model of the core of an in-process publish/subscribe bus written in Go.
Producers publish on uniquely named topics. Consumers subscribe with wildcard patterns
and receive the messages of every matching topic, including topics registered after
the subscription was made.

The model has six modules:

- `Results` (results.dfy): `Outcome` (a Go `error` result), `Option`, and `Transition` (a new
  state together with the error a call returned).
- `Topics` (topics.dfy), for util.go:
  - `ValidTopic`, written with the same code-point ranges as the source.
  - The regular-expression split on `/`, `.` and `-`, written out by hand as `Split`, with
    `Separators` and `Join` as its inverse.
  - `MatchTopic`: equal segment counts, then segment-wise comparison, where `*` matches
    exactly one segment.
- `Channels` (channels.dfy): channel handles, and the fan-out of one message over a
  subscription list. Both the producer's broadcast loop and the consumer's listen loop use it.
- `Producers` (producers.dfy), for producer.go:
  - a bounded FIFO queue with a non-blocking `Publish`;
  - an append-only subscription list;
  - one iteration of `loopBroadcast` as `BroadcastStep`;
  - `Run`, an interleaving of publishes, attachments and broadcast iterations on one producer.
- `Consumers` (consumers.dfy), for consumer.go: the older consumer, with its subscription
  list and one iteration of `listen`.
- `Registry` (registry.dfy), for pubsub.go:
  - `BasePubSub` is a pure state. It holds producers keyed by topic, idle subscriptions keyed
    by pattern, and the set of attachments, each an edge (topic, subscription).
  - `RegisterProducer` and `Subscribe` are transitions on that state.
  - `Valid` is the invariant both transitions keep. Its key clause: no idle pattern matches a
    registered topic.

Where the Go code and its comments disagree, the model follows the code:

- The doc comment of `Subscribe` (pubsub.go:118-120) says an unmatched subscription never
  receives messages. The code parks it as idle (pubsub.go:150-152) and attaches it when a
  matching producer registers later (pubsub.go:80, pubsub.go:96-113), as doc.go:11-13 promises.
  The model does the same.
- pubsub.go calls `matchSubscription` and `addSubscription` and uses a `subscription{ch, pattern}`
  record. None of these is defined in producer.go, which stores bare channels.
  - Subscriptions are modelled as the record `(pattern, handle)`.
  - Cross-attachment is modelled as the doc comment of `matchNewProducer` (pubsub.go:85-87)
    describes it.
- `RegisterProducer` accepts any `*BaseProducer` and rejects any other `Producer`
  implementation (pubsub.go:71-74). `ProducerRef` tags the producer as
  `BaseProducerRef` or `ForeignProducerRef`.
- The comments at pubsub.go:35-39 and pubsub.go:56-57 say a `BaseConsumer` is created for
  each producer and listens for its messages. `RegisterProducer` (pubsub.go:59-83) creates
  none. The model follows the code: `Consumers` is a standalone model of consumer.go, and
  the registry creates no consumers.

## Model

| member | source | states |
|---|---|---|
| `Topics.ValidTopic` | util.go:19-38 | The empty string gives `EmptyTopic`, checked before any rune. `InvalidTopic` is returned exactly when the string is non-empty and some rune is outside the allowed set. Success exactly when the string is non-empty and all its runes are allowed. |
| `Topics.ScanRunes` | util.go:24-35 | The rune loop succeeds exactly when every remaining rune passes the test, and its only error is `InvalidTopic`. |
| `Topics.TopicCharIsAlphanumericOrSeparator` | util.go:25-30 | The code-point ranges 48-57, 65-90, 97-122 and 45-47 accept exactly the ASCII letters, the digits, `-`, `.` and `/`. |
| `Topics.ValidTopicExamples` | util_test.go:16-22 | `"a.b.c"`, `"foo"` and `"a.b-c/d"` are valid. `""` is empty. `"a?b"`, `"©∂ç"` and `" foo"` are invalid. |
| `Topics.Split` | util.go:51-52 | Splitting on the separator pattern gives one more segment than there are separators, and no segment contains a separator. |
| `Topics.SeparatorCount` | util.go:8 | The separators are exactly the `/`, `.` and `-` characters of the string, counted with multiplicity. |
| `Topics.JoinSplit` | util.go:51-52 | Splitting loses nothing: the segments, re-joined with the original separators, give back the string. |
| `Topics.SplitJoin` | util.go:51-52 | Splitting inverts joining: separator-free segments joined by separators split back into the same segments and separators. |
| `Topics.SplitIgnoresSeparatorKind` | util.go:8 | Which of `/`, `.`, `-` is used at a position does not change the segments. |
| `Topics.MatchSegmentsFrom` | util.go:58-64 | The segment loop returns true exactly when every pattern segment from the index on is `*` or equal to the topic segment at the same index. |
| `Topics.MatchTopic` | util.go:50-65 | A pattern matches exactly when it has as many segments as the topic and each of its segments is `*` or equals the topic segment at the same index. Every string matches itself. |
| `Topics.MatchNeedsSameSeparatorCount` | util.go:54-56 | A topic and a pattern with different numbers of separators never match, whatever their segments. |
| `Topics.AllWildcards` | util.go:47 | The pattern of `n + 1` wildcards splits into `n + 1` `*` segments. |
| `Topics.AllWildcardsMatch` | util.go:58-62 | A pattern made only of wildcards matches every topic with the same number of segments. |
| `Topics.MatchIgnoresSeparatorKind` | util.go:51-52 | Re-writing the topic or the pattern with other separators at the same positions does not change the result, so `"a.b"` matches `"a-b"`. |
| `Topics.LiteralPatternMatch` | util.go:50-65 | A pattern without `*` matches a topic exactly when the two are equal up to the choice of separators. |
| `Topics.MatchTopicWildcardExamples` | util_test.go:40-44 | `"a.*.c"` and `"a.*.*"` match `"a.b.c"`. |
| `Topics.MatchTopicSameSegmentsExamples` | util_test.go:36-38 | `"a.b.c"` matches itself. |
| `Topics.MatchTopicSeparatorKindExample` | util.go:8 | `"a-b"` matches `"a.b"`: the three separators are interchangeable. |
| `Topics.MatchTopicMismatchExample` | util_test.go:45-47 | `"c.b.a"` does not match `"a.b.c"`. |
| `Topics.MatchTopicCountExamples` | util_test.go:48-56 | `"a.*"` does not match `"a.b.c"`. `"a.b.c.d"` and `"a.b.c"` do not match each other in either role. |
| `Channels.Fanout` | producer.go:73-79 | One send of the message per entry of the subscription list, entry `i` giving send `i`. |
| `Channels.FanoutReachesEverySubscriber` | producer.go:73-79 | The recipients of the fan-out are exactly the subscription list, and every send carries the message. |
| `Channels.FanoutCountsDuplicates` | producer.go:73-79 | A channel listed `k` times receives `k` sends. |
| `Producers.NewBaseProducer` | producer.go:29-35 | A new producer has an empty queue of the given capacity and zero subscriptions. |
| `Producers.TotalSubscriptions` | producer.go:39-43 | The count is the length of the subscription list, duplicate entries included. `RunCountsSubscriptions` relates it to the number of `AddSubscription` calls. |
| `Producers.AddSubscription` | producer.go:47-51 | One entry is appended at the end; earlier entries keep their order, the count grows by one even for a duplicate, and the queue is untouched. |
| `Producers.Publish` | producer.go:55-63 | Succeeds exactly when the queue holds fewer messages than its capacity, appending the message at the tail. Otherwise it fails with `QueueFull` naming the message and changes nothing. It never touches the subscription list. |
| `Producers.BroadcastStep` | producer.go:69-81 | Nothing happens on an empty queue. Otherwise the head message is removed and one send per subscription entry is started; the list is unchanged. |
| `Producers.BroadcastCountsDuplicates` | producer.go:73-79 | A broadcast iteration sends the head message to a channel as many times as that channel is listed. |
| `Producers.RunIsFifo` | producer.go:55-81 | Over any interleaving of calls, the initial queue followed by the accepted messages equals the messages the loop took followed by what is still queued. |
| `Producers.FifoFromEmpty` | producer.go:56-69 | Starting from an empty queue, the broadcast loop takes messages in publish order: a prefix of the accepted ones. |
| `Producers.RunKeepsValid` | producer.go:56-61 | No interleaving of calls makes the queue exceed its capacity. |
| `Producers.RunCountsSubscriptions` | producer.go:39-51 | `TotalSubscriptions` grows by exactly the number of `AddSubscription` calls, and the earlier entries are kept in order. `Publish` and the broadcast loop do not change the list. |
| `Producers.PublishWithoutDraining` | producer.go:56-61 | With nothing draining the queue, the first `capacity - queued` publishes are accepted in order and all later ones are rejected. |
| `Producers.CapacityTenExample` | producer_test.go:14-21 | With capacity 10, ten publishes succeed and the eleventh fails. |
| `Consumers.NewBaseConsumer` | consumer.go:22-28 | A new consumer reads from the given channel and has zero subscriptions. |
| `Consumers.TotalSubscriptions` | consumer.go:32-36 | The count is the length of the subscription list, duplicate entries included. `AddSubscriptionsAppends` relates it to the channels added. |
| `Consumers.AddSubscription` | consumer.go:40-44 | One entry is appended at the end, the count grows by one, earlier entries keep their order, and the input channel is unchanged. |
| `Consumers.ListenStep` | consumer.go:50-61 | A received message is sent once per subscription entry. |
| `Consumers.AddSubscriptionsAppends` | consumer.go:40-44 | Adding a list of channels appends it in order; the count grows by the list length, duplicates included. |
| `Consumers.ListenAfterAdding` | consumer.go:54-59 | After channels are added, a received message reaches each channel as many times as it was added. |
| `Consumers.AddSubscriptionExample` | consumer_test.go:10-15 | A new consumer has 0 subscriptions; after adding the nil channel it has 1. |
| `Registry.NewBasePubSub` | pubsub.go:48-53 | The new registry has no producers, no idle subscriptions and no attachments, and satisfies the invariant. |
| `Registry.MatchNewProducer` | pubsub.go:85-87 | Cross-attachment adds to the new topic exactly the attached subscriptions whose pattern matches it. |
| `Registry.CrossAttached` | pubsub.go:78-79 | The new producer is stored under its topic. Cross-attachment runs before the store, so it attaches to the new topic exactly the subscriptions already attached to an earlier producer whose pattern matches the new topic. Idle subscriptions and the handle counter are unchanged. |
| `Registry.SubscribeIdle` | pubsub.go:96-113 | An idle entry whose pattern matches some registered topic is removed; every other entry stays unchanged. Each removed subscription is attached to every registered topic its pattern matches, and to nothing else. |
| `Registry.RegisterProducer` | pubsub.go:59-83 | An invalid topic returns `ValidTopic`'s error. A registered topic returns `DuplicateTopic`. A producer that is not a `BaseProducer` is rejected. Every failure leaves the state unchanged. On success `producers` gains exactly the new key, and attachments are only added. |
| `Registry.Subscribe` | pubsub.go:125-155 | The new subscription gets a fresh channel and is attached to exactly the registered topics its pattern matches. It is parked as idle, overwriting any earlier entry for the pattern, only when no topic matches; otherwise the idle map is untouched. `producers` never changes. |
| `Registry.RegisterProducerAttachesMatching` | pubsub.go:78-80 | In a valid registry, a registration attaches to the new producer exactly the held subscriptions (attached or idle) whose pattern matches the new topic, and nothing to other producers. |
| `Registry.RegisterProducerResolvesIdle` | pubsub.go:80 | In a valid registry, a registration removes from the idle map exactly the patterns that match the new topic, and keeps the other entries. |
| `Registry.RegisterProducerKeepsValid` | pubsub.go:78-80 | Registration keeps the invariant. In particular, no idle pattern matches a registered topic afterwards. |
| `Registry.RegisterProducerKeepsSubscriptions` | pubsub.go:96-113 | Registration loses no subscription: each resolved idle subscription becomes attached. |
| `Registry.SubscribeKeepsValid` | pubsub.go:136-152 | `Subscribe` keeps the invariant, because a subscription is parked only when no registered topic matches it. |
| `Registry.SubscribeAttachesMatching` | pubsub.go:129-148 | In a valid registry, the new subscription is attached to every matching registered topic and to no other, and the registry then holds it. Its channel is never the nil channel. |
| `Registry.IdleSubscriptionResolved` | pubsub.go:100-111 | An idle subscription is attached to a later-registered producer whose topic matches its pattern, and leaves the idle map. |
| `Registry.IdleOverwriteDropsEarlierSubscription` | pubsub.go:150-152 | Two unmatched `Subscribe` calls with the same pattern: the second replaces the first in the idle map, and the first is no longer held anywhere. |
| `Registry.ApplyKeepsValid` | pubsub.go:59-155 | Every sequence of `RegisterProducer` and `Subscribe` calls keeps the invariant. |
| `Registry.ReachableIsValid` | pubsub.go:48-53 | Every registry reachable from `NewBasePubSub` satisfies the invariant: no idle pattern matches a registered topic, and an attached subscription is attached to every registered topic it matches. |

## Left out

- Goroutines, mutexes and channel blocking are not modelled.
  - Each attach goroutine (pubsub.go:104, pubsub.go:144) is treated as already run. In Go,
    a `RegisterProducer` can run before an earlier `Subscribe`'s attach goroutine
    (pubsub.go:144) has run. Its `matchNewProducer` then cannot see that subscription on the
    existing producers, so the new producer misses it. `Valid`'s clause that an attached
    subscription is attached to every registered topic it matches holds only under the
    already-run assumption.
  - Each send goroutine (producer.go:74-78, consumer.go:55-58) is a pending `Delivery`.
  - Which order attachments and sends complete in is a scheduling matter, so a producer's
    list order is not derived from the registry, and per-subscriber delivery order is not
    modelled.
- `Registry.RegisterProducer` treats every registration as a distinct producer object, and
  the `id` of a `ProducerRef` is never read.
  - Go lets one `*BaseProducer` be registered under two topics, since pubsub.go:67-79
    checks only that the topic is unused.
  - Both map entries then share one queue and one subscription list, and two
    `loopBroadcast` goroutines drain that queue.
  - So a subscription attached under one topic also receives what is published through
    the other, and `matchNewProducer` visits the shared object twice.
  - The model keeps the attachments of each topic independent and does not model this
    aliasing.
- `Registry.RegisterProducer` treats a nil or zero-value `*BaseProducer` as a working
  producer. The type assertion at pubsub.go:71 accepts both.
  - With a nil pointer, the goroutine started at pubsub.go:76 dereferences nil in
    `loopBroadcast` (producer.go:69), and the Go process panics.
  - A zero value has a nil channel, so its `Publish` always fails and its loop blocks forever.
  - The model returns `Pass` for every `BaseProducerRef`.
- The registry and the producers are separate models. The registry records which
  subscriptions each topic has (`attached`). It does not hold the producers' queues or lists.
- `Registry.MatchNewProducer` follows the doc comment of `matchNewProducer` (pubsub.go:85-87).
  - The body of `matchSubscription` is not part of this model.
  - Attachments form a set, so attaching a subscription twice to one producer is not
    distinguished from attaching it once.
- `Producers.Publish` models capacity 0 as always full. With an unbuffered Go channel, a
  non-blocking send succeeds if the broadcast goroutine happens to be waiting; that
  depends on scheduling.
- `Producers.NewBaseProducer` does not take the topic, which the source uses only to name
  the logger.
- zerolog logging and `init` are not modelled; they have no effect on state.
- The error message texts are not modelled. Errors are datatype values; the one from
  `Publish` names the rejected message.
- Messages are opaque: the type parameter `M`. Their `String` method is used only for logging
  and for the text of `Publish`'s error (producer.go:61); neither affects state.
- Channel allocation (`make(chan Message)`) is a counter `nextHandle` in the registry. It
  starts at 1, because handle 0 stands for the nil channel of the consumer test, which is
  never allocated.
- Integer widths are not modelled. The `uint` capacity and the `int` counts are unbounded
  naturals; no realistic count reaches their bounds.
- Go strings are modelled as sequences of runes. Only ASCII runes pass `ValidTopic`, and the
  separators are ASCII, so byte-level and rune-level splitting give the same segments.
- The busy-wait scenario test in pubsub_test.go is not reproduced. Its expectations are
  stated by the registry lemmas instead:
  - fan-in of `*.*.c`: `SubscribeAttachesMatching`;
  - a later `foo/baz` matching `foo/*`: `RegisterProducerAttachesMatching`.
