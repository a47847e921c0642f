# Message verification in the replicator test harness

This project models the message-checking helpers of Apache Pulsar's
replicator test base (`ReplicatorTestBase.java`) and proves properties about
them.

- `MessageProducer` publishes the payloads `"test-0"`, `"test-1"`, … to a
  topic. It has three ways of doing so: blocking sends, asynchronous sends
  followed by one flush, and a reused message builder.
- `MessageConsumer.receive(n)` pulls deliveries from an at-least-once
  subscription and acknowledges every one of them. It skips payloads it has
  already seen during this call, and requires each new payload to be
  `"test-" + i` for a counter `i` that runs from 0 up to `n`.
- `drained()` asks for one more message without waiting.
- `inSec` converts a duration to whole seconds as a Java `int`.

The files:

- `payloads.dfy` (module `Payloads`)
  - The payload `"test-" + i`, rendered digit by digit as Java renders a
    non-negative `int`, and a parser that reads it back.
  - The canonical sequence `"test-0" … "test-(n-1)"`.
  - The seen-set `{"test-0", …, "test-(i-1)"}` that the consumer holds when
    its counter is `i`.
- `consumer.dfy` (module `Consumer`)
  - A pure specification `Run` of the receive loop.
  - A reference definition: take the first occurrence of each payload
    (`Dedup`), then compare it position by position with the canonical
    sequence (`Judge`).
  - The class `MessageConsumer`. Its field `deliveries` is what the
    subscription will still hand out, and `acked` is everything acknowledged
    so far.
  - The method `Receive` is proved against `Run`. Its loop invariant says
    that the seen-set is exactly `Seen(i)`.
  - The seen-set and the counter are locals of `Receive`, so they start
    empty and at 0 on every call, as in the source.
- `producer.dfy` (module `Producer`)
  - The class `MessageProducer`. It records the calls it issues on the
    client in `log`: `Send(mode, payload)` or `Flush`.
  - The function `Published` gives the payloads a log publishes, in order.
- `round_trip.dfy` (module `RoundTrip`)
  - Producer-to-consumer round trips, without and with redelivered
    duplicates.
  - Three end-to-end scenarios written as methods over the two classes.
- `time_units.dfy` (module `TimeUnits`)
  - `inSec`: `TimeUnit.SECONDS.convert` on a Java `long`, then the `(int)`
    cast.
  - The conversion truncates toward zero when the source unit is finer than
    a second. It saturates at the `long` range when the source unit is
    coarser.
  - The cast keeps the low 32 bits.

The transport is a finite sequence of deliveries. Running out of deliveries
stands for `consumer.receive(10, SECONDS)` returning `null` after its
timeout. A failed TestNG assertion in `receive` is modelled as an outcome:
`NoDelivery` for `assertNotNull`, and `OutOfOrder(actual, expected)` for
`assertEquals`.

One behaviour follows from the code and is proved here. `receive(n)` stops
as soon as the n-th new payload is accepted: on any stream, the last
delivery a successful `receive(n)` takes is `"test-(n-1)"`
(`Consumer.RunStopsAfterLast`). So a redelivery of the last message that
arrives after it stays on the subscription, and a following `drained()`
reports `false` (`RoundTrip.TrailingDuplicateScenario`). So a redelivery of the last message that
arrives after it stays on the subscription, and a following `drained()`
reports `false`.

## Model

| member | source | states |
|---|---|---|
| Payloads.DecimalShape | pulsar-broker/src/test/java/org/apache/pulsar/broker/service/ReplicatorTestBase.java:316 | the decimal rendering of an index is a non-empty string of digits, and has more than one digit exactly from 10 on |
| Payloads.ParseDecimal | pulsar-broker/src/test/java/org/apache/pulsar/broker/service/ReplicatorTestBase.java:316 | the parser accepts only non-empty all-digit strings |
| Payloads.DecimalRoundTrip | pulsar-broker/src/test/java/org/apache/pulsar/broker/service/ReplicatorTestBase.java:316 | parsing the rendering of `i` gives back `i` |
| Payloads.ParseDecimalRoundTrip | pulsar-broker/src/test/java/org/apache/pulsar/broker/service/ReplicatorTestBase.java:316 | any string the parser accepts is the rendering of the value it reads, so the rendering is the only spelling of an index |
| Payloads.PayloadRoundTrip | pulsar-broker/src/test/java/org/apache/pulsar/broker/service/ReplicatorTestBase.java:306 | the index can be read back from `"test-" + i` |
| Payloads.ParsePayloadRoundTrip | pulsar-broker/src/test/java/org/apache/pulsar/broker/service/ReplicatorTestBase.java:388 | a string that reads as a payload is exactly `"test-" + i` for the index it carries |
| Payloads.PayloadInjective | pulsar-broker/src/test/java/org/apache/pulsar/broker/service/ReplicatorTestBase.java:329 | `"test-" + i == "test-" + j` exactly when `i == j` |
| Payloads.PayloadRange | pulsar-broker/src/test/java/org/apache/pulsar/broker/service/ReplicatorTestBase.java:315 | the payloads of indices `from` to `to - 1` number `to - from`, and none when `to <= from` (the `for` loop does not run) |
| Payloads.PayloadRangeAt | pulsar-broker/src/test/java/org/apache/pulsar/broker/service/ReplicatorTestBase.java:315-316 | position `k` of the range holds `"test-" + (from + k)`: index order |
| Payloads.PayloadRangeSnoc | pulsar-broker/src/test/java/org/apache/pulsar/broker/service/ReplicatorTestBase.java:315-316 | one more loop iteration appends exactly the next payload |
| Payloads.RangeDistinct | pulsar-broker/src/test/java/org/apache/pulsar/broker/service/ReplicatorTestBase.java:305-306 | no payload is sent twice |
| Payloads.SeenMembers | pulsar-broker/src/test/java/org/apache/pulsar/broker/service/ReplicatorTestBase.java:386-389 | the seen-set at counter `i` holds exactly the payloads of the indices below `i` |
| Payloads.NextNotSeen | pulsar-broker/src/test/java/org/apache/pulsar/broker/service/ReplicatorTestBase.java:386-388 | the payload the counter expects next is not yet in the seen-set, so `add` returns true for it |
| Payloads.SeenSize | pulsar-broker/src/test/java/org/apache/pulsar/broker/service/ReplicatorTestBase.java:375-389 | `|receivedMessages| == i` whenever the set is `Seen(i)` |
| Consumer.Run | pulsar-broker/src/test/java/org/apache/pulsar/broker/service/ReplicatorTestBase.java:378-393 | the loop takes no more deliveries than there are, and an out-of-order failure names the last delivery it took |
| Consumer.DedupFromMembers | pulsar-broker/src/test/java/org/apache/pulsar/broker/service/ReplicatorTestBase.java:386 | every first occurrence was delivered and was not in the set before |
| Consumer.JudgeReceived | pulsar-broker/src/test/java/org/apache/pulsar/broker/service/ReplicatorTestBase.java:378-393 | the reference verdict succeeds exactly when the expected payloads are a prefix of the first occurrences |
| Consumer.JudgeNoDelivery | pulsar-broker/src/test/java/org/apache/pulsar/broker/service/ReplicatorTestBase.java:379-380 | the reference verdict reports a missing delivery exactly when the first occurrences are a proper prefix of the expected payloads |
| Consumer.RunIsJudge | pulsar-broker/src/test/java/org/apache/pulsar/broker/service/ReplicatorTestBase.java:378-393 | the loop's outcome equals the reference verdict on the first occurrences, from any counter value: the first new payload that differs from the one expected at its position fails with that payload and the expected `"test-" + i` |
| Consumer.RunReceivedPrefix | pulsar-broker/src/test/java/org/apache/pulsar/broker/service/ReplicatorTestBase.java:381-389 | on success, the new payloads among the acknowledged deliveries are exactly the ones that were expected, in order |
| Consumer.RunStopsAfterLast | pulsar-broker/src/test/java/org/apache/pulsar/broker/service/ReplicatorTestBase.java:386-393 | on success with payloads still expected, the loop has taken at least one delivery and the last one it took is the last expected payload, so it never goes on to take a duplicate after it |
| Consumer.RunNoDeliveryConsumesAll | pulsar-broker/src/test/java/org/apache/pulsar/broker/service/ReplicatorTestBase.java:379-380 | a missing delivery is reported only after every delivery there was has been taken |
| Consumer.ReceiveCharacterization | pulsar-broker/src/test/java/org/apache/pulsar/broker/service/ReplicatorTestBase.java:371-394 | `receive(n)` succeeds if and only if the first occurrences start with `"test-0" … "test-(n-1)"`, and fails on a missing delivery if and only if they are a proper prefix of it |
| Consumer.DedupIgnoresRedelivery | pulsar-broker/src/test/java/org/apache/pulsar/broker/service/ReplicatorTestBase.java:386-392 | inserting a payload already delivered or already seen leaves the first occurrences unchanged |
| Consumer.RedeliveryAbsorbed | pulsar-broker/src/test/java/org/apache/pulsar/broker/service/ReplicatorTestBase.java:386-392 | a duplicate of an earlier delivery, inserted anywhere, never changes how `receive` ends: a repeated payload moves neither the counter nor the seen-set |
| Consumer.DedupRange | pulsar-broker/src/test/java/org/apache/pulsar/broker/service/ReplicatorTestBase.java:386 | the remaining canonical payloads have no duplicates and none of them is already seen |
| Consumer.RunRangeThen | pulsar-broker/src/test/java/org/apache/pulsar/broker/service/ReplicatorTestBase.java:378-393 | the expected payloads in order are accepted one per delivery, and the loop stops right after the last of them, whatever follows |
| Consumer.MessageConsumer.constructor | pulsar-broker/src/test/java/org/apache/pulsar/broker/service/ReplicatorTestBase.java:356-369 | a new subscription has the whole stream ahead of it and nothing acknowledged |
| Consumer.MessageConsumer.Receive | pulsar-broker/src/test/java/org/apache/pulsar/broker/service/ReplicatorTestBase.java:371-394 | the outcome is the verdict of `Run`. The deliveries it took are gone from the subscription, and all of them, duplicates included, are appended to the acknowledged list. The loop keeps `receivedMessages == Seen(i)` |
| Consumer.MessageConsumer.Drained | pulsar-broker/src/test/java/org/apache/pulsar/broker/service/ReplicatorTestBase.java:396-398 | true exactly when nothing is waiting. Otherwise the waiting message is taken off the subscription and not acknowledged |
| Producer.SendsAt | pulsar-broker/src/test/java/org/apache/pulsar/broker/service/ReplicatorTestBase.java:315-316 | call `k` of a run of sends carries payload `k` |
| Producer.SendsSnoc | pulsar-broker/src/test/java/org/apache/pulsar/broker/service/ReplicatorTestBase.java:315-316 | one more send appends exactly one call |
| Producer.PublishedAppend | pulsar-broker/src/test/java/org/apache/pulsar/broker/service/ReplicatorTestBase.java:305-309 | what a log publishes, and how many flushes it holds, split over concatenation |
| Producer.PublishedSends | pulsar-broker/src/test/java/org/apache/pulsar/broker/service/ReplicatorTestBase.java:315-318 | a run of sends publishes exactly its payloads in order, in every mode, and flushes nothing |
| Producer.BatchLog | pulsar-broker/src/test/java/org/apache/pulsar/broker/service/ReplicatorTestBase.java:302-310 | `produceBatch(n)` queues `"test-k"` with `sendAsync` at position `k`, calls `flush` exactly once and last, and publishes the canonical sequence |
| Producer.MessageProducer.constructor | pulsar-broker/src/test/java/org/apache/pulsar/broker/service/ReplicatorTestBase.java:275-286 | a new producer has issued no calls |
| Producer.MessageProducer.Produce | pulsar-broker/src/test/java/org/apache/pulsar/broker/service/ReplicatorTestBase.java:312-320 | appends one blocking send per payload `"test-0" … "test-(n-1)"`, in index order, and nothing else |
| Producer.MessageProducer.ProduceBatch | pulsar-broker/src/test/java/org/apache/pulsar/broker/service/ReplicatorTestBase.java:302-310 | appends one asynchronous send per canonical payload, in index order, then a single flush |
| Producer.MessageProducer.ProduceWithBuilder | pulsar-broker/src/test/java/org/apache/pulsar/broker/service/ReplicatorTestBase.java:326-333 | appends one builder send per canonical payload, in index order |
| Producer.MessageProducer.SendLoop | pulsar-broker/src/test/java/org/apache/pulsar/broker/service/ReplicatorTestBase.java:315-318 | the shared `for` loop issues exactly the sends of `"test-0" … "test-(n-1)"`, and none for `n <= 0` |
| RoundTrip.ReceiveDuplicated | pulsar-broker/src/test/java/org/apache/pulsar/broker/service/ReplicatorTestBase.java:371-394 | a stream whose first occurrences are the canonical sequence passes `receive(n)`, and the new payloads it acknowledged are exactly the canonical ones |
| RoundTrip.DedupOfCanonical | pulsar-broker/src/test/java/org/apache/pulsar/broker/service/ReplicatorTestBase.java:386 | the canonical sequence is its own first-occurrence sequence |
| RoundTrip.Redeliver | pulsar-broker/src/test/java/org/apache/pulsar/broker/service/ReplicatorTestBase.java:386-392 | redelivering one message lengthens the stream by exactly one |
| RoundTrip.RedeliverCanonical | pulsar-broker/src/test/java/org/apache/pulsar/broker/service/ReplicatorTestBase.java:386-392 | redelivering any message of the canonical stream leaves its first occurrences unchanged |
| RoundTrip.ReceiveStopsAtCount | pulsar-broker/src/test/java/org/apache/pulsar/broker/service/ReplicatorTestBase.java:378-393 | `receive(n)` on the canonical stream followed by anything takes exactly `n` deliveries and succeeds |
| RoundTrip.ReceiveCanonical | pulsar-broker/src/test/java/org/apache/pulsar/broker/service/ReplicatorTestBase.java:371-394 | the canonical stream passes `receive(n)` and is consumed to its end |
| RoundTrip.ReceiveRedelivered | pulsar-broker/src/test/java/org/apache/pulsar/broker/service/ReplicatorTestBase.java:386-393 | with one message before the last redelivered, `receive(n)` succeeds and takes the duplicate too |
| RoundTrip.ProduceThenReceive | pulsar-broker/src/test/java/org/apache/pulsar/broker/service/ReplicatorTestBase.java:312-320 | what `produce(n)` publishes is the canonical sequence, and `receive(n)` accepts all of it |
| RoundTrip.ProduceBatchThenReceive | pulsar-broker/src/test/java/org/apache/pulsar/broker/service/ReplicatorTestBase.java:302-310 | what `produceBatch(n)` publishes is the canonical sequence, and `receive(n)` accepts all of it |
| RoundTrip.UnbatchedScenario | pulsar-broker/src/test/java/org/apache/pulsar/broker/service/ReplicatorTestBase.java:371-398 | after `produce(n)`, `receive(n)` succeeds and `drained()` is true |
| RoundTrip.BatchedScenario | pulsar-broker/src/test/java/org/apache/pulsar/broker/service/ReplicatorTestBase.java:371-398 | after `produceBatch(n)` and one redelivery before the last message, `receive(n)` succeeds and `drained()` is true |
| RoundTrip.TrailingDuplicateScenario | pulsar-broker/src/test/java/org/apache/pulsar/broker/service/ReplicatorTestBase.java:378-398 | when the last message is redelivered after itself, `receive(n)` succeeds but `drained()` is false |
| TimeUnits.Nanos | pulsar-broker/src/test/java/org/apache/pulsar/broker/service/ReplicatorTestBase.java:247 | every time unit lasts at least one nanosecond |
| TimeUnits.TruncDivBounds | pulsar-broker/src/test/java/org/apache/pulsar/broker/service/ReplicatorTestBase.java:247 | Java division rounds toward zero: the quotient lies between 0 and the dividend, and times the divisor is less than one divisor from it |
| TimeUnits.ClampCases | pulsar-broker/src/test/java/org/apache/pulsar/broker/service/ReplicatorTestBase.java:247 | comparing `d` with `bound / m` decides whether `d * m` is above, below or inside `[-bound, bound]` |
| TimeUnits.SaturateExact | pulsar-broker/src/test/java/org/apache/pulsar/broker/service/ReplicatorTestBase.java:247 | the saturating multiply always gives a `long`, and is exact whenever the product fits in one |
| TimeUnits.ToSeconds | pulsar-broker/src/test/java/org/apache/pulsar/broker/service/ReplicatorTestBase.java:247 | `TimeUnit.SECONDS.convert` always returns a `long` |
| TimeUnits.ToInt | pulsar-broker/src/test/java/org/apache/pulsar/broker/service/ReplicatorTestBase.java:247 | the `(int)` cast gives an `int` that is congruent to its argument modulo 2^32, and is the identity on the `int` range |
| TimeUnits.InSec | pulsar-broker/src/test/java/org/apache/pulsar/broker/service/ReplicatorTestBase.java:246-248 | `inSec` returns an `int`, and returns its argument unchanged for `SECONDS` (the unit every caller passes, line 128) |
| TimeUnits.InSecFiner | pulsar-broker/src/test/java/org/apache/pulsar/broker/service/ReplicatorTestBase.java:246-248 | for a unit finer than a second, `inSec` gives the whole number of seconds, rounded toward zero, without wrapping |
| TimeUnits.InSecCoarser | pulsar-broker/src/test/java/org/apache/pulsar/broker/service/ReplicatorTestBase.java:246-248 | for a unit coarser than a second, `inSec` gives the exact product when it fits in an `int`, and otherwise a value congruent to it modulo 2^32 |

## Left out

- `setup()` and `shutdown()` (lines 103-266): starting ZooKeeper, BookKeeper and the brokers, port allocation and admin calls. These are orchestration of external services, and nothing in them is computed locally.
- Client, producer and consumer construction beyond their initial state, and `close()`: wrappers over the client library and the network.
- The 10-second receive timeout and the `Thread.sleep(100)` settle delay: wall-clock time. An absent delivery is the stream running out.
- The `ThreadPoolExecutor` and the asynchronous completion of `sendAsync`. This is concurrency. A queued send is recorded in the call log in the order it was issued.
- Batching, routing mode and stats-interval settings: client-library behaviour. How the transport delivers what was published (order, redelivery) is an input to the consumer model.
- Logging.
- Payload bytes and `new String(msg.getData())`. The payloads are ASCII, so the model works on strings.
- The `int` counter `i`: it never overflows, since it is incremented only while `i < messages`. The model uses unbounded integers for it.
- Consumer.MessageConsumer.Receive: a failed assertion is returned as an outcome instead of thrown. The method stops at the same point.
- Consumer.MessageConsumer.Receive: the invariant states the seen-set as `Seen(i)`. Its size `i` follows from `Payloads.SeenSize` and is not repeated in the loop.
- RoundTrip.BatchedScenario: the redelivery is of a message before the last one. Redelivery of the last message is the separate `TrailingDuplicateScenario`.
- `newMessage()` (lines 322-324) only hands out the client's builder. The builder's use is modelled as the `Builder` send mode.
- Producer.MessageProducer.Produce, Producer.MessageProducer.ProduceBatch, Producer.MessageProducer.ProduceWithBuilder: an exception thrown by `send`, `sendAsync` or `flush` (lines 306, 309, 316, 330) would end the loop after fewer than `n` sends. Client failures are not modelled, so these methods always issue all `n` sends.
- Consumer.MessageConsumer.Receive, Consumer.MessageConsumer.Drained: an exception thrown by `receive` or `acknowledge` (lines 379, 381, 397) would end them early. Client failures are not modelled, so `Receive` ends only in `Received`, `NoDelivery` or `OutOfOrder`.
- Producer.MessageProducer.ProduceWithBuilder: the source accepts any `TypedMessageBuilder` (line 326). The model takes the builder to come from this producer's `newMessage()`, and records its sends in this producer's log.
