/** A producer and a consumer on the same topic: what `produce(n)` or
    `produceBatch(n)` publishes is what `receive(n)` accepts, with or without
    redelivered duplicates in between. */
module RoundTrip {
  import opened Payloads
  import opened Consumer
  import opened Producer

  /** Any stream whose first occurrences are "test-0" ... "test-(n-1)" (the
      canonical stream with duplicates of earlier payloads interleaved)
      passes `receive(n)`, and the distinct payloads acknowledged are
      exactly the canonical ones. */
  lemma ReceiveDuplicated(s: seq<string>, n: int)
    requires Dedup(s) == Canonical(n)
    ensures var v := ReceiveVerdict(s, n);
      && v.outcome == Received
      && Dedup(s[..v.consumed]) == Canonical(n)
  {
    ReceiveCharacterization(s, n);
    RunReceivedPrefix(s, 0, n);
    assert Seen(0) == {};
  }

  /** The canonical stream has no duplicates to drop. */
  lemma DedupOfCanonical(n: int)
    ensures Dedup(Canonical(n)) == Canonical(n)
  {
    DedupRange(0, n);
    assert Seen(0) == {};
  }

  /** The stream `s` with delivery `r` handed out a second time, right after
      its first delivery. */
  function Redeliver(s: seq<string>, r: nat): (t: seq<string>)
    requires r < |s|
    ensures |t| == |s| + 1
  {
    s[..r + 1] + [s[r]] + s[r + 1..]
  }

  /** A redelivery does not change the first occurrences of the canonical
      stream. */
  lemma RedeliverCanonical(n: int, r: nat)
    requires r < |Canonical(n)|
    ensures Dedup(Redeliver(Canonical(n), r)) == Canonical(n)
  {
    var c := Canonical(n);
    var a, b := c[..r + 1], c[r + 1..];
    assert c == a + b;
    assert c[r] == a[r];
    DedupIgnoresRedelivery(a, c[r], b, {});
    DedupOfCanonical(n);
  }

  /** `receive(n)` takes exactly the `n` canonical deliveries and stops:
      anything the transport hands out after them stays on the
      subscription. */
  lemma ReceiveStopsAtCount(n: int, t: seq<string>)
    ensures ReceiveVerdict(Canonical(n) + t, n) == Verdict(Received, |Canonical(n)|)
  {
    assert Seen(0) == {};
    RunRangeThen(0, n, t);
  }

  /** The canonical stream alone passes `receive(n)` and is consumed to the
      last delivery. */
  lemma ReceiveCanonical(n: int)
    ensures ReceiveVerdict(Canonical(n), n) == Verdict(Received, |Canonical(n)|)
  {
    ReceiveStopsAtCount(n, []);
    assert Canonical(n) + [] == Canonical(n);
  }

  /** A redelivery before the last message is taken and acknowledged by
      `receive(n)` along with everything else. */
  lemma ReceiveRedelivered(n: int, r: nat)
    requires r + 1 < |Canonical(n)|
    ensures ReceiveVerdict(Redeliver(Canonical(n), r), n) == Verdict(Received, |Canonical(n)| + 1)
  {
    var c := Canonical(n);
    var s := Redeliver(c, r);
    RedeliverCanonical(n, r);
    ReceiveDuplicated(s, n);
    var k := ReceiveVerdict(s, n).consumed;
    assert |Dedup(s[..k])| <= k;
    if k == |c| {
      var last := |c| - 1;
      assert Dedup(s[..k])[last] == c[last];
      DedupFromMembers(s[..k], {}, last);
      var j :| 0 <= j < k && s[..k][j] == c[last];
      if j <= r {
        assert s[j] == c[j];
      } else if j == r + 1 {
        assert s[j] == c[r];
      } else {
        assert s[j] == c[j - 1];
      }
      RangeDistinct(0, n);
      assert false;
    }
  }

  /** `produce(n)` then `receive(n)` on what it published. */
  lemma ProduceThenReceive(n: int)
    ensures Published(Sends(Blocking, Canonical(n))) == Canonical(n)
    ensures ReceiveVerdict(Published(Sends(Blocking, Canonical(n))), n)
         == Verdict(Received, |Canonical(n)|)
  {
    PublishedSends(Blocking, Canonical(n));
    ReceiveCanonical(n);
  }

  /** `produceBatch(n)` then `receive(n)`: the flush adds nothing and
      reorders nothing. */
  lemma ProduceBatchThenReceive(n: int)
    ensures Published(Sends(Async, Canonical(n)) + [Flush]) == Canonical(n)
    ensures ReceiveVerdict(Published(Sends(Async, Canonical(n)) + [Flush]), n)
         == Verdict(Received, |Canonical(n)|)
  {
    BatchLog(n);
    ReceiveCanonical(n);
  }

  /** An unbatched producer sends `n` messages; a consumer on the same topic
      receives them all in order, and nothing is left afterwards. */
  method UnbatchedScenario(n: int) returns (outcome: Outcome, drained: bool)
    ensures outcome == Received && drained
  {
    var producer := new MessageProducer();
    producer.Produce(n);
    assert producer.log == Sends(Blocking, Canonical(n));
    ProduceThenReceive(n);
    var stream := Published(producer.log);
    assert stream == Canonical(n);
    var consumer := new MessageConsumer(stream);
    outcome := consumer.Receive(n);
    assert |stream| == |Canonical(n)|;
    assert consumer.deliveries == stream[|stream|..] == [];
    drained := consumer.Drained();
  }

  /** A batching producer queues `n` messages and flushes once; the consumer
      still receives all of them in index order when the transport hands
      message `redelivered` out a second time, and, that duplicate coming
      before the last message, nothing is left afterwards. */
  method BatchedScenario(n: int, redelivered: nat) returns (outcome: Outcome, drained: bool)
    requires redelivered + 1 < n
    ensures outcome == Received && drained
  {
    var producer := new MessageProducer();
    producer.ProduceBatch(n);
    assert producer.log == Sends(Async, Canonical(n)) + [Flush];
    ProduceBatchThenReceive(n);
    var published := Published(producer.log);
    assert published == Canonical(n);
    var stream := Redeliver(published, redelivered);
    ReceiveRedelivered(n, redelivered);
    var consumer := new MessageConsumer(stream);
    outcome := consumer.Receive(n);
    assert consumer.deliveries == stream[|stream|..] == [];
    drained := consumer.Drained();
  }

  /** A redelivery of the last message, arriving after it, is not taken by
      `receive(n)`: the loop has already stopped, so the subscription is not
      drained afterwards. */
  method TrailingDuplicateScenario(n: int) returns (outcome: Outcome, drained: bool)
    requires n >= 1
    ensures outcome == Received && !drained
  {
    var producer := new MessageProducer();
    producer.Produce(n);
    assert producer.log == Sends(Blocking, Canonical(n));
    ProduceThenReceive(n);
    var published := Published(producer.log);
    assert published == Canonical(n);
    var stream := Redeliver(published, n - 1);
    assert stream == Canonical(n) + [Payload(n - 1)] by {
      PayloadRangeAt(0, n, n - 1);
      assert published[..n] == published && published[n..] == [];
    }
    ReceiveStopsAtCount(n, [Payload(n - 1)]);
    var consumer := new MessageConsumer(stream);
    outcome := consumer.Receive(n);
    assert consumer.deliveries == [Payload(n - 1)];
    drained := consumer.Drained();
  }
}
