/** MessageProducer: publishes the canonical payloads to one topic. The
    client library is outside the model; what the producer does is the
    sequence of calls it issues on it, recorded in `log`. */
module Producer {
  import opened Payloads

  /** How a payload is handed to the client: `producer.send`,
      `producer.sendAsync`, or `messageBuilder.value(..).send()`. */
  datatype SendMode = Blocking | Async | Builder

  datatype Call = Send(mode: SendMode, payload: string) | Flush

  /** One send call per payload, in order. */
  function Sends(mode: SendMode, ps: seq<string>): (cs: seq<Call>)
    ensures |cs| == |ps|
    decreases |ps|
  {
    if ps == [] then [] else [Send(mode, ps[0])] + Sends(mode, ps[1..])
  }

  /** Call `k` sends payload `k`. */
  lemma {:induction false} SendsAt(mode: SendMode, ps: seq<string>, k: nat)
    requires k < |ps|
    ensures Sends(mode, ps)[k] == Send(mode, ps[k])
    decreases k
  {
    if k > 0 {
      SendsAt(mode, ps[1..], k - 1);
    }
  }

  /** Sending one more payload appends one call. */
  lemma {:induction false} SendsSnoc(mode: SendMode, ps: seq<string>, p: string)
    ensures Sends(mode, ps + [p]) == Sends(mode, ps) + [Send(mode, p)]
    decreases |ps|
  {
    if ps == [] {
      assert ps + [p] == [p];
    } else {
      assert (ps + [p])[0] == ps[0] && (ps + [p])[1..] == ps[1..] + [p];
      SendsSnoc(mode, ps[1..], p);
    }
  }

  /** The payloads a call log publishes, in the order the calls were issued.
      A flush publishes nothing new: it only forces queued sends out. */
  function Published(cs: seq<Call>): (ps: seq<string>)
    ensures |ps| <= |cs|
    decreases |cs|
  {
    if cs == [] then []
    else (if cs[0].Send? then [cs[0].payload] else []) + Published(cs[1..])
  }

  /** The number of flush calls in a log. */
  function FlushCount(cs: seq<Call>): (n: nat)
    ensures n <= |cs|
    decreases |cs|
  {
    if cs == [] then 0
    else (if cs[0] == Flush then 1 else 0) + FlushCount(cs[1..])
  }

  /** Both measures of a log split over concatenation. */
  lemma {:induction false} PublishedAppend(a: seq<Call>, b: seq<Call>)
    ensures Published(a + b) == Published(a) + Published(b)
    ensures FlushCount(a + b) == FlushCount(a) + FlushCount(b)
    decreases |a|
  {
    if a == [] {
      assert a + b == b;
    } else {
      assert (a + b)[0] == a[0] && (a + b)[1..] == a[1..] + b;
      PublishedAppend(a[1..], b);
    }
  }

  /** Whatever the mode, a run of sends publishes exactly its payloads and
      flushes nothing. */
  lemma {:induction false} PublishedSends(mode: SendMode, ps: seq<string>)
    ensures Published(Sends(mode, ps)) == ps
    ensures FlushCount(Sends(mode, ps)) == 0
    decreases |ps|
  {
    if ps != [] {
      var cs := Sends(mode, ps);
      assert cs[0] == Send(mode, ps[0]) && cs[1..] == Sends(mode, ps[1..]);
      PublishedSends(mode, ps[1..]);
    }
  }

  /** The calls `produceBatch(n)` issues: every payload is queued with
      `sendAsync` in index order, then `flush` is called once, last. */
  lemma BatchLog(n: int)
    ensures var cs := Sends(Async, Canonical(n)) + [Flush];
      && Published(cs) == Canonical(n)
      && FlushCount(cs) == 1
      && cs[|cs| - 1] == Flush
      && forall k :: 0 <= k < |cs| - 1 ==> cs[k] == Send(Async, Payload(k))
  {
    PublishedSends(Async, Canonical(n));
    PublishedAppend(Sends(Async, Canonical(n)), [Flush]);
    forall k | 0 <= k < |Canonical(n)|
      ensures Sends(Async, Canonical(n))[k] == Send(Async, Payload(k))
    {
      SendsAt(Async, Canonical(n), k);
      PayloadRangeAt(0, n, k);
    }
  }

  class MessageProducer {
    /** The calls issued on the client so far. */
    var log: seq<Call>

    constructor ()
      ensures log == []
    {
      log := [];
    }

    /** `produce(messages)`: a blocking send of each "test-i" in turn. */
    method Produce(messages: int)
      modifies this
      ensures log == old(log) + Sends(Blocking, Canonical(messages))
    {
      SendLoop(Blocking, messages);
    }

    /** `produceBatch(messages)`: queue every payload, then flush once. */
    method ProduceBatch(messages: int)
      modifies this
      ensures log == old(log) + Sends(Async, Canonical(messages)) + [Flush]
    {
      SendLoop(Async, messages);
      log := log + [Flush];
    }

    /** `produce(messages, messageBuilder)`: set the builder's value to
        "test-i" and send it, for each i in turn. */
    method ProduceWithBuilder(messages: int)
      modifies this
      ensures log == old(log) + Sends(Builder, Canonical(messages))
    {
      SendLoop(Builder, messages);
    }

    /** The `for (int i = 0; i < messages; i++)` loop the three produce
        operations share, issuing one send per index. */
    method SendLoop(mode: SendMode, messages: int)
      modifies this
      ensures log == old(log) + Sends(mode, Canonical(messages))
    {
      var i := 0;
      while i < messages
        invariant 0 <= i <= if messages <= 0 then 0 else messages
        invariant log == old(log) + Sends(mode, Canonical(i))
      {
        ghost var done := Canonical(i);
        PayloadRangeSnoc(0, i);
        SendsSnoc(mode, done, Payload(i));
        log := log + [Send(mode, Payload(i))];
        assert log == old(log) + (Sends(mode, done) + [Send(mode, Payload(i))]);
        i := i + 1;
      }
      assert messages <= 0 ==> Canonical(i) == [] == Canonical(messages);
    }
  }
}
