/** MessageConsumer: checks delivery over an at-least-once transport. The
    transport is the sequence of deliveries still to come; running out stands
    for `consumer.receive(10, SECONDS)` returning null after its timeout. */
module Consumer {
  import opened Payloads

  /** How one `receive(messages)` call ends. The source signals the two
      failures with TestNG assertions. */
  datatype Outcome =
    | Received
      /** `assertNotNull(msg)` failed: no delivery before the timeout. */
    | NoDelivery
      /** `assertEquals(msgData, "test-" + i)` failed on a first occurrence. */
    | OutOfOrder(actual: string, expected: string)

  /** The outcome and the number of deliveries taken (and acknowledged). */
  datatype Verdict = Verdict(outcome: Outcome, consumed: nat)

  /** A verdict reached after `taken` earlier deliveries were consumed. */
  function Shift(v: Verdict, taken: nat): Verdict {
    Verdict(v.outcome, v.consumed + taken)
  }

  /** One `receive(messages)` loop from the state where the counter `i` is
      `next`, and so the seen-set holds the payloads of the indices below it:
      stop once `next` reaches `messages`; otherwise take a delivery, skip it
      if seen, and else require it to be `Payload(next)` and advance. */
  function Run(s: seq<string>, next: nat, messages: int): (v: Verdict)
    ensures v.consumed <= |s|
    ensures v.outcome.OutOfOrder? ==> v.consumed >= 1 && v.outcome.actual == s[v.consumed - 1]
    decreases |s|
  {
    if next >= messages then Verdict(Received, 0)
    else if s == [] then Verdict(NoDelivery, 0)
    else if s[0] in Seen(next) then Shift(Run(s[1..], next, messages), 1)
    else if s[0] != Payload(next) then Verdict(OutOfOrder(s[0], Payload(next)), 1)
    else Shift(Run(s[1..], next + 1, messages), 1)
  }

  /** A delivery already seen is consumed without advancing the counter. */
  lemma RunSkip(s: seq<string>, next: nat, messages: int)
    requires next < messages && s != [] && s[0] in Seen(next)
    ensures Run(s, next, messages) == Shift(Run(s[1..], next, messages), 1)
  {
  }

  /** The expected payload is consumed, joins the seen-set and advances the
      counter. */
  lemma RunAccept(s: seq<string>, next: nat, messages: int)
    requires next < messages && s != [] && s[0] !in Seen(next) && s[0] == Payload(next)
    ensures Run(s, next, messages) == Shift(Run(s[1..], next + 1, messages), 1)
    ensures Seen(next) + {s[0]} == Seen(next + 1)
  {
  }

  /** Any other new payload ends the loop with a failure. */
  lemma RunReject(s: seq<string>, next: nat, messages: int)
    requires next < messages && s != [] && s[0] !in Seen(next) && s[0] != Payload(next)
    ensures Run(s, next, messages) == Verdict(OutOfOrder(s[0], Payload(next)), 1)
  {
  }

  /** The verdict of a whole `receive(messages)` call, which starts with an
      empty seen-set and the counter at 0. */
  function ReceiveVerdict(s: seq<string>, messages: int): Verdict {
    Run(s, 0, messages)
  }

  /** The first occurrence of each delivery not already in `seen`, in
      delivery order. */
  function DedupFrom(s: seq<string>, seen: set<string>): (d: seq<string>)
    ensures |d| <= |s|
    decreases |s|
  {
    if s == [] then []
    else if s[0] in seen then DedupFrom(s[1..], seen)
    else [s[0]] + DedupFrom(s[1..], seen + {s[0]})
  }

  /** The distinct payloads of a stream in order of first delivery. */
  function Dedup(s: seq<string>): seq<string> {
    DedupFrom(s, {})
  }

  /** Every first occurrence was delivered and was not seen before. */
  lemma {:induction false} DedupFromMembers(s: seq<string>, seen: set<string>, k: nat)
    requires k < |DedupFrom(s, seen)|
    ensures DedupFrom(s, seen)[k] in s && DedupFrom(s, seen)[k] !in seen
    decreases |s|
  {
    if s[0] in seen {
      DedupFromMembers(s[1..], seen, k);
    } else if k > 0 {
      DedupFromMembers(s[1..], seen + {s[0]}, k - 1);
    }
  }

  /** Reference verdict: compare what was seen first with what was expected,
      position by position. */
  function Judge(d: seq<string>, e: seq<string>): Outcome
    decreases |e|
  {
    if e == [] then Received
    else if d == [] then NoDelivery
    else if d[0] != e[0] then OutOfOrder(d[0], e[0])
    else Judge(d[1..], e[1..])
  }

  /** `Judge` accepts exactly when the expected sequence is a prefix of the
      first-seen sequence. */
  lemma {:induction false} JudgeReceived(d: seq<string>, e: seq<string>)
    ensures Judge(d, e) == Received <==> e <= d
    decreases |e|
  {
    if e != [] && d != [] && d[0] == e[0] {
      JudgeReceived(d[1..], e[1..]);
      assert e <= d <==> e[1..] <= d[1..];
    }
  }

  /** `Judge` reports a missing delivery exactly when the first-seen sequence
      is a proper prefix of the expected one. */
  lemma {:induction false} JudgeNoDelivery(d: seq<string>, e: seq<string>)
    ensures Judge(d, e) == NoDelivery <==> d < e
    decreases |e|
  {
    if e != [] && d != [] && d[0] == e[0] {
      JudgeNoDelivery(d[1..], e[1..]);
      assert d < e <==> d[1..] < e[1..];
    }
  }

  /** The receive loop is "deduplicate, then compare with the expected
      order": its outcome depends only on the first occurrences. */
  lemma {:induction false} RunIsJudge(s: seq<string>, next: nat, messages: int)
    ensures Run(s, next, messages).outcome
         == Judge(DedupFrom(s, Seen(next)), PayloadRange(next, messages))
    decreases |s|
  {
    if next < messages && s != [] {
      if s[0] in Seen(next) {
        RunIsJudge(s[1..], next, messages);
      } else if s[0] == Payload(next) {
        RunIsJudge(s[1..], next + 1, messages);
      }
    }
  }

  /** On success, the first occurrences in the acknowledged prefix are
      exactly the payloads that were still expected. */
  lemma {:induction false} RunReceivedPrefix(s: seq<string>, next: nat, messages: int)
    requires Run(s, next, messages).outcome == Received
    ensures DedupFrom(s[..Run(s, next, messages).consumed], Seen(next))
         == PayloadRange(next, messages)
    decreases |s|
  {
    var v := Run(s, next, messages);
    if next >= messages {
      assert s[..0] == [];
    } else {
      var p := s[..v.consumed];
      if s[0] in Seen(next) {
        var w := Run(s[1..], next, messages);
        RunReceivedPrefix(s[1..], next, messages);
        assert p[0] == s[0] && p[1..] == s[1..][..w.consumed];
      } else {
        var w := Run(s[1..], next + 1, messages);
        RunReceivedPrefix(s[1..], next + 1, messages);
        assert p[0] == s[0] && p[1..] == s[1..][..w.consumed];
      }
    }
  }

  /** On success with payloads still expected, the last delivery taken is
      the last expected payload: the loop stops right after accepting it,
      so no later duplicate is taken. */
  lemma {:induction false} RunStopsAfterLast(s: seq<string>, next: nat, messages: int)
    requires Run(s, next, messages).outcome == Received
    ensures next < messages ==>
      Run(s, next, messages).consumed >= 1 &&
      s[Run(s, next, messages).consumed - 1] == Payload(messages - 1)
    decreases |s|
  {
    if next < messages {
      if s[0] in Seen(next) {
        RunStopsAfterLast(s[1..], next, messages);
      } else {
        RunStopsAfterLast(s[1..], next + 1, messages);
      }
    }
  }

  /** A missing delivery means every delivery there was got consumed. */
  lemma {:induction false} RunNoDeliveryConsumesAll(s: seq<string>, next: nat, messages: int)
    requires Run(s, next, messages).outcome == NoDelivery
    ensures Run(s, next, messages).consumed == |s|
    decreases |s|
  {
    if s != [] {
      if s[0] in Seen(next) {
        RunNoDeliveryConsumesAll(s[1..], next, messages);
      } else {
        RunNoDeliveryConsumesAll(s[1..], next + 1, messages);
      }
    }
  }

  /** `receive(messages)` succeeds exactly when the stream's first
      occurrences begin with "test-0" ... "test-(messages-1)", fails on a
      missing delivery exactly when they are a proper prefix of that, and
      otherwise fails on the first out-of-order payload. */
  lemma ReceiveCharacterization(s: seq<string>, messages: int)
    ensures ReceiveVerdict(s, messages).outcome == Received <==> Canonical(messages) <= Dedup(s)
    ensures ReceiveVerdict(s, messages).outcome == NoDelivery <==> Dedup(s) < Canonical(messages)
  {
    RunIsJudge(s, 0, messages);
    assert Seen(0) == {};
    JudgeReceived(Dedup(s), Canonical(messages));
    JudgeNoDelivery(Dedup(s), Canonical(messages));
  }

  /** A redelivery of something already delivered (or already in `seen`)
      leaves the first occurrences unchanged. */
  lemma {:induction false} DedupIgnoresRedelivery(a: seq<string>, x: string, b: seq<string>, seen: set<string>)
    requires x in a || x in seen
    ensures DedupFrom(a + [x] + b, seen) == DedupFrom(a + b, seen)
    decreases |a|
  {
    if a == [] {
      assert a + [x] + b == [x] + b;
      assert a + b == b;
      assert ([x] + b)[1..] == b;
    } else {
      assert (a + [x] + b)[0] == a[0] && (a + [x] + b)[1..] == a[1..] + [x] + b;
      assert (a + b)[0] == a[0] && (a + b)[1..] == a[1..] + b;
      if a[0] in seen {
        DedupIgnoresRedelivery(a[1..], x, b, seen);
      } else {
        DedupIgnoresRedelivery(a[1..], x, b, seen + {a[0]});
      }
    }
  }

  /** Injecting a duplicate of an earlier delivery anywhere in the stream
      never changes how `receive(messages)` ends. */
  lemma RedeliveryAbsorbed(a: seq<string>, x: string, b: seq<string>, messages: int)
    requires x in a
    ensures ReceiveVerdict(a + [x] + b, messages).outcome == ReceiveVerdict(a + b, messages).outcome
  {
    RunIsJudge(a + [x] + b, 0, messages);
    RunIsJudge(a + b, 0, messages);
    assert Seen(0) == {};
    DedupIgnoresRedelivery(a, x, b, {});
  }

  /** A stream without duplicates is its own first-occurrence sequence. */
  lemma {:induction false} DedupRange(next: nat, messages: int)
    ensures DedupFrom(PayloadRange(next, messages), Seen(next)) == PayloadRange(next, messages)
    decreases messages - next
  {
    if next < messages {
      NextNotSeen(next);
      DedupRange(next + 1, messages);
    }
  }

  /** Once the counter is at `next` and the seen-set holds the payloads
      below it, the remaining expected payloads in order are accepted one
      per delivery, and the loop stops right after the last of them:
      whatever follows is not taken. */
  lemma {:induction false} RunRangeThen(next: nat, messages: int, t: seq<string>)
    ensures Run(PayloadRange(next, messages) + t, next, messages)
         == Verdict(Received, |PayloadRange(next, messages)|)
    decreases if next < messages then messages - next else 0
  {
    if next < messages {
      var s := PayloadRange(next, messages) + t;
      assert s[0] == Payload(next) && s[1..] == PayloadRange(next + 1, messages) + t;
      NextNotSeen(next);
      RunRangeThen(next + 1, messages, t);
    }
  }

  /** Moving the head of `d` to the end of `c` keeps the concatenation. */
  lemma MoveHead(c: seq<string>, d: seq<string>)
    requires d != []
    ensures c + d == (c + [d[0]]) + d[1..]
  {
  }

  /** Appending one element commutes with concatenation. */
  lemma SnocAssoc(a: seq<string>, b: seq<string>, x: string)
    ensures (a + b) + [x] == a + (b + [x])
  {
  }

  /** A concatenation splits back into its parts. */
  lemma SplitAt(c: seq<string>, d: seq<string>)
    ensures (c + d)[..|c|] == c && (c + d)[|c|..] == d
  {
  }

  class MessageConsumer {
    /** Deliveries the subscription will still hand out, in order. */
    var deliveries: seq<string>
    /** Every delivery acknowledged so far, duplicates included. */
    var acked: seq<string>

    constructor (stream: seq<string>)
      ensures deliveries == stream && acked == []
    {
      deliveries := stream;
      acked := [];
    }

    /** `receive(messages)`: the seen-set and counter are fresh on every call. */
    method Receive(messages: int) returns (outcome: Outcome)
      modifies this
      ensures var v := ReceiveVerdict(old(deliveries), messages);
        && outcome == v.outcome
        && deliveries == old(deliveries)[v.consumed..]
        && acked == old(acked) + old(deliveries)[..v.consumed]
    {
      var received: set<string> := {};
      var i: nat := 0;
      ghost var stream, acked0 := deliveries, acked;
      ghost var consumed: seq<string> := [];
      assert Seen(0) == {};
      assert stream == consumed + deliveries;
      while i < messages
        invariant stream == consumed + deliveries
        invariant acked == acked0 + consumed
        invariant received == Seen(i)
        invariant i <= if messages <= 0 then 0 else messages
        invariant ReceiveVerdict(stream, messages) == Shift(Run(deliveries, i, messages), |consumed|)
        decreases |deliveries|
      {
        if deliveries == [] {
          SplitAt(consumed, deliveries);
          return NoDelivery;
        }
        ghost var rest := deliveries;
        MoveHead(consumed, deliveries);
        SnocAssoc(acked0, consumed, deliveries[0]);
        var msg := deliveries[0];
        deliveries := deliveries[1..];
        acked := acked + [msg];
        consumed := consumed + [msg];
        if msg !in received {
          received := received + {msg};
          if msg != Payload(i) {
            RunReject(rest, i, messages);
            SplitAt(consumed, deliveries);
            return OutOfOrder(msg, Payload(i));
          }
          RunAccept(rest, i, messages);
          i := i + 1;
        } else {
          RunSkip(rest, i, messages);
        }
      }
      SplitAt(consumed, deliveries);
      outcome := Received;
    }

    /** The subscription has nothing left to hand out. */
    predicate IsDrained()
      reads this
    {
      deliveries == []
    }

    /** `drained()`: a zero-wait receive. A message that is there is taken
        from the subscription (and not acknowledged). */
    method Drained() returns (r: bool)
      modifies this
      ensures r == old(IsDrained())
      ensures deliveries == if r then old(deliveries) else old(deliveries)[1..]
      ensures acked == old(acked)
    {
      r := deliveries == [];
      if !r {
        deliveries := deliveries[1..];
      }
    }
  }
}
