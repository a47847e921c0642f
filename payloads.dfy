/** The payloads a MessageProducer publishes and a MessageConsumer expects:
    the string "test-" followed by the decimal rendering of a message index,
    as Java renders `"test-" + i` for an `int i >= 0`. */
module Payloads {

  datatype Option<T> = None | Some(value: T)

  /** The character of the decimal digit `d`. */
  function Digit(d: nat): (c: char)
    requires d < 10
    ensures '0' <= c <= '9'
    ensures c as int - '0' as int == d
  {
    ('0' as int + d) as char
  }

  predicate IsDigit(c: char) {
    '0' <= c <= '9'
  }

  predicate AllDigits(s: string) {
    forall k :: 0 <= k < |s| ==> IsDigit(s[k])
  }

  /** Java's `Integer.toString(n)` for a non-negative `n`: most significant
      digit first, no sign, no leading zero. */
  function Decimal(n: nat): string
    decreases n
  {
    if n < 10 then [Digit(n)] else Decimal(n / 10) + [Digit(n % 10)]
  }

  /** `Decimal` renders digits only, and more than one exactly from 10 on. */
  lemma {:induction false} DecimalShape(n: nat)
    ensures |Decimal(n)| >= 1 && AllDigits(Decimal(n))
    ensures n >= 10 <==> |Decimal(n)| > 1
    decreases n
  {
    if n >= 10 {
      DecimalShape(n / 10);
    }
  }

  /** The value of a string of decimal digits, read most significant first. */
  function DigitsValue(s: string): nat
    requires AllDigits(s)
    decreases |s|
  {
    if s == [] then 0
    else 10 * DigitsValue(s[..|s| - 1]) + (s[|s| - 1] as int - '0' as int)
  }

  /** Reads back what `Decimal` renders: a non-empty digit string whose first
      digit is not '0' unless it is the only one. Anything else is refused. */
  function ParseDecimal(s: string): (r: Option<nat>)
    ensures r.Some? ==> |s| >= 1 && AllDigits(s)
  {
    if s == [] || !AllDigits(s) || (|s| > 1 && s[0] == '0') then None
    else Some(DigitsValue(s))
  }

  lemma {:induction false} DecimalLeadingDigit(n: nat)
    requires n >= 1
    ensures Decimal(n)[0] != '0'
    decreases n
  {
    if n >= 10 {
      DecimalShape(n / 10);
      DecimalLeadingDigit(n / 10);
    }
  }

  lemma {:induction false} DigitsValueOfDecimal(n: nat)
    requires AllDigits(Decimal(n))
    ensures DigitsValue(Decimal(n)) == n
    decreases n
  {
    var s := Decimal(n);
    if n >= 10 {
      DecimalShape(n / 10);
      assert s[..|s| - 1] == Decimal(n / 10);
      DigitsValueOfDecimal(n / 10);
    }
  }

  /** Rendering then parsing gives the index back. */
  lemma DecimalRoundTrip(n: nat)
    ensures ParseDecimal(Decimal(n)) == Some(n)
  {
    DecimalShape(n);
    DigitsValueOfDecimal(n);
    if |Decimal(n)| > 1 {
      DecimalLeadingDigit(n);
    }
  }

  lemma {:induction false} DigitsValuePositive(s: string)
    requires AllDigits(s) && |s| >= 1 && s[0] != '0'
    ensures DigitsValue(s) >= 1
    decreases |s|
  {
    if |s| > 1 {
      DigitsValuePositive(s[..|s| - 1]);
    }
  }

  /** Parsing then rendering gives the string back: `Decimal` is the only
      spelling `ParseDecimal` accepts. */
  lemma {:induction false} ParseDecimalRoundTrip(s: string)
    requires ParseDecimal(s).Some?
    ensures Decimal(ParseDecimal(s).value) == s
    decreases |s|
  {
    var v := ParseDecimal(s).value;
    var p, c := s[..|s| - 1], s[|s| - 1];
    var d := c as int - '0' as int;
    if p == [] {
      assert s == [c];
      assert DigitsValue(s[..0]) == 0;
      assert v == d && d < 10;
      assert Digit(d) == c;
    } else {
      assert p[0] == s[0];
      assert ParseDecimal(p) == Some(DigitsValue(p));
      ParseDecimalRoundTrip(p);
      DigitsValuePositive(p);
      DecimalShape(v);
      assert v / 10 == DigitsValue(p) && v % 10 == d;
      assert Digit(d) == c;
      assert s == p + [c];
    }
  }

  const Prefix: string := "test-"

  /** The payload of message `i`: `"test-" + i`. */
  function Payload(i: nat): string {
    Prefix + Decimal(i)
  }

  /** The index a payload carries, if it has the form `Payload` produces. */
  function ParsePayload(p: string): Option<nat> {
    if |p| >= |Prefix| && p[..|Prefix|] == Prefix then ParseDecimal(p[|Prefix|..]) else None
  }

  lemma PayloadRoundTrip(i: nat)
    ensures ParsePayload(Payload(i)) == Some(i)
  {
    assert Payload(i)[..|Prefix|] == Prefix && Payload(i)[|Prefix|..] == Decimal(i);
    DecimalRoundTrip(i);
  }

  /** A string `ParsePayload` accepts is exactly the payload of the index it
      reads: "test-" followed by that index's canonical decimal spelling. */
  lemma ParsePayloadRoundTrip(p: string)
    requires ParsePayload(p).Some?
    ensures Payload(ParsePayload(p).value) == p
  {
    ParseDecimalRoundTrip(p[|Prefix|..]);
    assert p == p[..|Prefix|] + p[|Prefix|..];
  }

  /** Distinct indices give distinct payloads. */
  lemma PayloadInjective(i: nat, j: nat)
    ensures Payload(i) == Payload(j) <==> i == j
  {
    PayloadRoundTrip(i);
    PayloadRoundTrip(j);
  }

  /** The payloads of messages `from .. to-1`, in index order; empty when
      `to <= from`. */
  function PayloadRange(from: nat, to: int): (ps: seq<string>)
    ensures |ps| == (if to <= from then 0 else to - from)
    decreases if to <= from then 0 else to - from
  {
    if to <= from then [] else [Payload(from)] + PayloadRange(from + 1, to)
  }

  /** Position `k` of a range holds the payload of index `from + k`. */
  lemma {:induction false} PayloadRangeAt(from: nat, to: int, k: nat)
    requires k < |PayloadRange(from, to)|
    ensures PayloadRange(from, to)[k] == Payload(from + k)
    decreases k
  {
    if k > 0 {
      PayloadRangeAt(from + 1, to, k - 1);
    }
  }

  /** Extending a range by one index appends that index's payload. */
  lemma {:induction false} PayloadRangeSnoc(from: nat, to: nat)
    requires from <= to
    ensures PayloadRange(from, to + 1) == PayloadRange(from, to) + [Payload(to)]
    decreases if from <= to then to - from else 0
  {
    if from < to {
      PayloadRangeSnoc(from + 1, to);
    }
  }

  /** The payloads `produce(n)` sends, in order: "test-0" ... "test-(n-1)";
      nothing for `n <= 0`, where the source's loop does not run. */
  function Canonical(n: int): seq<string> {
    PayloadRange(0, n)
  }

  /** No payload occurs twice in a range. */
  lemma RangeDistinct(from: nat, to: int)
    ensures forall j, k :: 0 <= j < k < |PayloadRange(from, to)| ==>
      PayloadRange(from, to)[j] != PayloadRange(from, to)[k]
  {
    forall j, k | 0 <= j < k < |PayloadRange(from, to)|
      ensures PayloadRange(from, to)[j] != PayloadRange(from, to)[k]
    {
      PayloadRangeAt(from, to, j);
      PayloadRangeAt(from, to, k);
      PayloadInjective(from + j, from + k);
    }
  }

  /** The payloads of messages `0 .. next-1`: what the consumer has accepted
      once its counter reaches `next`. */
  function Seen(next: nat): set<string>
    decreases next
  {
    if next == 0 then {} else Seen(next - 1) + {Payload(next - 1)}
  }

  /** A payload is in `Seen(next)` exactly when it is the payload of an
      index below `next`. */
  lemma {:induction false} SeenMembers(next: nat, x: string)
    ensures x in Seen(next) <==> exists k :: 0 <= k < next && Payload(k) == x
    decreases next
  {
    if next > 0 {
      SeenMembers(next - 1, x);
    }
  }

  /** The next payload has not been seen yet. */
  lemma NextNotSeen(next: nat)
    ensures Payload(next) !in Seen(next)
  {
    SeenMembers(next, Payload(next));
    if Payload(next) in Seen(next) {
      var k :| 0 <= k < next && Payload(k) == Payload(next);
      PayloadInjective(k, next);
    }
  }

  /** The seen-set holds exactly as many payloads as the counter says. */
  lemma {:induction false} SeenSize(next: nat)
    ensures |Seen(next)| == next
    decreases next
  {
    if next > 0 {
      SeenSize(next - 1);
      NextNotSeen(next - 1);
    }
  }
}
