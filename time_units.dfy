/** The `inSec(time, unit)` helper: `(int) TimeUnit.SECONDS.convert(time, unit)`
    on Java's 64-bit `long` and 32-bit `int`. */
module TimeUnits {

  datatype TimeUnit = Nanoseconds | Microseconds | Milliseconds | Seconds | Minutes | Hours | Days

  const IntMin: int := -0x8000_0000
  const IntMax: int := 0x7FFF_FFFF
  const LongMin: int := -0x8000_0000_0000_0000
  const LongMax: int := 0x7FFF_FFFF_FFFF_FFFF

  predicate IsInt(x: int) {
    IntMin <= x <= IntMax
  }

  predicate IsLong(x: int) {
    LongMin <= x <= LongMax
  }

  /** Length of one unit in nanoseconds. */
  function Nanos(u: TimeUnit): (r: nat)
    ensures r >= 1
  {
    match u
    case Nanoseconds => 1
    case Microseconds => 1_000
    case Milliseconds => 1_000_000
    case Seconds => 1_000_000_000
    case Minutes => 60_000_000_000
    case Hours => 3_600_000_000_000
    case Days => 86_400_000_000_000
  }

  /** Java's `/` on integers: the quotient rounded toward zero. */
  function TruncDiv(a: int, b: int): int
    requires b > 0
  {
    if a >= 0 then a / b else -((-a) / b)
  }

  /** Multiplying by a non-negative factor keeps the order. */
  lemma MulMonotone(x: int, y: int, m: int)
    requires x <= y && m >= 0
    ensures x * m <= y * m
  {
    assert y * m - x * m == (y - x) * m;
  }

  /** Division of a natural number: the quotient times the divisor is at
      most the dividend and less than one divisor below it. */
  lemma DivBounds(n: nat, b: int)
    requires b > 0
    ensures 0 <= n / b <= n
    ensures 0 <= (n / b) * b <= n < (n / b) * b + b
  {
    var q, r := n / b, n % b;
    assert n == q * b + r && 0 <= r < b;
    MulMonotone(0, q, b);
    MulMonotone(1, b, q);
  }

  /** Rounding toward zero: the quotient times the divisor lies between 0
      and the dividend, less than one divisor away from it. */
  lemma TruncDivBounds(a: int, b: int)
    requires b > 0
    ensures var q := TruncDiv(a, b);
      && (a >= 0 ==> 0 <= q <= a && 0 <= q * b <= a < q * b + b)
      && (a < 0 ==> a <= q <= 0 && q * b - b < a <= q * b <= 0)
  {
    if a >= 0 {
      DivBounds(a, b);
    } else {
      var q := (-a) / b;
      DivBounds(-a, b);
      assert TruncDiv(a, b) * b == -(q * b);
    }
  }

  /** `d * m` on a long, clamped to the long range as `TimeUnit` does. */
  function Saturate(d: int, m: int): int
    requires m >= 1
  {
    var over := LongMax / m;
    if d > over then LongMax else if d < -over then LongMin else d * m
  }

  /** Where `d * m` lies relative to a bound `bound`, by comparing `d` with
      `bound / m`. */
  lemma ClampCases(d: int, m: int, bound: int)
    requires m >= 1 && bound >= 0
    ensures d > bound / m ==> d * m > bound
    ensures d < -(bound / m) ==> d * m <= -bound - 1
    ensures -(bound / m) <= d <= bound / m ==> -bound <= d * m <= bound
  {
    var over, rem := bound / m, bound % m;
    assert bound == over * m + rem && 0 <= rem < m;
    if d > over {
      MulMonotone(over + 1, d, m);
      assert (over + 1) * m == over * m + m;
    } else if d < -over {
      MulMonotone(d, -over - 1, m);
      assert (-over - 1) * m == -(over * m) - m;
    } else {
      MulMonotone(d, over, m);
      MulMonotone(-over, d, m);
      assert (-over) * m == -(over * m);
    }
  }

  /** The clamp never cuts a product that fits in a long. */
  lemma SaturateExact(d: int, m: int)
    requires m >= 1
    ensures IsLong(Saturate(d, m))
    ensures IsLong(d * m) ==> Saturate(d, m) == d * m
  {
    ClampCases(d, m, LongMax);
  }

  /** `TimeUnit.SECONDS.convert(d, u)`: a finer unit divides toward zero,
      a coarser one multiplies and saturates. */
  function ToSeconds(d: int, u: TimeUnit): (r: int)
    requires IsLong(d)
    ensures IsLong(r)
  {
    if Nanos(u) <= Nanos(Seconds) then
      var k := Nanos(Seconds) / Nanos(u);
      TruncDivBounds(d, k);
      TruncDiv(d, k)
    else
      var m := Nanos(u) / Nanos(Seconds);
      SaturateExact(d, m);
      Saturate(d, m)
  }

  /** The `(int)` cast of a long: keep the low 32 bits, two's complement. */
  function ToInt(x: int): (r: int)
    ensures IsInt(r)
    ensures (r - x) % 0x1_0000_0000 == 0
    ensures IsInt(x) ==> r == x
  {
    (x - IntMin) % 0x1_0000_0000 + IntMin
  }

  /** `inSec(time, unit)`. */
  function InSec(time: int, unit: TimeUnit): (r: int)
    requires IsInt(time)
    ensures IsInt(r)
    ensures unit == Seconds ==> r == time
  {
    ToInt(ToSeconds(time, unit))
  }

  /** A unit finer than a second: the number of whole seconds, rounded
      toward zero, never wraps. */
  lemma InSecFiner(time: int, unit: TimeUnit)
    requires IsInt(time) && Nanos(unit) <= Nanos(Seconds)
    ensures var k := Nanos(Seconds) / Nanos(unit);
      var r := InSec(time, unit);
      && (time >= 0 ==> 0 <= r * k <= time < r * k + k)
      && (time < 0 ==> r * k - k < time <= r * k <= 0)
  {
    var k := Nanos(Seconds) / Nanos(unit);
    var q := TruncDiv(time, k);
    TruncDivBounds(time, k);
    assert ToSeconds(time, unit) == q;
    assert IsInt(q);
  }

  /** A unit coarser than a second: the exact product, as long as it fits
      in an int; otherwise its low 32 bits. */
  lemma InSecCoarser(time: int, unit: TimeUnit)
    requires IsInt(time) && Nanos(unit) > Nanos(Seconds)
    ensures var k := Nanos(unit) / Nanos(Seconds);
      && (InSec(time, unit) - time * k) % 0x1_0000_0000 == 0
      && (IsInt(time * k) ==> InSec(time, unit) == time * k)
  {
    var k := Nanos(unit) / Nanos(Seconds);
    assert 1 <= k <= 86_400;
    MulMonotone(IntMin, time, k);
    MulMonotone(time, IntMax, k);
    MulMonotone(k, 86_400, IntMax);
    MulMonotone(k, 86_400, -IntMin);
    assert IntMin * k == -((-IntMin) * k);
    assert IsLong(time * k);
    SaturateExact(time, k);
    assert ToSeconds(time, unit) == time * k;
  }
}
