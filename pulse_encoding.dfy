/**
 * The numeric stage of an IR command: each decimal value is scaled by 26.3,
 * rounded with `Math.rint` and narrowed to a Java `int` pulse duration.
 */
module PulseEncoding {

  /**
   * A Java `double`. Finite values are kept as exact reals, so the rounding
   * of IEEE-754 products is not part of the model; infinities and NaN are.
   */
  datatype Double = Finite(value: real) | PositiveInfinity | NegativeInfinity | NaN

  /** The factor that turns the command's units into Samsung pulse durations. */
  const SAMSUNG_FACTOR: real := 26.3

  /** The carrier frequency every command is sent on, in hertz. */
  const CARRIER_FREQUENCY: int := 38000

  /** `Integer.MIN_VALUE` and `Integer.MAX_VALUE`. */
  const INT_MIN: int := -0x8000_0000
  const INT_MAX: int := 0x7FFF_FFFF

  /** `d * 26.3`: infinities and NaN are unchanged by a positive factor. */
  function Scale(d: Double): (r: Double)
    ensures d.Finite? <==> r.Finite?
    ensures d.Finite? ==> r.value == d.value * SAMSUNG_FACTOR
    ensures !d.Finite? ==> r == d
  {
    match d
    case Finite(x) => Finite(x * SAMSUNG_FACTOR)
    case _ => d
  }

  /** The integer nearest to `x`, an even one when `x` lies halfway between two. */
  function Rint(x: real): (n: int)
    ensures -0.5 <= n as real - x <= 0.5
    ensures (n as real - x == 0.5 || x - n as real == 0.5) ==> n % 2 == 0
  {
    var f := x.Floor;
    var frac := x - f as real;
    if frac < 0.5 then f
    else if frac > 0.5 then f + 1
    else if f % 2 == 0 then f
    else f + 1
  }

  /** `Rint` is the only integer with its two properties. */
  lemma RintUnique(x: real, m: int)
    requires -0.5 <= m as real - x <= 0.5
    requires (m as real - x == 0.5 || x - m as real == 0.5) ==> m % 2 == 0
    ensures m == Rint(x)
  {
  }

  /** Rounding never reverses the order of two values. */
  lemma RintMonotonic(x: real, y: real)
    requires x <= y
    ensures Rint(x) <= Rint(y)
  {
  }

  /** `Math.rint(d)`: infinities and NaN come back as they are. */
  function MathRint(d: Double): (r: Double)
    ensures d.Finite? <==> r.Finite?
    ensures d.Finite? ==> r.value == Rint(d.value) as real
    ensures !d.Finite? ==> r == d
  {
    match d
    case Finite(x) => Finite(Rint(x) as real)
    case _ => d
  }

  /** The integer part of `x`, rounding toward zero. */
  function Truncate(x: real): (n: int)
    ensures 0.0 <= x ==> n as real <= x < n as real + 1.0
    ensures x < 0.0 ==> n as real - 1.0 < x <= n as real
  {
    if x >= 0.0 then x.Floor else -((-x).Floor)
  }

  /** `n` saturated into the range of a Java `int`. */
  function Clamp(n: int): (r: int)
    ensures INT_MIN <= r <= INT_MAX
    ensures INT_MIN <= n <= INT_MAX ==> r == n
    ensures n > INT_MAX ==> r == INT_MAX
    ensures n < INT_MIN ==> r == INT_MIN
  {
    if n > INT_MAX then INT_MAX else if n < INT_MIN then INT_MIN else n
  }

  /** The narrowing cast `(int) d` of Java's section 5.1.3. */
  function IntCast(d: Double): (n: int)
    ensures INT_MIN <= n <= INT_MAX
    ensures d.NaN? ==> n == 0
    ensures d.PositiveInfinity? ==> n == INT_MAX
    ensures d.NegativeInfinity? ==> n == INT_MIN
  {
    match d
    case NaN => 0
    case PositiveInfinity => INT_MAX
    case NegativeInfinity => INT_MIN
    case Finite(x) => Clamp(Truncate(x))
  }

  /** One pulse: `(int) Math.rint(d * 26.3)`. */
  function EncodePulse(d: Double): int
  {
    IntCast(MathRint(Scale(d)))
  }

  /** Each value of a command scaled, in order. */
  function ScaleAll(ds: seq<Double>): (r: seq<Double>)
    ensures |r| == |ds|
  {
    seq(|ds|, i requires 0 <= i < |ds| => Scale(ds[i]))
  }

  /** Each value of a command encoded, in order. */
  function EncodeAll(ds: seq<Double>): (r: seq<int>)
    ensures |r| == |ds|
  {
    seq(|ds|, i requires 0 <= i < |ds| => EncodePulse(ds[i]))
  }

  /**
   * A finite value becomes the integer nearest to 26.3 times it (ties to
   * even), saturated at the bounds of `int`.
   */
  lemma EncodePulseFinite(x: real)
    ensures var p := EncodePulse(Finite(x));
      && INT_MIN <= p <= INT_MAX
      && p == Clamp(Rint(x * SAMSUNG_FACTOR))
      && (INT_MIN <= Rint(x * SAMSUNG_FACTOR) <= INT_MAX ==>
            -0.5 <= p as real - x * SAMSUNG_FACTOR <= 0.5)
  {
    var n := Rint(x * SAMSUNG_FACTOR);
    assert Truncate(n as real) == n;
  }

  /** A larger value never gives a shorter pulse. */
  lemma EncodePulseMonotonic(x: real, y: real)
    requires x <= y
    ensures EncodePulse(Finite(x)) <= EncodePulse(Finite(y))
  {
    EncodePulseFinite(x);
    EncodePulseFinite(y);
    RintMonotonic(x * SAMSUNG_FACTOR, y * SAMSUNG_FACTOR);
  }

  /** Whole numbers of units scale exactly: 10, 20 and 30 give 263, 526 and 789. */
  lemma EncodeTensExactly()
    ensures EncodeAll([Finite(10.0), Finite(20.0), Finite(30.0)]) == [263, 526, 789]
  {
    EncodeWhole(10.0, 263);
    EncodeWhole(20.0, 526);
    EncodeWhole(30.0, 789);
  }

  /** A value whose product with 26.3 is the int `n` is encoded as `n`. */
  lemma EncodeWhole(x: real, n: int)
    requires x * SAMSUNG_FACTOR == n as real && INT_MIN <= n <= INT_MAX
    ensures EncodePulse(Finite(x)) == n
  {
    RintUnique(n as real, n);
    EncodePulseFinite(x);
  }

  /** NaN gives a zero pulse, the infinities the extreme ones. */
  lemma EncodePulseNonFinite()
    ensures EncodePulse(NaN) == 0
    ensures EncodePulse(PositiveInfinity) == INT_MAX
    ensures EncodePulse(NegativeInfinity) == INT_MIN
  {
  }

  /**
   * `dec2SamsungIRDec`: scales every element of `irDec` in place and returns a
   * fresh array with each scaled element rounded and narrowed to `int`.
   */
  method Dec2SamsungIrDec(irDec: array<Double>) returns (pattern: array<int>)
    modifies irDec
    ensures fresh(pattern)
    ensures irDec[..] == ScaleAll(old(irDec[..]))
    ensures pattern[..] == EncodeAll(old(irDec[..]))
  {
    pattern := new int[irDec.Length](_ => 0);
    for i := 0 to irDec.Length
      invariant forall k :: 0 <= k < i ==> irDec[k] == Scale(old(irDec[k]))
      invariant forall k :: 0 <= k < i ==> pattern[k] == EncodePulse(old(irDec[k]))
      invariant forall k :: i <= k < irDec.Length ==> irDec[k] == old(irDec[k])
      invariant forall k :: i <= k < pattern.Length ==> pattern[k] == 0
    {
      irDec[i] := Scale(irDec[i]);
      pattern[i] := pattern[i] + IntCast(MathRint(irDec[i]));
    }
  }
}
