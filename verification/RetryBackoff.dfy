/** The jittered backoff schedule: each delay is drawn between the initial delay and twice the
    previous one, capped. Delays are exact reals, in milliseconds. */
module RetryBackoff {
  import XorShift

  type Duration = r: real | r >= 0.0 witness 0.0

  /** A random fraction. */
  type Unit = u: real | 0.0 <= u < 1.0 witness 0.0

  datatype Schedule = Schedule(initial: Duration, ceiling: Duration, prev: Duration)

  function Lesser(a: real, b: real): real { if a <= b then a else b }
  function Greater(a: real, b: real): real { if a <= b then b else a }

  /** The upper end of the next draw: min(2 * prev, ceiling), but at least the initial delay. */
  function High(s: Schedule): real {
    Greater(Lesser(s.prev * 2.0, s.ceiling), s.initial)
  }

  function Scaled(span: Duration, u: Unit): (d: Duration)
    ensures d <= span
  {
    NonNegative(span, u);
    NonNegative(span, 1.0 - u);
    assert span * u == span - span * (1.0 - u);
    span * u
  }

  lemma NonNegative(a: real, b: real)
    requires a >= 0.0 && b >= 0.0
    ensures a * b >= 0.0
  {
  }

  /** The next delay. */
  function Delay(s: Schedule, u: Unit): (d: Duration)
    ensures s.initial <= d <= High(s)
  {
    s.initial + Scaled(High(s) - s.initial, u)
  }

  function Pow2(n: nat): (r: real)
    ensures r >= 1.0
  {
    if n == 0 then 1.0 else 2.0 * Pow2(n - 1)
  }

  /** The schedule after the delays that the fractions `us` give. */
  function AfterDelays(s: Schedule, us: seq<Unit>): (r: Schedule)
    ensures r.initial == s.initial && r.ceiling == s.ceiling
  {
    if us == [] then s
    else
      var b := AfterDelays(s, us[..|us| - 1]);
      b.(prev := Delay(b, us[|us| - 1]))
  }

  /** The initial delay doubled n times. */
  function Doubled(initial: Duration, n: nat): (r: real)
    ensures r >= initial
  {
    if n == 0 then initial else 2.0 * Doubled(initial, n - 1)
  }

  lemma {:induction false} DoubledIsPow2(initial: Duration, n: nat)
    ensures Doubled(initial, n) == initial * Pow2(n)
  {
    if n > 0 {
      DoubledIsPow2(initial, n - 1);
      assert initial * (2.0 * Pow2(n - 1)) == 2.0 * (initial * Pow2(n - 1));
    }
  }

  /** Doubling the bound on the previous delay bounds the next draw. */
  lemma HighBound(s: Schedule, bound: real)
    requires s.initial <= bound && s.prev <= Greater(s.initial, Lesser(s.ceiling, bound))
    ensures High(s) <= Greater(s.initial, Lesser(s.ceiling, 2.0 * bound))
  {
  }

  /** Below half the ceiling the range of the next delay reaches twice the previous one. */
  lemma HighDoubles(s: Schedule)
    requires s.initial <= s.prev && 2.0 * s.prev <= s.ceiling
    ensures High(s) == 2.0 * s.prev
  {
  }

  /** The next delay is the point the fraction marks between the initial delay and the larger of it and
      min(ceiling, 2 * prev). */
  lemma DelayIs(s: Schedule, u: Unit)
    ensures var twice := 2.0 * s.prev;
            var capped := if twice <= s.ceiling then twice else s.ceiling;
            var top := if capped >= s.initial then capped else s.initial;
            Delay(s, u) == s.initial + u * (top - s.initial)
  {
  }

  /** Unless there is nothing to draw from, a larger fraction gives a longer delay. */
  lemma DelayIncreases(s: Schedule, u: Unit, v: Unit)
    requires u < v && s.initial < High(s)
    ensures Delay(s, u) < Delay(s, v)
  {
    ScaledIncreases(High(s) - s.initial, u, v);
  }

  lemma ScaledIncreases(span: Duration, u: Unit, v: Unit)
    requires u < v && span > 0.0
    ensures Scaled(span, u) < Scaled(span, v)
  {
    LargerProduct(span, u, v, Scaled(span, u), Scaled(span, v));
  }

  lemma LargerProduct(a: real, b: real, c: real, ab: real, ac: real)
    requires a > 0.0 && b < c && ab == a * b && ac == a * c
    ensures ab < ac
  {
    PositiveProduct(a, c - b);
    assert a * (c - b) == a * c - a * b;
  }

  lemma PositiveProduct(a: real, b: real)
    requires a > 0.0 && b > 0.0
    ensures a * b > 0.0
  {
  }

  /** Every delay short of the top of the range can be exceeded. */
  lemma DelayCanExceed(s: Schedule, d: real) returns (u: Unit)
    requires d < High(s)
    ensures Delay(s, u) > d
  {
    if d < s.initial {
      u := 0.0;
    } else {
      var span, aim := High(s) - s.initial, (d + High(s)) / 2.0 - s.initial;
      u := Fraction(aim, span);
      assert Scaled(span, u) == aim;
    }
  }

  lemma Fraction(part: real, whole: real) returns (u: Unit)
    requires 0.0 <= part < whole
    ensures whole * u == part
  {
    var q := part / whole;
    assert q * whole == part;
    if q < 0.0 { PositiveProduct(-q, whole); }
    if q >= 1.0 { NonNegative(q - 1.0, whole); }
    u := q;
  }

  /** The largest n-th delay: the initial delay doubled n times, capped by the ceiling; a ceiling below
      the initial delay leaves just that. */
  function Cap(initial: Duration, ceiling: Duration, n: nat): real {
    Greater(initial, Lesser(ceiling, Doubled(initial, n)))
  }

  /** Whatever is drawn, the n-th delay of a fresh schedule lies between the initial delay and its cap. */
  lemma {:induction false} NthDelay(s: Schedule, us: seq<Unit>)
    requires s.prev == s.initial
    ensures s.initial <= AfterDelays(s, us).prev
    ensures AfterDelays(s, us).prev <= Cap(s.initial, s.ceiling, |us|)
    decreases |us|
  {
    if us != [] {
      var n := |us| - 1;
      NthDelay(s, us[..n]);
      HighBound(AfterDelays(s, us[..n]), Doubled(s.initial, n));
    }
  }

  /** The cap is tight: whatever lies below it, some fractions give a longer n-th delay. */
  lemma {:induction false} CapIsTight(s: Schedule, n: nat, d: real) returns (us: seq<Unit>)
    requires s.prev == s.initial && d < Cap(s.initial, s.ceiling, n)
    ensures |us| == n && AfterDelays(s, us).prev > d
    decreases n
  {
    us := [];
    if n > 0 {
      us := CapIsTight(s, n - 1, if d < s.initial then d else d / 2.0);
      var b := AfterDelays(s, us);
      var u := DelayCanExceed(b, d);
      assert (us + [u])[..|us|] == us;
      us := us + [u];
    }
  }

  /** With the initial delay at most the ceiling, the cap is min(ceiling, initial * 2^n). */
  lemma CapInPowers(initial: Duration, ceiling: Duration, n: nat)
    requires initial <= ceiling
    ensures Cap(initial, ceiling, n) == Lesser(ceiling, initial * Pow2(n))
  {
    DoubledIsPow2(initial, n);
  }

  class Backoff {
    const initial: Duration
    const ceiling: Duration
    var prev: Duration
    var rng: bv64

    ghost function Value(): Schedule
      reads this
    {
      Schedule(initial, ceiling, prev)
    }

    /** `seed` stands for the clock and address bits the source mixes. */
    constructor (initialMs: nat, maxMs: nat, seed: bv64)
      ensures Value() == Schedule(initialMs as real, maxMs as real, initialMs as real) && rng == seed | 1
    {
      initial, ceiling, prev, rng := initialMs as real, maxMs as real, initialMs as real, seed | 1;
    }

    /** The next random fraction. */
    method DrawUnit() returns (u: Unit)
      modifies this`rng
      ensures rng == XorShift.Next(old(rng)) && u * (XorShift.TWO_53 as real) == XorShift.Top53(rng) as real
      ensures old(rng) != 0 ==> rng != 0
    {
      var k;
      rng, k := XorShift.Draw(rng);
      u := k as real / (XorShift.TWO_53 as real);
    }

    method Next() returns (ms: Duration)
      modifies this
      ensures prev == ms && initial <= ms <= High(old(Value()))
      ensures exists u: Unit ::
                ms == Delay(old(Value()), u) && u * (XorShift.TWO_53 as real) == XorShift.Top53(rng) as real
      ensures initial <= old(prev) && 2.0 * old(prev) <= ceiling ==> High(old(Value())) == 2.0 * old(prev)
      ensures rng == XorShift.Next(old(rng)) && (old(rng) != 0 ==> rng != 0)
    {
      var hi := if prev * 2.0 <= ceiling then prev * 2.0 else ceiling;
      hi := if hi <= initial then initial else hi;
      var u := DrawUnit();
      ms := initial + Scaled(hi - initial, u);
      assert ms == Delay(old(Value()), u);
      prev := ms;
    }
  }
}
