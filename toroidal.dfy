/** Toroidal wrap-around of a coordinate: `wrap_value` of swarm/src/swarm.cpp
  * (half-open range, also the angle wrap of the Python entities) and the
  * closed-range position wrap of the Python `c_entity.update`. */
module Toroidal {

  /** Shifting the dividend by one divisor shifts the quotient by one. */
  lemma DivShift(a: real, p: real)
    requires p > 0.0
    ensures (a + p) / p == a / p + 1.0
  {
    var d := (a + p) / p - (a / p + 1.0);
    assert d * p == 0.0;
  }

  /** Multiplying by a positive number keeps the sign. */
  lemma PositiveScale(x: real, p: real)
    requires p > 0.0
    ensures x >= 0.0 <==> x * p >= 0.0
    ensures x > 0.0 <==> x * p > 0.0
  {
  }

  /** If `q * p == a` and `f <= q < g` then `f * p <= a < g * p` for positive `p`. */
  lemma ScaleBetween(a: real, q: real, f: real, g: real, p: real)
    requires p > 0.0
    requires q * p == a
    requires f <= q < g
    ensures f * p <= a < g * p
  {
    PositiveScale(q - f, p);
    PositiveScale(g - q, p);
  }

  /** A non-negative number below `p` divided by `p` lies in `[0, 1)`. */
  lemma FractionBelowOne(a: real, p: real)
    requires p > 0.0 && 0.0 <= a < p
    ensures 0.0 <= a / p < 1.0
  {
    var q := a / p;
    assert q * p == a;
    PositiveScale(q, p);
    PositiveScale(1.0 - q, p);
    assert (1.0 - q) * p == p - a;
  }

  /** The floor of `a / p` brackets `a` between consecutive multiples of `p`. */
  lemma FloorBrackets(a: real, p: real)
    requires p > 0.0
    ensures (a / p).Floor as real * p <= a < ((a / p).Floor + 1) as real * p
  {
    var n := (a / p).Floor;
    ScaleBetween(a, a / p, n as real, (n + 1) as real, p);
  }

  /** Adding one divisor to the dividend adds one to the floor of the quotient. */
  lemma FloorShift(a: real, p: real)
    requires p > 0.0
    ensures ((a + p) / p).Floor == (a / p).Floor + 1
  {
    DivShift(a, p);
  }

  /** `p * (n + 1) == p * n + p`. */
  lemma TimesSucc(p: real, n: int)
    ensures p * (n + 1) as real == p * n as real + p
  {
  }

  /** Closed form of `wrap_value(value, maximum, gutter)`: the representative of
    * `value` modulo `maximum + 2 * gutter` in `[-gutter, maximum + gutter)`. */
  function WrapOf(value: real, maximum: real, gutter: real): (r: real)
    requires maximum + 2.0 * gutter > 0.0
    ensures -gutter <= r < maximum + gutter
  {
    var p := maximum + 2.0 * gutter;
    FloorBrackets(value + gutter, p);
    value - p * ((value + gutter) / p).Floor as real
  }

  /** `wrap_value` returns a value already in its range unchanged. */
  lemma WrapOfFixesRange(value: real, maximum: real, gutter: real)
    requires maximum + 2.0 * gutter > 0.0
    requires -gutter <= value < maximum + gutter
    ensures WrapOf(value, maximum, gutter) == value
  {
    var p := maximum + 2.0 * gutter;
    FractionBelowOne(value + gutter, p);
  }

  /** Adding one period does not change where a value wraps to. */
  lemma WrapOfPeriod(value: real, maximum: real, gutter: real)
    requires maximum + 2.0 * gutter > 0.0
    ensures WrapOf(value + (maximum + 2.0 * gutter), maximum, gutter) == WrapOf(value, maximum, gutter)
  {
    var p := maximum + 2.0 * gutter;
    var a := value + gutter;
    assert (value + p) + gutter == a + p;
    FloorShift(a, p);
    TimesSucc(p, (a / p).Floor);
    assert WrapOf(value + p, maximum, gutter) == value + p - p * ((a + p) / p).Floor as real;
  }

  /** `wrap_value` as written: add the period while below `-gutter`, then
    * subtract it while at or above `maximum + gutter`. */
  method WrapValue(value: real, maximum: real, gutter: real) returns (r: real)
    requires maximum + 2.0 * gutter > 0.0
    ensures r == WrapOf(value, maximum, gutter)
  {
    var p := maximum + 2.0 * gutter;
    r := value;
    while r < -gutter
      invariant WrapOf(r, maximum, gutter) == WrapOf(value, maximum, gutter)
      decreases (-gutter - r) / p
    {
      DivShift(-gutter - r - p, p);
      WrapOfPeriod(r, maximum, gutter);
      r := r + p;
    }
    while r >= maximum + gutter
      invariant WrapOf(r, maximum, gutter) == WrapOf(value, maximum, gutter)
      invariant r >= -gutter
      decreases (r - maximum - gutter) / p
    {
      DivShift(r - maximum - gutter - p, p);
      WrapOfPeriod(r - p, maximum, gutter);
      r := r - p;
    }
    WrapOfFixesRange(r, maximum, gutter);
  }

  /** The representative of `value` modulo `maximum + 2 * gutter` in `(-gutter, maximum + gutter]`. */
  function FoldDown(value: real, maximum: real, gutter: real): (r: real)
    requires maximum + 2.0 * gutter > 0.0
    ensures -gutter < r <= maximum + gutter
  {
    var p := maximum + 2.0 * gutter;
    FloorBrackets(maximum + gutter - value, p);
    value + p * ((maximum + gutter - value) / p).Floor as real
  }

  /** Subtracting one period does not change `FoldDown`. */
  lemma FoldDownPeriod(value: real, maximum: real, gutter: real)
    requires maximum + 2.0 * gutter > 0.0
    ensures FoldDown(value - (maximum + 2.0 * gutter), maximum, gutter) == FoldDown(value, maximum, gutter)
  {
    var p := maximum + 2.0 * gutter;
    FloorShift(maximum + gutter - value, p);
    TimesSucc(p, ((maximum + gutter - value) / p).Floor);
  }

  /** `FoldDown` returns a value already in its range unchanged. */
  lemma FoldDownFixesRange(value: real, maximum: real, gutter: real)
    requires maximum + 2.0 * gutter > 0.0
    requires -gutter < value <= maximum + gutter
    ensures FoldDown(value, maximum, gutter) == value
  {
    var p := maximum + 2.0 * gutter;
    var a := maximum + gutter - value;
    FractionBelowOne(a, p);
  }

  /** Closed form of the Python position wrap: below the range it behaves like
    * `wrap_value`, above it the result lands in `(-gutter, maximum + gutter]`,
    * and a value inside the closed range is kept. */
  function WrapClosedOf(value: real, maximum: real, gutter: real): (r: real)
    requires maximum + 2.0 * gutter > 0.0
    ensures -gutter <= r <= maximum + gutter
    ensures -gutter <= value <= maximum + gutter ==> r == value
  {
    if value < -gutter then WrapOf(value, maximum, gutter)
    else if value > maximum + gutter then FoldDown(value, maximum, gutter)
    else value
  }

  /** The Python position wrap as written: add the period while below
    * `-gutter`, then subtract it while strictly above `maximum + gutter`. */
  method WrapClosed(value: real, maximum: real, gutter: real) returns (r: real)
    requires maximum + 2.0 * gutter > 0.0
    ensures r == WrapClosedOf(value, maximum, gutter)
  {
    var p := maximum + 2.0 * gutter;
    r := value;
    while r < -gutter
      invariant WrapOf(r, maximum, gutter) == WrapOf(value, maximum, gutter)
      invariant value < -gutter ==> r < maximum + gutter
      invariant value >= -gutter ==> r == value
      decreases (-gutter - r) / p
    {
      DivShift(-gutter - r - p, p);
      WrapOfPeriod(r, maximum, gutter);
      r := r + p;
    }
    while r > maximum + gutter
      invariant value > maximum + gutter ==> FoldDown(r, maximum, gutter) == FoldDown(value, maximum, gutter)
      invariant value < -gutter ==> -gutter <= r < maximum + gutter
      invariant value < -gutter ==> WrapOf(r, maximum, gutter) == WrapOf(value, maximum, gutter)
      invariant value > maximum + gutter ==> r > -gutter
      invariant -gutter <= value <= maximum + gutter ==> r == value
      decreases (r - maximum - gutter) / p
    {
      DivShift(r - maximum - gutter - p, p);
      FoldDownPeriod(r, maximum, gutter);
      r := r - p;
    }
    if value < -gutter {
      WrapOfFixesRange(r, maximum, gutter);
    } else if value > maximum + gutter {
      FoldDownFixesRange(r, maximum, gutter);
    }
  }
}
