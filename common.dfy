/** Helpers shared by the C++ and Python parts of the model: an option type,
  * the C rules for integer division and float-to-int conversion, and the
  * uniform draw `lo + (hi - lo) * u` used by both code bases. */
module Common {

  datatype Option<T> = None | Some(value: T)

  /** An integer pixel position, as OpenCV's `cv::Point`. */
  datatype Point = Point(x: int, y: int)

  /** C/C++ and Python `int()` conversion of a floating value: truncation toward zero. */
  function CTrunc(x: real): (r: int)
    ensures x >= 0.0 ==> 0 <= r && r as real <= x < r as real + 1.0
    ensures x < 0.0 ==> r <= 0 && r as real - 1.0 < x <= r as real
  {
    if x >= 0.0 then x.Floor else -((-x).Floor)
  }

  /** `int(v)` clamped to `[0, bound - 1]`: a grid index for a coordinate
    * that may lie in the gutter. */
  function ClampIndex(v: real, bound: int): (r: int)
    requires bound > 0
    ensures 0 <= r < bound
    ensures 0 <= CTrunc(v) < bound ==> r == CTrunc(v)
    ensures CTrunc(v) < 0 ==> r == 0
    ensures CTrunc(v) >= bound ==> r == bound - 1
  {
    var m := CTrunc(v);
    if m < 0 then 0 else if m >= bound then bound - 1 else m
  }

  /** C `/` on `int`: the quotient is truncated toward zero. */
  function CDiv(a: int, b: int): (q: int)
    requires b != 0
    ensures a >= 0 && b > 0 ==> q == a / b
    ensures b > 0 ==> (a >= 0 ==> 0 <= a - q * b < b) && (a < 0 ==> -b < a - q * b <= 0)
  {
    if a >= 0 then (if b > 0 then a / b else -(a / -b))
    else (if b > 0 then -((-a) / b) else (-a) / (-b))
  }

  /** C `%` on `int`: the remainder takes the sign of the dividend. */
  function CMod(a: int, b: int): (m: int)
    requires b != 0
    ensures a == CDiv(a, b) * b + m
    ensures a >= 0 ==> 0 <= m && (b > 0 ==> m < b) && (b < 0 ==> m < -b)
    ensures a < 0 ==> m <= 0 && (b > 0 ==> -b < m) && (b < 0 ==> b < m)
  {
    a - CDiv(a, b) * b
  }

  /** `lo + (hi - lo) * u` for a draw `u` in [0, 1]: C++ `uniform_random` with
    * `u = rand() / RAND_MAX`, and Python `random.uniform`. */
  function Uniform(lo: real, hi: real, u: real): (r: real)
    requires 0.0 <= u <= 1.0
    ensures lo <= hi ==> lo <= r <= hi
    ensures u == 0.0 ==> r == lo
    ensures u == 1.0 ==> r == hi
  {
    ScaleByFraction(hi - lo, u);
    lo + (hi - lo) * u
  }

  /** Scaling a non-negative length by a fraction in [0, 1] keeps it within [0, length]. */
  lemma ScaleByFraction(d: real, u: real)
    requires 0.0 <= u <= 1.0
    ensures d >= 0.0 ==> 0.0 <= d * u <= d
  {
    if d >= 0.0 {
      assert 0.0 <= d * (1.0 - u);
    }
  }

  /** Scaling a non-negative length by a factor in [-1, 1] keeps it within [-length, length]. */
  lemma ScaleBySigned(d: real, u: real)
    requires d >= 0.0 && -1.0 <= u <= 1.0
    ensures -d <= d * u <= d
  {
    assert 0.0 <= d * (1.0 - u);
    assert 0.0 <= d * (1.0 + u);
  }

  /** Row-major index `y * w + x` of a cell inside a `w` by `h` grid is inside the grid. */
  lemma RowMajorBelow(x: int, y: int, w: int, h: int)
    requires 0 <= x < w && 0 <= y < h
    ensures 0 <= y * w + x < w * h
  {
    assert y * w + x < (y + 1) * w;
    assert (y + 1) * w <= h * w;
  }

  /** If `k * d <= a` then `k <= a / d`. */
  lemma DivAtLeast(a: int, d: int, k: int)
    requires d > 0 && k >= 0 && k * d <= a
    ensures k <= a / d
  {
    var q := a / d;
    assert a < q * d + d;
    assert (k - q) * d < d;
    AtLeastOnce(k - q, d);
  }

  /** A positive factor of at least one does not shrink a positive number. */
  lemma AtLeastOnce(m: int, d: int)
    requires d > 0
    ensures m >= 1 ==> m * d >= d
  {
    if m >= 1 {
      assert m * d == (m - 1) * d + d;
    }
  }

  /** Euclidean division is determined by any quotient-remainder split. */
  lemma DivModUnique(a: int, n: int, q: int, r: int)
    requires n > 0 && 0 <= r < n && a == q * n + r
    ensures a / n == q && a % n == r
  {
    var q0, r0 := a / n, a % n;
    assert (q0 - q) * n == r - r0;
    assert (q - q0) * n == r0 - r;
    AtLeastOnce(q0 - q, n);
    AtLeastOnce(q - q0, n);
  }
}
