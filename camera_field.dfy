/** The grid helpers of swarm/src/camera.cpp: the attract kernel built by
  * `init_field`, its stamping around every edge pixel in `get_vector_frame`,
  * and the counters of `idle_check`. */
module CameraField {
  import opened Common

  /** C conversion of an `int` to `int8_t`: two's-complement wrap-around. */
  function Int8(v: int): (r: int)
    ensures -128 <= r <= 127
    ensures -128 <= v <= 127 ==> r == v
    ensures (r - v) % 256 == 0
  {
    (v + 128) % 256 - 128
  }

  /** `(field_size - 1) / 2`, the kernel's centre offset; the model uses it
    * only for positive sizes, where C's division agrees with Dafny's. */
  function Half(fs: int): int
    requires fs > 0
  {
    (fs - 1) / 2
  }

  /** Row-major position `a * fs + b` of kernel entry `(a, b)`. */
  function Flat(fs: int, a: int, b: int): (k: int)
    requires 0 <= a < fs && 0 <= b < fs
    ensures 0 <= k < fs * fs
  {
    RowMajorBelow(b, a, fs, fs);
    a * fs + b
  }

  /** The `x_field` entry at row `a`, column `b`: it points back to the centre column. */
  function KernelX(fs: int, a: int, b: int): int
    requires fs > 0
  {
    Int8(Half(fs) - b)
  }

  /** The `y_field` entry at row `a`, column `b`: it points back to the centre row. */
  function KernelY(fs: int, a: int, b: int): int
    requires fs > 0
  {
    Int8(Half(fs) - a)
  }

  /** The centre entry of the kernel is the zero vector. */
  lemma KernelCentreIsZero(fs: int)
    requires fs > 0
    ensures KernelX(fs, Half(fs), Half(fs)) == 0 && KernelY(fs, Half(fs), Half(fs)) == 0
  {
  }

  /** Cell `(r, c)` of a `rows` by `cols` image lies in the `fs` by `fs`
    * window that `get_vector_frame` stamps around pixel `(i, j)`. */
  predicate Covers(rows: int, cols: int, fs: int, i: int, j: int, r: int, c: int) {
    fs > 0 && 0 <= r < rows && 0 <= c < cols
    && 0 <= r - i + Half(fs) < fs && 0 <= c - j + Half(fs) < fs
  }

  /** Every row of the edge image has `cols` pixels. */
  predicate IsImage(edge: seq<seq<int>>, cols: int) {
    cols >= 0 && forall i :: 0 <= i < |edge| ==> |edge[i]| == cols
  }

  /** Pixel `(a, b)` is an edge pixel whose window covers cell `(r, c)`. */
  predicate CoveringEdge(edge: seq<seq<int>>, cols: int, fs: int, a: int, b: int, r: int, c: int)
    requires IsImage(edge, cols)
  {
    0 <= a < |edge| && 0 <= b < cols && edge[a][b] != 0 && Covers(|edge|, cols, fs, a, b, r, c)
  }

  /** Pixel `(a, b)` comes before scan position `(i, j)` in row-major order. */
  predicate ScannedBefore(a: int, b: int, i: int, j: int) {
    a < i || (a == i && b < j)
  }

  /** The last edge pixel, in row-major scan order before position `(i, j)`,
    * whose window covers cell `(r, c)`. */
  function LastCover(edge: seq<seq<int>>, cols: int, fs: int, r: int, c: int, i: int, j: int): (last: Option<(int, int)>)
    requires IsImage(edge, cols)
    requires 0 <= i <= |edge| && 0 <= j <= cols && (i == |edge| ==> j == 0)
    ensures last.Some? ==>
      var (a, b) := last.value;
      CoveringEdge(edge, cols, fs, a, b, r, c) && ScannedBefore(a, b, i, j)
    decreases i, j
  {
    if j == 0 then
      if i == 0 then None else LastCover(edge, cols, fs, r, c, i - 1, cols)
    else if edge[i][j - 1] != 0 && Covers(|edge|, cols, fs, i, j - 1, r, c) then Some((i, j - 1))
    else LastCover(edge, cols, fs, r, c, i, j - 1)
  }

  /** No edge pixel scanned after `LastCover`'s answer (and before `(i, j)`)
    * covers the cell, and there is no answer only when no scanned edge pixel
    * covers it. */
  lemma {:induction false} LastCoverIsLast(edge: seq<seq<int>>, cols: int, fs: int, r: int, c: int, i: int, j: int)
    requires IsImage(edge, cols)
    requires 0 <= i <= |edge| && 0 <= j <= cols && (i == |edge| ==> j == 0)
    ensures forall a, b :: CoveringEdge(edge, cols, fs, a, b, r, c) && ScannedBefore(a, b, i, j) ==>
      var last := LastCover(edge, cols, fs, r, c, i, j);
      last.Some? && !ScannedBefore(last.value.0, last.value.1, a, b)
    decreases i, j
  {
    if j == 0 {
      if i > 0 {
        LastCoverIsLast(edge, cols, fs, r, c, i - 1, cols);
      }
    } else if !(edge[i][j - 1] != 0 && Covers(|edge|, cols, fs, i, j - 1, r, c)) {
      LastCoverIsLast(edge, cols, fs, r, c, i, j - 1);
    }
  }

  /** The value `get_vector_frame` leaves in a cell: the kernel entry seen from
    * the last covering edge pixel, or the old value when none covers it. */
  function Stamped(previous: int, last: Option<(int, int)>, kernel: seq<int>, fs: int, r: int, c: int): int
    requires last.Some? ==> fs > 0 && 0 <= r - last.value.0 + Half(fs) < fs && 0 <= c - last.value.1 + Half(fs) < fs
    requires last.Some? ==> fs * fs <= |kernel|
  {
    match last
    case None => previous
    case Some((a, b)) => kernel[Flat(fs, r - a + Half(fs), c - b + Half(fs))]
  }

  /** With the kernel of `init_field`, a stamped cell holds the vector from
    * the cell to the edge pixel that stamped it (column difference for x,
    * row difference for y), as an `int8_t`. */
  lemma StampPointsToEdge(fs: int, a: int, b: int, r: int, c: int)
    requires fs > 0 && 0 <= r - a + Half(fs) < fs && 0 <= c - b + Half(fs) < fs
    ensures KernelX(fs, r - a + Half(fs), c - b + Half(fs)) == Int8(b - c)
    ensures KernelY(fs, r - a + Half(fs), c - b + Half(fs)) == Int8(a - r)
  {
  }

  /** After `init_field(fs)`, a cell stamped from edge pixel `(a, b)` holds
    * the vector from the cell to that pixel. */
  lemma StampedWithKernel(vf: VectorField, fs: int, previous: int, a: int, b: int, r: int, c: int)
    requires vf.HoldsKernel(fs) && fs > 0
    requires 0 <= r - a + Half(fs) < fs && 0 <= c - b + Half(fs) < fs
    ensures Stamped(previous, Some((a, b)), vf.xField[..], fs, r, c) == Int8(b - c)
    ensures Stamped(previous, Some((a, b)), vf.yField[..], fs, r, c) == Int8(a - r)
  {
    StampPointsToEdge(fs, a, b, r, c);
  }

  /** The static `x_field`/`y_field` pair. */
  class VectorField {
    var xField: array<int>
    var yField: array<int>

    /** Both arrays hold the `fs` by `fs` kernel of `init_field`. */
    predicate HoldsKernel(fs: int)
      reads this, xField, yField
    {
      xField.Length == yField.Length == fs * fs
      && (forall a, b :: 0 <= a < fs && 0 <= b < fs ==> xField[Flat(fs, a, b)] == KernelX(fs, a, b))
      && (forall a, b :: 0 <= a < fs && 0 <= b < fs ==> yField[Flat(fs, a, b)] == KernelY(fs, a, b))
    }

    constructor ()
      ensures xField.Length == 0 && yField.Length == 0
    {
      xField := new int[0];
      yField := new int[0];
    }

    /** `init_field`: two new `fs * fs` arrays filled row by row. */
    method InitField(fs: int)
      modifies this
      ensures fresh(xField) && fresh(yField) && xField != yField
      ensures HoldsKernel(fs)
    {
      var xs := new int[fs * fs];
      var ys := new int[fs * fs];
      var i := 0;
      while i < fs
        invariant 0 <= i && (fs >= 0 ==> i <= fs)
        invariant forall a, b :: 0 <= a < i && 0 <= b < fs ==> xs[Flat(fs, a, b)] == KernelX(fs, a, b)
        invariant forall a, b :: 0 <= a < i && 0 <= b < fs ==> ys[Flat(fs, a, b)] == KernelY(fs, a, b)
      {
        FillRow(xs, ys, fs, i);
        i := i + 1;
      }
      xField := xs;
      yField := ys;
    }

    /** The inner loop of `init_field`: kernel row `i`. */
    static method FillRow(xs: array<int>, ys: array<int>, fs: int, i: int)
      requires xs != ys && xs.Length == ys.Length == fs * fs && 0 <= i < fs
      modifies xs, ys
      ensures forall a, b :: 0 <= a < fs && 0 <= b < fs ==>
        xs[Flat(fs, a, b)] == (if a == i then KernelX(fs, a, b) else old(xs[Flat(fs, a, b)]))
      ensures forall a, b :: 0 <= a < fs && 0 <= b < fs ==>
        ys[Flat(fs, a, b)] == (if a == i then KernelY(fs, a, b) else old(ys[Flat(fs, a, b)]))
    {
      var j := 0;
      while j < fs
        invariant 0 <= j <= fs
        invariant forall a, b :: 0 <= a < fs && 0 <= b < fs ==>
          xs[Flat(fs, a, b)] == (if a == i && b < j then KernelX(fs, a, b) else old(xs[Flat(fs, a, b)]))
        invariant forall a, b :: 0 <= a < fs && 0 <= b < fs ==>
          ys[Flat(fs, a, b)] == (if a == i && b < j then KernelY(fs, a, b) else old(ys[Flat(fs, a, b)]))
      {
        FlatInjective(fs, i, j);
        xs[Flat(fs, i, j)] := Int8((fs - 1) / 2 - j);
        ys[Flat(fs, i, j)] := Int8((fs - 1) / 2 - i);
        j := j + 1;
      }
    }

    /** `get_vector_frame`: scan the edge image in row-major order and stamp
      * the kernel around every edge pixel, clipped to the image. */
    method GetVectorFrame(edge: seq<seq<int>>, cols: int, xv: array2<int>, yv: array2<int>, fs: int)
      requires IsImage(edge, cols) && xv != yv
      requires |edge| <= xv.Length0 && cols <= xv.Length1 && |edge| <= yv.Length0 && cols <= yv.Length1
      requires fs > 0 ==> fs * fs <= xField.Length && fs * fs <= yField.Length
      modifies xv, yv
      ensures forall r, c :: 0 <= r < xv.Length0 && 0 <= c < xv.Length1 ==>
        xv[r, c] == Stamped(old(xv[r, c]), LastCover(edge, cols, fs, r, c, |edge|, 0), xField[..], fs, r, c)
      ensures forall r, c :: 0 <= r < yv.Length0 && 0 <= c < yv.Length1 ==>
        yv[r, c] == Stamped(old(yv[r, c]), LastCover(edge, cols, fs, r, c, |edge|, 0), yField[..], fs, r, c)
    {
      ghost var x0 := Snapshot(xv);
      ghost var y0 := Snapshot(yv);
      for i := 0 to |edge|
        invariant forall r, c :: 0 <= r < xv.Length0 && 0 <= c < xv.Length1 ==> x0[r][c] == old(xv[r, c])
        invariant forall r, c :: 0 <= r < yv.Length0 && 0 <= c < yv.Length1 ==> y0[r][c] == old(yv[r, c])
        invariant forall r, c :: 0 <= r < xv.Length0 && 0 <= c < xv.Length1 ==>
          xv[r, c] == Stamped(x0[r][c], LastCover(edge, cols, fs, r, c, i, 0), xField[..], fs, r, c)
        invariant forall r, c :: 0 <= r < yv.Length0 && 0 <= c < yv.Length1 ==>
          yv[r, c] == Stamped(y0[r][c], LastCover(edge, cols, fs, r, c, i, 0), yField[..], fs, r, c)
      {
        ScanRow(edge, cols, i, xv, yv, fs, x0, y0);
      }
    }

    /** One row of the scan: stamp around each edge pixel of row `i`, left to right. */
    method ScanRow(edge: seq<seq<int>>, cols: int, i: int, xv: array2<int>, yv: array2<int>, fs: int,
                   ghost x0: seq<seq<int>>, ghost y0: seq<seq<int>>)
      requires IsImage(edge, cols) && xv != yv && 0 <= i < |edge|
      requires |edge| <= xv.Length0 && cols <= xv.Length1 && |edge| <= yv.Length0 && cols <= yv.Length1
      requires fs > 0 ==> fs * fs <= xField.Length && fs * fs <= yField.Length
      requires Shaped(x0, xv) && Shaped(y0, yv)
      requires forall r, c :: 0 <= r < xv.Length0 && 0 <= c < xv.Length1 ==>
        xv[r, c] == Stamped(x0[r][c], LastCover(edge, cols, fs, r, c, i, 0), xField[..], fs, r, c)
      requires forall r, c :: 0 <= r < yv.Length0 && 0 <= c < yv.Length1 ==>
        yv[r, c] == Stamped(y0[r][c], LastCover(edge, cols, fs, r, c, i, 0), yField[..], fs, r, c)
      modifies xv, yv
      ensures forall r, c :: 0 <= r < xv.Length0 && 0 <= c < xv.Length1 ==>
        xv[r, c] == Stamped(x0[r][c], LastCover(edge, cols, fs, r, c, i + 1, 0), xField[..], fs, r, c)
      ensures forall r, c :: 0 <= r < yv.Length0 && 0 <= c < yv.Length1 ==>
        yv[r, c] == Stamped(y0[r][c], LastCover(edge, cols, fs, r, c, i + 1, 0), yField[..], fs, r, c)
    {
      for j := 0 to cols
        invariant forall r, c :: 0 <= r < xv.Length0 && 0 <= c < xv.Length1 ==>
          xv[r, c] == Stamped(x0[r][c], LastCover(edge, cols, fs, r, c, i, j), xField[..], fs, r, c)
        invariant forall r, c :: 0 <= r < yv.Length0 && 0 <= c < yv.Length1 ==>
          yv[r, c] == Stamped(y0[r][c], LastCover(edge, cols, fs, r, c, i, j), yField[..], fs, r, c)
      {
        if edge[i][j] != 0 {
          StampWindow(|edge|, cols, i, j, xv, yv, fs);
        }
      }
    }

    /** The two inner loops of `get_vector_frame`: the kernel around pixel
      * `(i, j)`, clipped to the `rows` by `cols` image. */
    method StampWindow(rows: int, cols: int, i: int, j: int, xv: array2<int>, yv: array2<int>, fs: int)
      requires xv != yv && rows <= xv.Length0 && cols <= xv.Length1 && rows <= yv.Length0 && cols <= yv.Length1
      requires fs > 0 ==> fs * fs <= xField.Length && fs * fs <= yField.Length
      modifies xv, yv
      ensures forall r, c :: 0 <= r < xv.Length0 && 0 <= c < xv.Length1 ==>
        xv[r, c] == if Covers(rows, cols, fs, i, j, r, c)
          then xField[Flat(fs, r - i + Half(fs), c - j + Half(fs))] else old(xv[r, c])
      ensures forall r, c :: 0 <= r < yv.Length0 && 0 <= c < yv.Length1 ==>
        yv[r, c] == if Covers(rows, cols, fs, i, j, r, c)
          then yField[Flat(fs, r - i + Half(fs), c - j + Half(fs))] else old(yv[r, c])
    {
      var vi := 0;
      while vi < fs
        invariant 0 <= vi && (fs > 0 ==> vi <= fs)
        invariant forall r, c :: 0 <= r < xv.Length0 && 0 <= c < xv.Length1 ==>
          xv[r, c] == if Covers(rows, cols, fs, i, j, r, c) && r - i + Half(fs) < vi
            then xField[Flat(fs, r - i + Half(fs), c - j + Half(fs))] else old(xv[r, c])
        invariant forall r, c :: 0 <= r < yv.Length0 && 0 <= c < yv.Length1 ==>
          yv[r, c] == if Covers(rows, cols, fs, i, j, r, c) && r - i + Half(fs) < vi
            then yField[Flat(fs, r - i + Half(fs), c - j + Half(fs))] else old(yv[r, c])
      {
        StampWindowRow(rows, cols, i, j, vi, xv, yv, fs);
        vi := vi + 1;
      }
    }

    /** The innermost loop of `get_vector_frame`: kernel row `vi` around pixel `(i, j)`. */
    method StampWindowRow(rows: int, cols: int, i: int, j: int, vi: int, xv: array2<int>, yv: array2<int>, fs: int)
      requires xv != yv && rows <= xv.Length0 && cols <= xv.Length1 && rows <= yv.Length0 && cols <= yv.Length1
      requires 0 <= vi < fs && fs * fs <= xField.Length && fs * fs <= yField.Length
      modifies xv, yv
      ensures forall r, c :: 0 <= r < xv.Length0 && 0 <= c < xv.Length1 ==>
        xv[r, c] == if Covers(rows, cols, fs, i, j, r, c) && r - i + Half(fs) == vi
          then xField[Flat(fs, vi, c - j + Half(fs))] else old(xv[r, c])
      ensures forall r, c :: 0 <= r < yv.Length0 && 0 <= c < yv.Length1 ==>
        yv[r, c] == if Covers(rows, cols, fs, i, j, r, c) && r - i + Half(fs) == vi
          then yField[Flat(fs, vi, c - j + Half(fs))] else old(yv[r, c])
    {
      for vj := 0 to fs
        invariant forall r, c :: 0 <= r < xv.Length0 && 0 <= c < xv.Length1 ==>
          xv[r, c] == if Covers(rows, cols, fs, i, j, r, c) && r - i + Half(fs) == vi && c - j + Half(fs) < vj
            then xField[Flat(fs, vi, c - j + Half(fs))] else old(xv[r, c])
        invariant forall r, c :: 0 <= r < yv.Length0 && 0 <= c < yv.Length1 ==>
          yv[r, c] == if Covers(rows, cols, fs, i, j, r, c) && r - i + Half(fs) == vi && c - j + Half(fs) < vj
            then yField[Flat(fs, vi, c - j + Half(fs))] else old(yv[r, c])
      {
        var iNew := i + vi - (fs - 1) / 2;
        var jNew := j + vj - (fs - 1) / 2;
        if iNew >= 0 && iNew < rows && jNew >= 0 && jNew < cols {
          assert Covers(rows, cols, fs, i, j, iNew, jNew);
          xv[iNew, jNew] := xField[Flat(fs, vi, vj)];
          yv[iNew, jNew] := yField[Flat(fs, vi, vj)];
        }
      }
    }
  }

  /** `s` has the dimensions of `a`. */
  ghost predicate Shaped(s: seq<seq<int>>, a: array2<int>) {
    |s| == a.Length0 && forall r :: 0 <= r < |s| ==> |s[r]| == a.Length1
  }

  /** `s` holds the contents of `a`, row by row. */
  ghost predicate IsSnapshot(s: seq<seq<int>>, a: array2<int>)
    reads a
  {
    Shaped(s, a) && forall r, c :: 0 <= r < a.Length0 && 0 <= c < a.Length1 ==> s[r][c] == a[r, c]
  }

  ghost function Snapshot(a: array2<int>): (s: seq<seq<int>>)
    reads a
    ensures IsSnapshot(s, a)
  {
    seq(a.Length0, r requires 0 <= r < a.Length0 reads a =>
      seq(a.Length1, c requires 0 <= c < a.Length1 reads a => a[r, c]))
  }

  /** Distinct kernel entries have distinct row-major positions. */
  lemma FlatInjective(fs: int, i: int, j: int)
    requires 0 <= i < fs && 0 <= j < fs
    ensures forall a, b :: 0 <= a < fs && 0 <= b < fs && (a, b) != (i, j) ==> Flat(fs, a, b) != Flat(fs, i, j)
  {
    forall a, b | 0 <= a < fs && 0 <= b < fs && (a, b) != (i, j)
      ensures Flat(fs, a, b) != Flat(fs, i, j)
    {
      if a < i {
        assert a * fs + b < (a + 1) * fs <= i * fs;
      } else if a > i {
        assert i * fs + j < (i + 1) * fs <= a * fs;
      }
    }
  }

  /** `k_fps` and `idle_checks_per_sec` of swarm/src/constants.h. */
  const Fps := 60
  const IdleChecksPerSec := 5
  const SecondsBeforeIdle := 10

  /** `k_fps/idle_checks_per_sec - 1`: calls skipped between two distance checks. */
  const DistReload := Fps / IdleChecksPerSec - 1

  /** `(int)(seconds_before_idle*k_fps/(image_dist_counter)-1)`, evaluated
    * when `image_dist_counter` holds `DistReload` (integer arithmetic). */
  const IdleReload := SecondsBeforeIdle * Fps / DistReload - 1

  /** `running_avg_alpha`. */
  const Alpha: real := 2.0 / (SecondsBeforeIdle as real * 60.0 / (Fps / IdleChecksPerSec) as real + 1.0)

  /** The static counters and averages of `idle_check`, plus the `distance`
    * and `avg_distance` globals it publishes. */
  datatype IdleState = IdleState(
    imageDistCounter: int, idleCheckCounter: int,
    runningAvg: real, lastRunningAvg: real,
    distance: int, avgDistance: real)

  /** The distance counter after one call. */
  function NextCounter(c: int): int {
    if c == 0 then DistReload else c - 1
  }

  /** One `idle_check` call: `dist` is what `image_dist` returns when it is
    * called, `idle` the flag before the call; the result is the new state and flag. */
  function IdleTick(s: IdleState, dist: int, idle: bool): (r: (IdleState, bool))
    ensures r.0.imageDistCounter == NextCounter(s.imageDistCounter)
    ensures s.imageDistCounter != 0 ==> r.0 == s.(imageDistCounter := s.imageDistCounter - 1) && r.1 == idle
    ensures s.imageDistCounter == 0 ==>
      r.0.distance == dist && r.0.runningAvg == r.0.avgDistance
      && r.0.runningAvg == Alpha * dist as real + (1.0 - Alpha) * s.runningAvg
    ensures s.imageDistCounter == 0 && dist as real > r.0.runningAvg * 2.0 ==> !r.1
    ensures r.1 && !idle ==>
      s.imageDistCounter == 0 && s.idleCheckCounter <= 0
      && r.0.runningAvg < s.lastRunningAvg * 1.1 && (dist as real) < s.lastRunningAvg * 1.1
  {
    if s.imageDistCounter == 0 then
      var avg := Alpha * dist as real + (1.0 - Alpha) * s.runningAvg;
      var cleared := dist as real > avg * 2.0;
      var idle1 := if cleared then false else idle;
      var counter1 := if cleared then IdleReload else s.idleCheckCounter;
      var fire := counter1 <= 0;
      var idle2 := if fire && avg < s.lastRunningAvg * 1.1 && (dist as real) < s.lastRunningAvg * 1.1 then true else idle1;
      var counter2 := if fire then IdleReload else counter1;
      var last := if fire then avg else s.lastRunningAvg;
      (IdleState(DistReload, counter2 - 1, avg, last, dist, avg), idle2)
    else
      (s.(imageDistCounter := s.imageDistCounter - 1), idle)
  }

  /** The distance counter before call `k`, starting from `c`. */
  function CounterBefore(c: int, k: nat): int {
    if k == 0 then c else NextCounter(CounterBefore(c, k - 1))
  }

  /** Closed form of the distance counter. */
  lemma {:induction false} CounterBeforeClosed(c: int, k: nat)
    requires 0 <= c <= DistReload
    ensures CounterBefore(c, k) == if k <= c then c - k else DistReload - (k - c - 1) % (DistReload + 1)
  {
    if k > c + 1 {
      CounterBeforeClosed(c, k - 1);
      ModSucc(k - c - 2);
    } else if k > 0 {
      CounterBeforeClosed(c, k - 1);
    }
  }

  /** Successor modulo the check period. */
  lemma ModSucc(n: nat)
    ensures (n + 1) % 12 == if n % 12 == 11 then 0 else n % 12 + 1
  {
  }

  /** Starting from a counter `c` in range, call `k` measures the distance
    * exactly when `k - c` is a non-negative multiple of
    * `k_fps/idle_checks_per_sec`: one check every 12 calls. */
  lemma ChecksPeriodically(c: int, k: nat)
    requires 0 <= c <= DistReload
    ensures CounterBefore(c, k) == 0 <==> k >= c && (k - c) % (Fps / IdleChecksPerSec) == 0
  {
    CounterBeforeClosed(c, k);
    if k > c {
      ModSucc(k - c - 1);
    }
  }

  /** The `idle_check` statics. */
  class IdleMonitor {
    var imageDistCounter: int
    var idleCheckCounter: int
    var runningAvg: real
    var lastRunningAvg: real
    var distance: int
    var avgDistance: real

    function State(): IdleState
      reads this
    {
      IdleState(imageDistCounter, idleCheckCounter, runningAvg, lastRunningAvg, distance, avgDistance)
    }

    /** The static initialisers. */
    constructor ()
      ensures State() == IdleState(DistReload, IdleReload, 0.0, 0.0, 0, 0.0)
      ensures 0 <= imageDistCounter <= DistReload
    {
      imageDistCounter := DistReload;
      idleCheckCounter := IdleReload;
      runningAvg := 0.0;
      lastRunningAvg := 0.0;
      distance := 0;
      avgDistance := 0.0;
    }

    /** `idle_check`: `idleIn` is `*idle` before the call and `idle` after it. */
    method IdleCheck(dist: int, idleIn: bool) returns (idle: bool)
      modifies this
      ensures (State(), idle) == IdleTick(old(State()), dist, idleIn)
    {
      idle := idleIn;
      if imageDistCounter == 0 {
        imageDistCounter := Fps / IdleChecksPerSec - 1;
        distance := dist;
        runningAvg := Alpha * dist as real + (1.0 - Alpha) * runningAvg;
        avgDistance := runningAvg;
        if dist as real > runningAvg * 2.0 {
          idle := false;
          idleCheckCounter := SecondsBeforeIdle * Fps / imageDistCounter - 1;
        }
        if idleCheckCounter <= 0 {
          idleCheckCounter := SecondsBeforeIdle * Fps / imageDistCounter - 1;
          if runningAvg < lastRunningAvg * 1.1 && (dist as real) < lastRunningAvg * 1.1 {
            idle := true;
          }
          lastRunningAvg := runningAvg;
        }
        idleCheckCounter := idleCheckCounter - 1;
      } else {
        imageDistCounter := imageDistCounter - 1;
      }
    }
  }
}
