/** oldsrc/BeeHandle.cpp: bees on an `xWidth` by `yWidth` grid are drawn to
  * cells that recent camera frames marked often. Each cell holds a score (in
  * how many stored frames it appears) and the index of the bee that claimed
  * it; the stored frames form a bounded queue. The work the source spreads
  * over threads is split into index ranges that are run one after another. */
module Attractors {
  import opened Common
  import SwarmStrategy

  const Pi: real := 3.14159265358979323846

  /** A grid cell: the claiming bee (-1 for none), its score and its position. */
  datatype Attractor = Attractor(pointIdx: int, score: int, x: int, y: int)

  type Matrix = seq<seq<Attractor>>

  predicate InGrid(c: Point, w: int, h: int) {
    0 <= c.x < w && 0 <= c.y < h
  }

  /** `c` indexes a cell of `m`. */
  predicate Fits(m: Matrix, c: Point) {
    0 <= c.x < |m| && 0 <= c.y < |m[c.x]|
  }

  /** `m` is a `w` by `h` grid. */
  predicate Shaped(m: Matrix, w: int, h: int) {
    |m| == w && forall x :: 0 <= x < w ==> |m[x]| == h
  }

  /** Every cell of a `w` by `h` grid indexes `m`. */
  lemma ShapedFits(m: Matrix, w: int, h: int)
    requires Shaped(m, w, h)
    ensures forall c :: InGrid(c, w, h) ==> Fits(m, c)
  {
  }

  // ---------------------------------------------------------------- rads2Dir

  /** `rads2Dir`: the eight-way direction code of an angle. */
  function Rads2Dir(rads: real): (d: int)
    ensures 0 <= d <= 7
    ensures d == 0 <==> 3.0 * Pi / 8.0 <= rads < 5.0 * Pi / 8.0
  {
    if 3.0 * Pi / 8.0 > rads >= Pi / 8.0 then 1
    else if Pi / 8.0 > rads >= -1.0 * Pi / 8.0 then 2
    else if -1.0 * Pi / 8.0 > rads >= -3.0 * Pi / 8.0 then 3
    else if -3.0 * Pi / 8.0 > rads >= -5.0 * Pi / 8.0 then 4
    else if -5.0 * Pi / 8.0 > rads >= -7.0 * Pi / 8.0 then 5
    else if -7.0 * Pi / 8.0 > rads || rads >= 7.0 * Pi / 8.0 then 6
    else if 7.0 * Pi / 8.0 > rads >= 5.0 * Pi / 8.0 then 7
    else 0
  }

  /** The eighth of a turn nearest to `rads`, counted from the positive x axis. */
  function Octant(rads: real): int {
    ((rads + Pi / 8.0) / (Pi / 4.0)).Floor
  }

  /** On the range of `atan2`, `rads2Dir` counts octants clockwise starting
    * with 0 at a quarter turn, that is 2 at angle 0. */
  lemma Rads2DirIsCompass(rads: real)
    requires -Pi <= rads <= Pi
    ensures Rads2Dir(rads) == (2 - Octant(rads)) % 8
  {
    var t := (rads + Pi / 8.0) / (Pi / 4.0);
    assert t * (Pi / 4.0) == rads + Pi / 8.0;
    var k := Octant(rads);
    assert k as real <= t < k as real + 1.0;
    assert -4 <= k <= 4;
  }

  // ------------------------------------------------------ thread partitions

  /** Where thread `i`'s share of `[0, n)` starts: each earlier thread took
    * `n / threads` indices, and the first `n % threads` threads one more. */
  function ShareStart(i: int, n: int, threads: int): (s: int)
    requires threads > 0 && n >= 0 && 0 <= i <= threads
    decreases i
  {
    if i == 0 then 0 else ShareStart(i - 1, n, threads) + n / threads + (if i - 1 < n % threads then 1 else 0)
  }

  /** The closed form of `ShareStart`, as the source's index arithmetic has it. */
  lemma {:induction false} ShareStartClosed(i: int, n: int, threads: int)
    requires threads > 0 && n >= 0 && 0 <= i <= threads
    ensures ShareStart(i, n, threads) == i * (n / threads) + (if i < n % threads then i else n % threads)
    decreases i
  {
    if i > 0 {
      ShareStartClosed(i - 1, n, threads);
      Distribute(i - 1, n / threads, n % threads);
    }
  }

  /** The start and end index the source computes for thread `i`, or `None`
    * when it starts no thread `i` (fewer indices than threads). */
  function ThreadRange(i: int, n: int, threads: int): (r: Option<(int, int)>)
    requires threads > 0 && n >= 0 && 0 <= i < threads
    ensures r.Some? ==> r.value == (ShareStart(i, n, threads), ShareStart(i + 1, n, threads))
    ensures r.None? ==> ShareStart(i, n, threads) == ShareStart(i + 1, n, threads) == n
  {
    var subSize := n / threads;
    var subRem := n % threads;
    DivisionFacts(n, threads);
    Distribute(i, subSize, subRem);
    ShareStartClosed(i, n, threads);
    ShareStartClosed(i + 1, n, threads);
    if n < threads then
      (if i < n then Some((i, i + 1)) else None)
    else if i < subRem then
      Some((i * (subSize + 1), (i + 1) * (subSize + 1)))
    else
      Some((subRem * (subSize + 1) + (i - subRem) * subSize, subRem * (subSize + 1) + (i - subRem + 1) * subSize))
  }

  /** What the source's `/` and `%` give for a non-negative count. */
  lemma DivisionFacts(n: int, threads: int)
    requires threads > 0 && n >= 0
    ensures 0 <= n / threads && 0 <= n % threads < threads
    ensures n == threads * (n / threads) + n % threads
    ensures n < threads ==> n / threads == 0 && n % threads == n
  {
  }

  /** Dividing by a positive divisor never makes a count larger. */
  lemma DivAtMost(n: int, d: int)
    requires n >= 0 && d > 0
    ensures 0 <= n / d <= n
  {
    DivisionFacts(n, d);
    if n / d > 0 {
      AtLeastOnce(d, n / d);
    }
  }

  /** The products in the source's start/end expressions, multiplied out. */
  lemma Distribute(i: int, q: int, rem: int)
    ensures i * (q + 1) == i * q + i
    ensures (i + 1) * (q + 1) == (i + 1) * q + i + 1
    ensures (i + 1) * q == i * q + q
    ensures rem * (q + 1) + (i - rem) * q == i * q + rem
    ensures rem * (q + 1) + (i - rem + 1) * q == (i + 1) * q + rem
  {
  }

  /** The first share starts at 0 and the last one ends at `n`. */
  lemma SharesEnds(n: int, threads: int)
    requires threads > 0 && n >= 0
    ensures ShareStart(0, n, threads) == 0
    ensures ShareStart(threads, n, threads) == n
  {
    DivisionFacts(n, threads);
    ShareStartClosed(threads, n, threads);
  }

  /** The shares tile `[0, n)`: the first starts at 0, the last ends at `n`,
    * and they never go backwards. */
  lemma SharesTile(n: int, threads: int)
    requires threads > 0 && n >= 0
    ensures ShareStart(0, n, threads) == 0
    ensures ShareStart(threads, n, threads) == n
    ensures forall i, j :: 0 <= i <= j <= threads ==> ShareStart(i, n, threads) <= ShareStart(j, n, threads)
  {
    SharesEnds(n, threads);
    forall i, j | 0 <= i <= j <= threads
      ensures ShareStart(i, n, threads) <= ShareStart(j, n, threads)
    {
      SharesMonotone(i, j, n, threads);
    }
  }

  /** Later shares never start before earlier ones. */
  lemma SharesMonotone(i: int, j: int, n: int, threads: int)
    requires threads > 0 && n >= 0 && 0 <= i <= j <= threads
    ensures ShareStart(i, n, threads) <= ShareStart(j, n, threads)
  {
    DivisionFacts(n, threads);
    var k := i;
    while k < j
      invariant i <= k <= j
      invariant ShareStart(i, n, threads) <= ShareStart(k, n, threads)
    {
      k := k + 1;
    }
  }

  /** Every index of `[0, n)` lies in the share of some thread. */
  lemma EachIndexSomeThread(k: int, n: int, threads: int)
    requires threads > 0 && 0 <= k < n
    ensures exists i :: 0 <= i < threads && ShareStart(i, n, threads) <= k < ShareStart(i + 1, n, threads)
  {
    SharesEnds(n, threads);
    var i := 0;
    while ShareStart(i + 1, n, threads) <= k
      invariant 0 <= i < threads
      invariant ShareStart(i, n, threads) <= k
      decreases threads - i
    {
      i := i + 1;
    }
    assert ShareStart(i, n, threads) <= k < ShareStart(i + 1, n, threads);
  }

  /** No index lies in the shares of two different threads. */
  lemma SharesDisjoint(k: int, n: int, threads: int, i: int, j: int)
    requires threads > 0 && n >= 0 && 0 <= i < threads && 0 <= j < threads
    requires ShareStart(i, n, threads) <= k < ShareStart(i + 1, n, threads)
    requires ShareStart(j, n, threads) <= k < ShareStart(j + 1, n, threads)
    ensures i == j
  {
    if i < j {
      SharesMonotone(i + 1, j, n, threads);
    } else if j < i {
      SharesMonotone(j + 1, i, n, threads);
    }
  }

  // ------------------------------------------------------ history and scores

  predicate NoDup(s: seq<Point>) {
    forall i, j :: 0 <= i < j < |s| ==> s[i] != s[j]
  }

  /** The frame left after the dedupe loop: scanning from the back, a point
    * already seen later in the list is dropped, so each cell keeps its last
    * occurrence. */
  function DedupLast(s: seq<Point>): (r: seq<Point>)
    ensures NoDup(r)
    ensures forall c :: c in r <==> c in s
    ensures |r| <= |s|
  {
    if s == [] then []
    else if s[0] in s[1..] then DedupLast(s[1..])
    else [s[0]] + DedupLast(s[1..])
  }

  /** In how many frames of `h` the cell `c` appears. */
  function Count(h: seq<seq<Point>>, c: Point): (k: nat)
    ensures k <= |h|
  {
    if h == [] then 0 else Count(h[..|h| - 1], c) + (if c in h[|h| - 1] then 1 else 0)
  }

  /** Pushing a frame adds one to the count of exactly the cells in it. */
  lemma CountPush(h: seq<seq<Point>>, f: seq<Point>, c: Point)
    ensures Count(h + [f], c) == Count(h, c) + (if c in f then 1 else 0)
  {
    assert (h + [f])[..|h|] == h;
  }

  /** Erasing the oldest frame takes one from the count of exactly the cells in it. */
  lemma {:induction false} CountDropFirst(h: seq<seq<Point>>, c: Point)
    requires |h| > 0
    ensures Count(h, c) == (if c in h[0] then 1 else 0) + Count(h[1..], c)
    decreases |h|
  {
    if |h| > 1 {
      CountDropFirst(h[..|h| - 1], c);
      assert h[..|h| - 1][1..] == h[1..][..|h[1..]| - 1];
      assert h[..|h| - 1][0] == h[0];
    } else {
      assert h[1..] == [];
      assert h[..0] == [];
    }
  }

  // ------------------------------------------------------ claims and releases

  /** Every point of `pts` is a cell of the `w` by `h` grid. */
  predicate AllInGrid(pts: seq<Point>, w: int, h: int) {
    forall k :: 0 <= k < |pts| ==> InGrid(pts[k], w, h)
  }

  /** Running `UpdateAttractorMatrix` over indices `[lo, hi)` in order: a point
    * claims its cell when nobody holds it and its score beats `threshold`. */
  function Claims(m: Matrix, pts: seq<Point>, lo: int, hi: int, threshold: int, w: int, h: int): (r: Matrix)
    requires 0 <= lo <= hi <= |pts| && Shaped(m, w, h) && AllInGrid(pts, w, h)
    ensures Shaped(r, w, h)
    decreases hi - lo
  {
    if hi == lo then m else ClaimStep(Claims(m, pts, lo, hi - 1, threshold, w, h), pts, hi - 1, threshold, w, h)
  }

  /** One iteration of `UpdateAttractorMatrix`, for point `k`. */
  function ClaimStep(m: Matrix, pts: seq<Point>, k: int, threshold: int, w: int, h: int): (r: Matrix)
    requires 0 <= k < |pts| && Shaped(m, w, h) && InGrid(pts[k], w, h)
    ensures Shaped(r, w, h)
  {
    var c := pts[k];
    var a := m[c.x][c.y];
    if a.pointIdx == -1 && a.score > threshold then m[c.x := m[c.x][c.y := a.(pointIdx := k)]] else m
  }

  /** The least index in `[lo, hi)` at which `pts` holds `c`. */
  function FirstAt(pts: seq<Point>, c: Point, lo: int, hi: int): (r: Option<int>)
    requires 0 <= lo <= hi <= |pts|
    ensures r.Some? ==> lo <= r.value < hi && pts[r.value] == c && forall j :: lo <= j < r.value ==> pts[j] != c
    ensures r.None? ==> forall j :: lo <= j < hi ==> pts[j] != c
    decreases hi - lo
  {
    if hi == lo then None
    else match FirstAt(pts, c, lo, hi - 1)
      case Some(k) => Some(k)
      case None => if pts[hi - 1] == c then Some(hi - 1) else None
  }

  /** A cell that was free and scored above the threshold goes to the first
    * point standing on it; every other cell keeps its claimant, so an existing
    * claimant is never replaced. Scores and positions do not change. */
  lemma {:induction false} ClaimsFirstArrival(m: Matrix, pts: seq<Point>, lo: int, hi: int, threshold: int, w: int, h: int, c: Point)
    requires 0 <= lo <= hi <= |pts| && Shaped(m, w, h) && AllInGrid(pts, w, h) && InGrid(c, w, h)
    ensures var a := m[c.x][c.y];
      var f := FirstAt(pts, c, lo, hi);
      Claims(m, pts, lo, hi, threshold, w, h)[c.x][c.y]
        == a.(pointIdx := if a.pointIdx == -1 && a.score > threshold && f.Some? then f.value else a.pointIdx)
    decreases hi - lo
  {
    if hi > lo {
      ClaimsFirstArrival(m, pts, lo, hi - 1, threshold, w, h, c);
    }
  }

  /** Running `[lo, mid)` and then `[mid, hi)` is running `[lo, hi)`. */
  lemma {:induction false} ClaimsSplit(m: Matrix, pts: seq<Point>, lo: int, mid: int, hi: int, threshold: int, w: int, h: int)
    requires 0 <= lo <= mid <= hi <= |pts| && Shaped(m, w, h) && AllInGrid(pts, w, h)
    ensures Claims(Claims(m, pts, lo, mid, threshold, w, h), pts, mid, hi, threshold, w, h) == Claims(m, pts, lo, hi, threshold, w, h)
    decreases hi - mid
  {
    if hi > mid {
      ClaimsSplit(m, pts, lo, mid, hi - 1, threshold, w, h);
    }
  }

  /** The least integer at or above `t`. */
  function Ceil(t: real): (c: int)
    ensures t <= c as real && (c - 1) as real < t
  {
    -((-t).Floor)
  }

  /** The release threshold `avgPercent * frames`, written as repeated
    * addition so that the solver sees no product of two unknowns. */
  function Threshold(avgPercent: real, frames: nat): real {
    if frames == 0 then 0.0 else Threshold(avgPercent, frames - 1) + avgPercent
  }

  /** `Threshold` is the product the source computes. */
  lemma {:induction false} ThresholdIsProduct(avgPercent: real, frames: nat)
    ensures Threshold(avgPercent, frames) == avgPercent * frames as real
  {
    if frames > 0 {
      ThresholdIsProduct(avgPercent, frames - 1);
    }
  }

  /** An integer score is below the real threshold `t` exactly when it is
    * below `Ceil(t)`, so the release below compares integers only. */
  lemma BelowCeil(s: int, t: real)
    ensures s as real < t <==> s < Ceil(t)
  {
    var c := Ceil(t);
    if s < c {
      assert s <= c - 1;
      assert s as real <= (c - 1) as real;
    }
  }

  /** Running `removeLastFrame` over positions `[lo, hi)` of `frame` in order:
    * each cell loses one point of score and is freed when the score drops
    * below `bound`. */
  function Release(m: Matrix, frame: seq<Point>, lo: int, hi: int, bound: int, w: int, h: int): (r: Matrix)
    requires 0 <= lo <= hi <= |frame| && Shaped(m, w, h) && AllInGrid(frame, w, h)
    ensures Shaped(r, w, h)
    decreases hi - lo
  {
    if hi == lo then m else ReleaseStep(Release(m, frame, lo, hi - 1, bound, w, h), frame[hi - 1], bound, w, h)
  }

  /** One iteration of `removeLastFrame`, for cell `c`. */
  function ReleaseStep(m: Matrix, c: Point, bound: int, w: int, h: int): (r: Matrix)
    requires Shaped(m, w, h) && InGrid(c, w, h)
    ensures Shaped(r, w, h)
  {
    var a := m[c.x][c.y].(score := m[c.x][c.y].score - 1);
    m[c.x := m[c.x][c.y := if a.score < bound then a.(pointIdx := -1) else a]]
  }

  /** For a frame without repeated cells, releasing `[lo, hi)` takes exactly one
    * point from each cell in that part of the frame, frees it when the new
    * score is below the bound, and leaves every other cell alone. */
  lemma {:induction false} ReleaseEffect(m: Matrix, frame: seq<Point>, lo: int, hi: int, bound: int, w: int, h: int, c: Point)
    requires 0 <= lo <= hi <= |frame| && Shaped(m, w, h) && AllInGrid(frame, w, h)
    requires NoDup(frame) && InGrid(c, w, h)
    ensures var a := m[c.x][c.y];
      Release(m, frame, lo, hi, bound, w, h)[c.x][c.y]
        == if c in frame[lo..hi] then a.(score := a.score - 1, pointIdx := if a.score - 1 < bound then -1 else a.pointIdx)
           else a
    decreases hi - lo
  {
    if hi > lo {
      ReleaseEffect(m, frame, lo, hi - 1, bound, w, h, c);
      assert frame[lo..hi] == frame[lo..hi - 1] + [frame[hi - 1]];
      if frame[hi - 1] == c {
        assert c !in frame[lo..hi - 1];
      }
    }
  }

  /** Releasing `[lo, mid)` and then `[mid, hi)` is releasing `[lo, hi)`. */
  lemma {:induction false} ReleaseSplit(m: Matrix, frame: seq<Point>, lo: int, mid: int, hi: int, bound: int, w: int, h: int)
    requires 0 <= lo <= mid <= hi <= |frame| && Shaped(m, w, h) && AllInGrid(frame, w, h)
    ensures Release(Release(m, frame, lo, mid, bound, w, h), frame, mid, hi, bound, w, h) == Release(m, frame, lo, hi, bound, w, h)
    decreases hi - mid
  {
    if hi > mid {
      ReleaseSplit(m, frame, lo, mid, hi - 1, bound, w, h);
    }
  }

  // ------------------------------------------------------------ scored grid

  /** The statics' bookkeeping invariant, over values: the grid is `w` by `h`,
    * each cell knows its position and its score counts the stored frames
    * containing it, and every stored frame is a duplicate-free list of grid
    * cells. */
  predicate ScoredBy(m: Matrix, hist: seq<seq<Point>>, w: int, h: int) {
    && w >= 0 && h >= 0 && Shaped(m, w, h)
    && (forall x, y :: 0 <= x < w && 0 <= y < h ==>
          m[x][y].x == x && m[x][y].y == y && m[x][y].score == Count(hist, Point(x, y)))
    && (forall i :: 0 <= i < |hist| ==> NoDup(hist[i]) && AllInGrid(hist[i], w, h))
  }

  /** Deduplicating keeps a list of grid cells inside the grid. */
  lemma {:induction false} DedupInGrid(a: seq<Point>, w: int, h: int)
    requires AllInGrid(a, w, h)
    ensures AllInGrid(DedupLast(a), w, h)
  {
    if a != [] {
      DedupInGrid(a[1..], w, h);
    }
  }

  /** Adding one to the score of every cell named in `a` and queueing the
    * deduplicated `a` keeps the scores equal to the counts. */
  lemma PushKeepsScored(m: Matrix, hist: seq<seq<Point>>, a: seq<Point>, m2: Matrix, w: int, h: int)
    requires ScoredBy(m, hist, w, h) && AllInGrid(a, w, h) && Shaped(m2, w, h)
    requires forall x, y :: 0 <= x < w && 0 <= y < h ==>
      m2[x][y] == m[x][y].(score := m[x][y].score + (if Point(x, y) in a then 1 else 0))
    ensures ScoredBy(m2, hist + [DedupLast(a)], w, h)
  {
    var f := DedupLast(a);
    var h2 := hist + [f];
    forall x, y | 0 <= x < w && 0 <= y < h
      ensures m2[x][y].x == x && m2[x][y].y == y && m2[x][y].score == Count(h2, Point(x, y))
    {
      CountPush(hist, f, Point(x, y));
    }
    DedupInGrid(a, w, h);
    forall i | 0 <= i < |h2|
      ensures NoDup(h2[i]) && AllInGrid(h2[i], w, h)
    {
      if i < |hist| {
        assert h2[i] == hist[i];
      }
    }
  }

  /** Claiming cells changes only who holds them, so the scores still count
    * the stored frames. */
  lemma ClaimsKeepScored(m: Matrix, hist: seq<seq<Point>>, pts: seq<Point>, threshold: int, w: int, h: int)
    requires ScoredBy(m, hist, w, h) && AllInGrid(pts, w, h)
    ensures ScoredBy(Claims(m, pts, 0, |pts|, threshold, w, h), hist, w, h)
  {
    var r: Matrix := Claims(m, pts, 0, |pts|, threshold, w, h);
    forall x, y | 0 <= x < w && 0 <= y < h
      ensures r[x][y].x == x && r[x][y].y == y && r[x][y].score == Count(hist, Point(x, y))
    {
      ClaimsFirstArrival(m, pts, 0, |pts|, threshold, w, h, Point(x, y));
    }
  }

  /** `r` is `m` with exactly those cells of the oldest frame of `hist` freed
    * whose count drops below `bound` once that frame is gone. */
  predicate FreedOldest(m: Matrix, r: Matrix, hist: seq<seq<Point>>, bound: int, w: int, h: int)
    requires |hist| > 0 && Shaped(m, w, h) && Shaped(r, w, h)
  {
    forall x, y :: 0 <= x < w && 0 <= y < h ==>
      r[x][y].pointIdx == if Point(x, y) in hist[0] && Count(hist, Point(x, y)) - 1 < bound then -1 else m[x][y].pointIdx
  }

  /** Releasing the oldest frame and erasing it keeps the scores equal to the
    * counts, and frees exactly the cells of that frame whose count drops
    * below `bound`. */
  lemma EvictKeepsScored(m: Matrix, hist: seq<seq<Point>>, bound: int, w: int, h: int)
    requires ScoredBy(m, hist, w, h) && |hist| > 0
    ensures AllInGrid(hist[0], w, h)
    ensures var r := Release(m, hist[0], 0, |hist[0]|, bound, w, h);
      && ScoredBy(r, hist[1..], w, h)
      && FreedOldest(m, r, hist, bound, w, h)
  {
    var f := hist[0];
    assert NoDup(f) && AllInGrid(f, w, h);
    var r: Matrix := Release(m, f, 0, |f|, bound, w, h);
    assert f[0..|f|] == f;
    forall x, y | 0 <= x < w && 0 <= y < h
      ensures r[x][y] == m[x][y].(score := Count(hist[1..], Point(x, y)),
                                  pointIdx := if Point(x, y) in f && Count(hist, Point(x, y)) - 1 < bound then -1 else m[x][y].pointIdx)
    {
      ReleaseEffect(m, f, 0, |f|, bound, w, h, Point(x, y));
      CountDropFirst(hist, Point(x, y));
    }
    assert forall i :: 0 <= i < |hist[1..]| ==> hist[1..][i] == hist[i + 1];
  }

  /** One step of the backward dedupe scan at index `i`: the list whose suffix
    * after `i` is deduplicated becomes the list whose suffix from `i` is
    * deduplicated by erasing `a[i]` exactly when it occurs later. */
  lemma DedupStep(a: seq<Point>, i: int)
    requires 0 <= i < |a|
    ensures var na := a[..i + 1] + DedupLast(a[i + 1..]);
      a[..i] + DedupLast(a[i..]) == if a[i] in a[i + 1..] then na[..i] + na[i + 1..] else na
  {
    assert a[i..][1..] == a[i + 1..];
    assert a[..i + 1] == a[..i] + [a[i]];
    var na := a[..i + 1] + DedupLast(a[i + 1..]);
    if a[i] in a[i + 1..] {
      assert na[..i] == a[..i];
      assert na[i + 1..] == DedupLast(a[i + 1..]);
    }
  }

  /** `r` is `m` with one more point of score on every cell of `seen`. */
  predicate Bumped(m: Matrix, r: Matrix, seen: set<Point>, w: int, h: int)
    requires Shaped(m, w, h)
  {
    && Shaped(r, w, h)
    && forall x, y :: 0 <= x < w && 0 <= y < h ==>
         r[x][y] == m[x][y].(score := m[x][y].score + (if Point(x, y) in seen then 1 else 0))
  }

  /** Adding a point to the score of a cell not yet counted extends `Bumped` to that cell. */
  lemma BumpStep(m: Matrix, r: Matrix, seen: set<Point>, c: Point, w: int, h: int)
    requires Shaped(m, w, h) && Bumped(m, r, seen, w, h) && InGrid(c, w, h) && c !in seen
    ensures Bumped(m, r[c.x := r[c.x][c.y := r[c.x][c.y].(score := r[c.x][c.y].score + 1)]], seen + {c}, w, h)
  {
  }

  /** Lines 297-315 of `addAttractorsAvg`: scanning `a` from the back with a
    * `w` by `h` table of cells seen, each cell seen already is erased and
    * every other one adds a point to its score. Returns the remaining list
    * and the updated grid. */
  method CountFrame(m: Matrix, a: seq<Point>, w: int, h: int) returns (na: seq<Point>, r: Matrix)
    requires w >= 0 && h >= 0 && Shaped(m, w, h) && AllInGrid(a, w, h)
    ensures na == DedupLast(a)
    ensures Shaped(r, w, h)
    ensures forall x, y :: 0 <= x < w && 0 <= y < h ==>
      r[x][y] == m[x][y].(score := m[x][y].score + (if Point(x, y) in a then 1 else 0))
  {
    var temp := new int[w, h]((_, _) => 0);
    na := a;
    r := m;
    ghost var seen: set<Point> := {};
    var i := |na| - 1;
    while i >= 0
      invariant -1 <= i < |a|
      invariant na == a[..i + 1] + DedupLast(a[i + 1..])
      invariant forall c :: c in seen <==> c in a[i + 1..]
      invariant forall x, y :: 0 <= x < w && 0 <= y < h ==> temp[x, y] == if Point(x, y) in seen then 1 else 0
      invariant Bumped(m, r, seen, w, h)
    {
      var c := na[i];
      assert c == a[i];
      DedupStep(a, i);
      assert a[i..] == [a[i]] + a[i + 1..];
      if temp[c.x, c.y] == 1 {
        na := na[..i] + na[i + 1..];
      } else {
        temp[c.x, c.y] := 1;
        BumpStep(m, r, seen, c, w, h);
        r := r[c.x := r[c.x][c.y := r[c.x][c.y].(score := r[c.x][c.y].score + 1)]];
        seen := seen + {c};
      }
      i := i - 1;
    }
    assert a[0..] == a && a[..0] == [];
  }

  // ------------------------------------------------------------ movePoints

  /** One round of `rand()` and trig results for a point that moves: the two
    * `RandomFloat(-PI, PI)` draws, the cosine and sine of the chosen angle,
    * and the `atan2` of the resulting change of position. */
  datatype MoveDraw = MoveDraw(distX: real, distY: real, cosine: real, sine: real, heading: real) {
    predicate Valid() {
      -Pi <= distX <= Pi && -Pi <= distY <= Pi && -1.0 <= cosine <= 1.0 && -1.0 <= sine <= 1.0
    }
  }

  /** `int(trig * stepSize)`: never longer than the step. */
  function StepLength(trig: real, step: int): (d: int)
    requires -1.0 <= trig <= 1.0
    ensures -(if step < 0 then -step else step) <= d <= (if step < 0 then -step else step)
  {
    ScaledStep(trig, step);
    CTrunc(trig * step as real)
  }

  lemma ScaledStep(trig: real, step: int)
    requires -1.0 <= trig <= 1.0
    ensures var len := (if step < 0 then -step else step) as real; -len <= trig * step as real <= len
  {
    if step >= 0 {
      ScaleBySigned(step as real, trig);
    } else {
      ScaleBySigned((-step) as real, -trig);
      assert (-step) as real * -trig == trig * step as real;
    }
  }

  /** One axis of a move: take `c + delta`, or `c - delta` when that would
    * leave `[0, extent)`. */
  function Reflect(c: int, delta: int, extent: int): (r: int)
    ensures r == c + delta || r == c - delta
    ensures 0 <= c + delta < extent ==> r == c + delta
    ensures 0 <= c < extent && -extent <= 2 * delta <= extent ==> 0 <= r < extent
  {
    if c + delta < 0 || c + delta >= extent then c - delta else c + delta
  }

  /** Where a point that is not a claimant goes, and its new direction code. */
  function MoveOne(p: Point, dir: int, d: MoveDraw, w: int, h: int, step: int): (r: (Point, int))
    requires d.Valid()
    ensures d.distX == 0.0 && d.distY == 0.0 ==> r == (p, dir)
    ensures !(d.distX == 0.0 && d.distY == 0.0) ==> 0 <= r.1 <= 7
    ensures -(if step < 0 then -step else step) <= r.0.x - p.x <= (if step < 0 then -step else step)
    ensures -(if step < 0 then -step else step) <= r.0.y - p.y <= (if step < 0 then -step else step)
    ensures InGrid(p, w, h) && 0 <= step && 2 * step <= w && 2 * step <= h ==> InGrid(r.0, w, h)
  {
    if d.distX == 0.0 && d.distY == 0.0 then (p, dir)
    else
      var dx := StepLength(d.cosine, step);
      var dy := StepLength(d.sine, step);
      (Point(Reflect(p.x, dx, w), Reflect(p.y, dy, h)), Rads2Dir(d.heading))
  }

  /** `s` extended with zeros to length `n` (the `push_back(0)` loops). */
  function PadZeros(s: seq<int>, n: int): (r: seq<int>)
    ensures |r| == (if |s| < n then n else |s|)
    ensures r[..|s|] == s
    ensures forall i :: |s| <= i < |r| ==> r[i] == 0
  {
    if |s| < n then s + seq(n - |s|, _ => 0) else s
  }

  /** The `landed` / `sudo_landed` pair of a tracked point is (0, 0) before it
    * lands, (1, 1) on its first update as claimant, and (0, 2) afterwards. */
  predicate LandedConsistent(landed: int, sudo: int) {
    (sudo == 0 && landed == 0) || (sudo == 1 && landed == 1) || (sudo == 2 && landed == 0)
  }

  /** The `landed` bookkeeping of one tracked point. */
  function LandedStep(claimant: bool, landed: int, sudo: int): (r: (int, int))
    ensures LandedConsistent(landed, sudo) ==> LandedConsistent(r.0, r.1)
    ensures LandedConsistent(landed, sudo) && claimant ==> (r.0 == 1 <==> sudo == 0)
    ensures claimant ==> r.1 != 0
    ensures !claimant ==> r == (0, 0)
  {
    if claimant then
      (if sudo == 0 then (1, 1) else if sudo == 1 then (0, 2) else (landed, sudo))
    else (0, 0)
  }

  /** The pair after `k` updates as claimant, starting unclaimed. */
  function LandedAfter(k: nat): (int, int) {
    if k == 0 then (0, 0) else var p := LandedAfter(k - 1); LandedStep(true, p.0, p.1)
  }

  /** A point that stays a claimant reports `landed == 1` on its first update only. */
  lemma {:induction false} LandedOnce(k: nat)
    requires k >= 1
    ensures LandedAfter(k).0 == 1 <==> k == 1
    ensures k >= 2 ==> LandedAfter(k) == (0, 2)
  {
    if k > 2 {
      LandedOnce(k - 1);
    }
  }

  /** The point, direction and landing lists `movePoints` works on. */
  datatype Movers = Movers(points: seq<Point>, dirs: seq<int>, landed: seq<int>, sudoLanded: seq<int>)

  /** Point `k` holds its cell. */
  predicate Claimant(m: Matrix, pts: seq<Point>, k: int)
    requires 0 <= k < |pts| && Fits(m, pts[k])
  {
    m[pts[k].x][pts[k].y].pointIdx == k
  }

  /** Where point `k` ends up, with its direction code: a claimant stays. */
  function MovedAt(m: Matrix, pts: seq<Point>, dirs: seq<int>, draws: seq<MoveDraw>, w: int, h: int, step: int, k: int): (Point, int)
    requires 0 <= k < |pts| && k < |dirs| && k < |draws| && draws[k].Valid() && Fits(m, pts[k])
  {
    if Claimant(m, pts, k) then (pts[k], dirs[k]) else MoveOne(pts[k], dirs[k], draws[k], w, h, step)
  }

  /** The landing pair of point `k` after the pass; only the first `tracked` points are tracked. */
  function MarkAt(m: Matrix, pts: seq<Point>, landed: seq<int>, sudo: seq<int>, tracked: int, k: int): (int, int)
    requires 0 <= k < |landed| && k < |sudo|
    requires k < tracked ==> k < |pts| && Fits(m, pts[k])
  {
    if k < tracked then LandedStep(Claimant(m, pts, k), landed[k], sudo[k]) else (landed[k], sudo[k])
  }

  /** `movePoints`: claimants stay, every other point moves; the first
    * `n / soundDivisor` points keep their landing bookkeeping. */
  function MoveAll(m: Matrix, s: Movers, draws: seq<MoveDraw>, w: int, h: int, step: int, soundDivisor: int): (r: Movers)
    requires soundDivisor > 0 && |draws| == |s.points| && |s.landed| == |s.sudoLanded|
    requires forall k :: 0 <= k < |draws| ==> draws[k].Valid()
    requires Shaped(m, w, h) && AllInGrid(s.points, w, h)
    ensures |r.points| == |s.points|
    ensures 0 <= step && 2 * step <= w && 2 * step <= h ==> forall k :: 0 <= k < |r.points| ==> InGrid(r.points[k], w, h)
    ensures forall k :: 0 <= k < |s.points| && Fits(m, s.points[k]) && Claimant(m, s.points, k) ==> r.points[k] == s.points[k]
    ensures (forall k :: 0 <= k < |s.landed| ==> LandedConsistent(s.landed[k], s.sudoLanded[k]))
      ==> |r.landed| == |r.sudoLanded| && forall k :: 0 <= k < |r.landed| ==> LandedConsistent(r.landed[k], r.sudoLanded[k])
  {
    ShapedFits(m, w, h);
    var n := |s.points|;
    var tracked := n / soundDivisor;
    DivAtMost(n, soundDivisor);
    var d0 := PadZeros(s.dirs, n);
    var l0 := PadZeros(s.landed, tracked);
    var s0 := PadZeros(s.sudoLanded, tracked);
    Movers(
      seq(n, k requires 0 <= k < n => MovedAt(m, s.points, d0, draws, w, h, step, k).0),
      seq(|d0|, k requires 0 <= k < |d0| => if k < n then MovedAt(m, s.points, d0, draws, w, h, step, k).1 else d0[k]),
      seq(|l0|, k requires 0 <= k < |l0| => MarkAt(m, s.points, l0, s0, tracked, k).0),
      seq(|l0|, k requires 0 <= k < |l0| => MarkAt(m, s.points, l0, s0, tracked, k).1))
  }

  // ---------------------------------------------------------------- classes

  /** The file-scope `attractorMatrix`, `attractorHistory` and `staticPoints`,
    * shared by every BeeHandle, with the two free functions that work on them. */
  class Statics {
    var matrix: Matrix
    var history: seq<seq<Point>>
    var staticPoints: seq<Point>

    /** The statics as the program starts: all empty. */
    constructor ()
      ensures matrix == [] && history == [] && staticPoints == []
    {
      matrix := [];
      history := [];
      staticPoints := [];
    }

    /** `UpdateAttractorMatrix`: points `[start, end)` claim free, well-scored
      * cells. `w` and `h` name the grid size the caller set up. */
    method UpdateAttractorMatrix(start: int, end: int, avgPercent: int, storedFrames: int, ghost w: int, ghost h: int)
      requires 0 <= start <= end <= |staticPoints|
      requires Shaped(matrix, w, h) && AllInGrid(staticPoints, w, h)
      modifies this
      ensures history == old(history) && staticPoints == old(staticPoints)
      ensures matrix == Claims(old(matrix), staticPoints, start, end, avgPercent * |history|, w, h)
    {
      ghost var m0 := matrix;
      ghost var threshold := avgPercent * |history|;
      var p := start;
      while p < end
        invariant start <= p <= end
        invariant history == old(history) && staticPoints == old(staticPoints)
        invariant matrix == Claims(m0, staticPoints, start, p, threshold, w, h)
      {
        var x := staticPoints[p].x;
        var y := staticPoints[p].y;
        var pointIdx := matrix[x][y].pointIdx;
        var score := matrix[x][y].score;
        if pointIdx == -1 && score > avgPercent * |history| {
          matrix := matrix[x := matrix[x][y := matrix[x][y].(pointIdx := p)]];
        }
        p := p + 1;
      }
    }

    /** `removeLastFrame`: cells `[start, end)` of the oldest frame lose one
      * point of score and are freed when they fall below `avgPercent` times
      * the number of stored frames. */
    method RemoveLastFrame(start: int, end: int, avgPercent: real, ghost w: int, ghost h: int)
      requires |history| > 0 && 0 <= start <= end <= |history[0]|
      requires Shaped(matrix, w, h) && AllInGrid(history[0], w, h)
      modifies this
      ensures history == old(history) && staticPoints == old(staticPoints)
      ensures matrix == Release(old(matrix), history[0], start, end, Ceil(Threshold(avgPercent, |history|)), w, h)
    {
      ghost var m0 := matrix;
      ghost var bound := Ceil(Threshold(avgPercent, |history|));
      var i := start;
      while i < end
        invariant start <= i <= end
        invariant history == old(history) && staticPoints == old(staticPoints)
        invariant matrix == Release(m0, history[0], start, i, bound, w, h)
      {
        var c := history[0][i];
        var a := matrix[c.x][c.y];
        a := a.(score := a.score - 1);
        ThresholdIsProduct(avgPercent, |history|);
        BelowCeil(a.score, avgPercent * |history| as real);
        if (a.score as real) < avgPercent * |history| as real {
          a := a.(pointIdx := -1);
        }
        matrix := matrix[c.x := matrix[c.x][c.y := a]];
        i := i + 1;
      }
    }

    /** The thread loop of `updatePoints` (lines 207-239): one
      * `UpdateAttractorMatrix` call per range, in thread order. */
    method ClaimInRanges(threads: int, avgPercent: int, storedFrames: int, ghost w: int, ghost h: int)
      requires threads > 0 && Shaped(matrix, w, h) && AllInGrid(staticPoints, w, h)
      modifies this
      ensures history == old(history) && staticPoints == old(staticPoints)
      ensures matrix == Claims(old(matrix), staticPoints, 0, |staticPoints|, avgPercent * |history|, w, h)
    {
      var n := |staticPoints|;
      ghost var m0 := matrix;
      ghost var threshold := avgPercent * |history|;
      SharesTile(n, threads);
      var t := 0;
      while t < threads
        invariant 0 <= t <= threads
        invariant history == old(history) && staticPoints == old(staticPoints)
        invariant matrix == Claims(m0, staticPoints, 0, ShareStart(t, n, threads), threshold, w, h)
      {
        match ThreadRange(t, n, threads) {
          case Some(r) =>
            UpdateAttractorMatrix(r.0, r.1, avgPercent, storedFrames, w, h);
            ClaimsSplit(m0, staticPoints, 0, r.0, r.1, threshold, w, h);
          case None =>
        }
        t := t + 1;
      }
    }

    /** The thread loop of `addAttractorsAvg` (lines 336-368): one
      * `removeLastFrame` call per range of the oldest frame, in thread order. */
    method ReleaseInRanges(threads: int, avgPercent: real, ghost w: int, ghost h: int)
      requires threads > 0 && |history| > 0
      requires Shaped(matrix, w, h) && AllInGrid(history[0], w, h)
      modifies this
      ensures history == old(history) && staticPoints == old(staticPoints)
      ensures matrix == Release(old(matrix), history[0], 0, |history[0]|, Ceil(Threshold(avgPercent, |history|)), w, h)
    {
      var n := |history[0]|;
      ghost var m0 := matrix;
      ghost var bound := Ceil(Threshold(avgPercent, |history|));
      SharesTile(n, threads);
      var t := 0;
      while t < threads
        invariant 0 <= t <= threads
        invariant history == old(history) && staticPoints == old(staticPoints)
        invariant matrix == Release(m0, history[0], 0, ShareStart(t, n, threads), bound, w, h)
      {
        match ThreadRange(t, n, threads) {
          case Some(r) =>
            RemoveLastFrame(r.0, r.1, avgPercent, w, h);
            ReleaseSplit(m0, history[0], 0, r.0, r.1, bound, w, h);
          case None =>
        }
        t := t + 1;
      }
    }
  }

  class BeeHandle {
    /** The `SwarmStrategy` base part: points, attractors and grid size. */
    const base: SwarmStrategy.Strategy
    /** The file-scope statics this handle works on. */
    const shared: Statics
    const randomFactor: real
    const numThreads: int
    const storedFrames: int
    const avgPercent: real
    const soundDivisor: int
    var dirs: seq<int>
    var landed: seq<int>
    var sudoLanded: seq<int>

    /** The most frames the history keeps between calls. */
    function HistoryCap(): nat {
      if storedFrames < 0 then 0 else storedFrames
    }

    /** The grid matches the base dimensions, each cell knows its position and
      * its score counts the stored frames containing it, and every stored
      * frame is a duplicate-free list of grid cells. */
    ghost predicate Scored()
      reads shared
    {
      ScoredBy(shared.matrix, shared.history, base.xWidth, base.yWidth)
    }

    ghost predicate Valid()
      reads this, shared
    {
      && Scored()
      && |shared.history| <= HistoryCap()
      && |landed| == |sudoLanded|
      && (forall i :: 0 <= i < |landed| ==> LandedConsistent(landed[i], sudoLanded[i]))
    }

    function Snapshot(): Movers
      reads this, base
    {
      Movers(base.points, dirs, landed, sudoLanded)
    }

    /** The constructor: a fresh grid of free, zero-score cells and empty
      * history, static points and per-point lists. */
    constructor (shared: Statics, xwidth: int, ywidth: int, stepsize: int, randomfactor: real,
                 numthreads: int, storedFrames: int, avgPercent: real, soundDivisor: int)
      requires xwidth >= 0 && ywidth >= 0
      modifies shared
      ensures fresh(base) && this.shared == shared
      ensures base.xWidth == xwidth && base.yWidth == ywidth && base.stepSize == stepsize
      ensures base.points == [] && base.attractors == []
      ensures randomFactor == randomfactor && numThreads == numthreads
      ensures this.storedFrames == storedFrames && this.avgPercent == avgPercent && this.soundDivisor == soundDivisor
      ensures Shaped(shared.matrix, xwidth, ywidth)
      ensures forall x, y :: 0 <= x < xwidth && 0 <= y < ywidth ==> shared.matrix[x][y] == Attractor(-1, 0, x, y)
      ensures shared.history == [] && shared.staticPoints == []
      ensures dirs == [] && landed == [] && sudoLanded == []
      ensures Valid()
    {
      base := new SwarmStrategy.Strategy(xwidth, ywidth, stepsize);
      this.shared := shared;
      randomFactor := randomfactor;
      numThreads := numthreads;
      this.avgPercent := avgPercent;
      this.storedFrames := storedFrames;
      this.soundDivisor := soundDivisor;
      dirs := [];
      landed := [];
      sudoLanded := [];
      new;
      var m: Matrix := seq(xwidth, _ => seq(ywidth, _ => Attractor(-1, 0, 0, 0)));
      var i := 0;
      while i < |m|
        invariant 0 <= i <= xwidth && Shaped(m, xwidth, ywidth)
        invariant forall x, y :: 0 <= x < i && 0 <= y < ywidth ==> m[x][y] == Attractor(-1, 0, x, y)
        invariant forall x, y :: i <= x < xwidth && 0 <= y < ywidth ==> m[x][y] == Attractor(-1, 0, 0, 0)
      {
        var j := 0;
        while j < |m[0]|
          invariant 0 <= j <= ywidth && Shaped(m, xwidth, ywidth)
          invariant forall x, y :: 0 <= x < i && 0 <= y < ywidth ==> m[x][y] == Attractor(-1, 0, x, y)
          invariant forall y :: 0 <= y < j ==> m[i][y] == Attractor(-1, 0, i, y)
          invariant forall y :: j <= y < ywidth ==> m[i][y] == Attractor(-1, 0, 0, 0)
          invariant forall x, y :: i < x < xwidth && 0 <= y < ywidth ==> m[x][y] == Attractor(-1, 0, 0, 0)
        {
          m := m[i := m[i][j := m[i][j].(x := i)]];
          m := m[i := m[i][j := m[i][j].(y := j)]];
          j := j + 1;
        }
        i := i + 1;
      }
      shared.matrix := m;
      shared.history := [];
      shared.staticPoints := [];
    }

    /** `get_dirs`. */
    method GetDirs() returns (r: seq<int>)
      ensures r == dirs
    {
      r := dirs;
    }

    /** `get_landed`. */
    method GetLanded() returns (r: seq<int>)
      ensures r == landed
    {
      r := landed;
    }

    /** `updatePoints`: the points are copied to `staticPoints`, the thread
      * ranges run `UpdateAttractorMatrix` one after another with the
      * truncated `avgPercent`, and then the points move. */
    method UpdatePoints(draws: seq<MoveDraw>)
      requires Valid() && numThreads > 0 && soundDivisor > 0
      requires |draws| == |base.points| && forall k :: 0 <= k < |draws| ==> draws[k].Valid()
      requires AllInGrid(base.points, base.xWidth, base.yWidth)
      modifies this, base, shared
      ensures Valid()
      ensures shared.staticPoints == old(base.points) && shared.history == old(shared.history)
      ensures shared.matrix == Claims(old(shared.matrix), old(base.points), 0, |old(base.points)|,
                                      CTrunc(avgPercent) * |old(shared.history)|, base.xWidth, base.yWidth)
      ensures Snapshot() == MoveAll(shared.matrix, old(Snapshot()), draws, base.xWidth, base.yWidth, base.stepSize, soundDivisor)
      ensures base.attractors == old(base.attractors)
    {
      ghost var m0 := shared.matrix;
      shared.staticPoints := base.points;
      shared.ClaimInRanges(numThreads, CTrunc(avgPercent), storedFrames, base.xWidth, base.yWidth);
      ClaimsKeepScored(m0, shared.history, shared.staticPoints, CTrunc(avgPercent) * |shared.history|, base.xWidth, base.yWidth);
      base.points := shared.staticPoints;
      MovePoints(draws);
    }

    /** `addAttractorsAvg`: the deduplicated frame is counted and queued, and
      * when the queue is longer than `storedFrames` its oldest frame is
      * released and erased. */
    method AddAttractorsAvg(newAttractors: seq<Point>)
      requires Valid() && AllInGrid(newAttractors, base.xWidth, base.yWidth)
      requires |shared.history| + 1 > storedFrames ==> numThreads > 0
      modifies shared
      ensures Valid()
      ensures var h := old(shared.history) + [DedupLast(newAttractors)];
        shared.history == if |h| > storedFrames then h[1..] else h
      ensures var h := old(shared.history) + [DedupLast(newAttractors)];
        forall x, y :: 0 <= x < base.xWidth && 0 <= y < base.yWidth ==>
          shared.matrix[x][y].pointIdx
            == if |h| > storedFrames && Point(x, y) in h[0] && Count(h, Point(x, y)) - 1 < Ceil(Threshold(avgPercent, |h|))
               then -1 else old(shared.matrix)[x][y].pointIdx
      ensures shared.staticPoints == old(shared.staticPoints)
    {
      PushFrame(newAttractors);
      if |shared.history| > storedFrames {
        EvictOldest();
      }
    }

    /** Lines 297-318 of `addAttractorsAvg`: drop repeated cells scanning from
      * the back, add one to the score of each remaining cell, queue the frame. */
    method PushFrame(newAttractors: seq<Point>)
      requires Scored() && AllInGrid(newAttractors, base.xWidth, base.yWidth)
      modifies shared
      ensures Scored()
      ensures shared.history == old(shared.history) + [DedupLast(newAttractors)]
      ensures forall x, y :: 0 <= x < base.xWidth && 0 <= y < base.yWidth ==>
        shared.matrix[x][y].pointIdx == old(shared.matrix)[x][y].pointIdx
      ensures shared.staticPoints == old(shared.staticPoints)
    {
      var na, m := CountFrame(shared.matrix, newAttractors, base.xWidth, base.yWidth);
      PushKeepsScored(shared.matrix, shared.history, newAttractors, m, base.xWidth, base.yWidth);
      shared.matrix := m;
      shared.history := shared.history + [na];
    }

    /** Lines 331-372 of `addAttractorsAvg`: the thread ranges run
      * `removeLastFrame` one after another, then the oldest frame is erased. */
    method EvictOldest()
      requires Scored() && |shared.history| > 0 && numThreads > 0
      modifies shared
      ensures Scored()
      ensures shared.history == old(shared.history)[1..]
      ensures FreedOldest(old(shared.matrix), shared.matrix, old(shared.history),
                          Ceil(Threshold(avgPercent, |old(shared.history)|)), base.xWidth, base.yWidth)
      ensures shared.staticPoints == old(shared.staticPoints)
    {
      ghost var m := shared.matrix;
      ghost var hist := shared.history;
      ghost var bound := Ceil(Threshold(avgPercent, |hist|));
      assert AllInGrid(hist[0], base.xWidth, base.yWidth);
      shared.ReleaseInRanges(numThreads, avgPercent, base.xWidth, base.yWidth);
      shared.history := shared.history[1..];
      EvictKeepsScored(m, hist, bound, base.xWidth, base.yWidth);
    }

    /** `movePoints`. */
    method MovePoints(draws: seq<MoveDraw>)
      requires Valid() && soundDivisor > 0 && |draws| == |base.points|
      requires forall k :: 0 <= k < |draws| ==> draws[k].Valid()
      requires AllInGrid(base.points, base.xWidth, base.yWidth)
      modifies this, base
      ensures Snapshot() == MoveAll(shared.matrix, old(Snapshot()), draws, base.xWidth, base.yWidth, base.stepSize, soundDivisor)
      ensures base.attractors == old(base.attractors)
      ensures Valid()
    {
      var n := |base.points|;
      ghost var target := MoveAll(shared.matrix, Snapshot(), draws, base.xWidth, base.yWidth, base.stepSize, soundDivisor);
      DivAtMost(n, soundDivisor);
      var tracked := n / soundDivisor;
      GrowLists(n, tracked);
      MoveEach(draws, tracked);
      assert base.points == target.points;
      assert dirs == target.dirs;
      assert landed == target.landed;
      assert sudoLanded == target.sudoLanded;
    }

    /** The loop of `movePoints` (lines 134-185) over every point, on lists
      * already grown to size. */
    method MoveEach(draws: seq<MoveDraw>, tracked: int)
      requires Shaped(shared.matrix, base.xWidth, base.yWidth) && AllInGrid(base.points, base.xWidth, base.yWidth)
      requires |draws| == |base.points| <= |dirs| && forall k :: 0 <= k < |draws| ==> draws[k].Valid()
      requires 0 <= tracked <= |base.points| && tracked <= |landed| == |sudoLanded|
      modifies this, base
      ensures base.attractors == old(base.attractors) && |base.points| == |old(base.points)|
      ensures |dirs| == |old(dirs)| && |landed| == |old(landed)| && |sudoLanded| == |old(sudoLanded)|
      ensures forall k :: 0 <= k < |base.points| ==>
        (base.points[k], dirs[k]) == MovedAt(shared.matrix, old(base.points), old(dirs), draws, base.xWidth, base.yWidth, base.stepSize, k)
      ensures forall k :: |base.points| <= k < |dirs| ==> dirs[k] == old(dirs)[k]
      ensures forall k :: 0 <= k < |landed| ==>
        (landed[k], sudoLanded[k]) == MarkAt(shared.matrix, old(base.points), old(landed), old(sudoLanded), tracked, k)
    {
      var n := |base.points|;
      ghost var m := shared.matrix;
      ghost var pts0 := base.points;
      ghost var d0 := dirs;
      ghost var l0 := landed;
      ghost var s0 := sudoLanded;
      ghost var w := base.xWidth;
      ghost var h := base.yWidth;
      ghost var step := base.stepSize;
      ShapedFits(m, w, h);
      var p := 0;
      while p < n
        invariant 0 <= p <= n && |base.points| == n && base.attractors == old(base.attractors)
        invariant |dirs| == |d0| && |landed| == |l0| && |sudoLanded| == |l0|
        invariant forall k :: 0 <= k < p ==> (base.points[k], dirs[k]) == MovedAt(m, pts0, d0, draws, w, h, step, k)
        invariant forall k :: p <= k < n ==> base.points[k] == pts0[k]
        invariant forall k :: p <= k < |d0| ==> dirs[k] == d0[k]
        invariant forall k :: 0 <= k < |l0| ==> (landed[k], sudoLanded[k]) == (if k < p then MarkAt(m, pts0, l0, s0, tracked, k) else (l0[k], s0[k]))
      {
        UpdatePoint(p, draws[p], tracked);
        p := p + 1;
      }
    }

    /** The `push_back(0)` loops at the start of `movePoints`. */
    method GrowLists(n: int, tracked: int)
      requires |landed| == |sudoLanded|
      modifies this
      ensures dirs == PadZeros(old(dirs), n)
      ensures landed == PadZeros(old(landed), tracked) && sudoLanded == PadZeros(old(sudoLanded), tracked)
    {
      ghost var d0 := PadZeros(dirs, n);
      ghost var l0 := PadZeros(landed, tracked);
      ghost var s0 := PadZeros(sudoLanded, tracked);
      if n > |dirs| {
        var i := |dirs|;
        while i < n
          invariant |old(dirs)| <= i <= n && dirs == d0[..i]
          invariant landed == old(landed) && sudoLanded == old(sudoLanded)
        {
          dirs := dirs + [0];
          i := i + 1;
        }
      }
      if tracked > |landed| {
        var i := |landed|;
        while i < tracked
          invariant |old(landed)| <= i <= tracked && landed == l0[..i] && sudoLanded == s0[..i]
          invariant dirs == d0
        {
          landed := landed + [0];
          sudoLanded := sudoLanded + [0];
          i := i + 1;
        }
      }
    }

    /** One pass of the `movePoints` loop, for point `p`. */
    method UpdatePoint(p: int, d: MoveDraw, tracked: int)
      requires 0 <= p < |base.points| && p < |dirs| && d.Valid()
      requires tracked <= |landed| && |landed| == |sudoLanded|
      requires Shaped(shared.matrix, base.xWidth, base.yWidth) && InGrid(base.points[p], base.xWidth, base.yWidth)
      modifies this, base
      ensures base.attractors == old(base.attractors)
      ensures var c := old(base.points)[p];
        var claimant := shared.matrix[c.x][c.y].pointIdx == p;
        var moved := MoveOne(c, old(dirs)[p], d, base.xWidth, base.yWidth, base.stepSize);
        && base.points == old(base.points)[p := if claimant then c else moved.0]
        && dirs == old(dirs)[p := if claimant then old(dirs)[p] else moved.1]
        && landed == (if p < tracked then old(landed)[p := LandedStep(claimant, old(landed)[p], old(sudoLanded)[p]).0] else old(landed))
        && sudoLanded == (if p < tracked then old(sudoLanded)[p := LandedStep(claimant, old(landed)[p], old(sudoLanded)[p]).1] else old(sudoLanded))
    {
      var c := base.points[p];
      if shared.matrix[c.x][c.y].pointIdx == p {
        if p < tracked {
          if sudoLanded[p] == 0 {
            landed := landed[p := 1];
            sudoLanded := sudoLanded[p := 1];
          } else if sudoLanded[p] == 1 {
            landed := landed[p := 0];
            sudoLanded := sudoLanded[p := 2];
          }
        }
      } else {
        if p < tracked {
          landed := landed[p := 0];
          sudoLanded := sudoLanded[p := 0];
        }
        if !(d.distX == 0.0 && d.distY == 0.0) {
          var dx := StepLength(d.cosine, base.stepSize);
          var dy := StepLength(d.sine, base.stepSize);
          var newX := c.x + dx;
          var newY := c.y + dy;
          var x, y;
          if newX < 0 || newX >= base.xWidth {
            x := c.x - dx;
          } else {
            x := newX;
          }
          if newY < 0 || newY >= base.yWidth {
            y := c.y - dy;
          } else {
            y := newY;
          }
          base.points := base.points[p := Point(x, y)];
          dirs := dirs[p := Rads2Dir(d.heading)];
        }
      }
    }
  }
}
