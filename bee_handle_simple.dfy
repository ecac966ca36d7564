/** The older potential-driven bee mover of oldsrc/BeeHandleSimple.hpp: each
  * bee tries one random step of `move_dist` pixels in one of the eight compass
  * directions, takes it only when the potential there is higher, remembers
  * its last `DIR_MEMORY` directions, and counts consecutive landings for one
  * bee in every `sound_divisor`. */
module BeeHandleSimple {
  import opened Common

  /** `NUM_THREADS`: the bee list is cut into this many equal shares. */
  const NumThreads := 8
  /** `DIR_MEMORY`: the number of past directions kept per bee. */
  const DirMemory := 10

  /** `x_y_to_dir`: the compass number of a step with components in {-1, 0, 1},
    * counted clockwise from north (y = -1 is north). A step of (0, 0) yields
    * `rand() % 3 - 1`, with `rnd` standing for the `rand()` result. */
  function XYToDir(x: int, y: int, rnd: nat): (d: int)
    ensures x == 0 && y == 0 ==> -1 <= d <= 1
    ensures !(x == 0 && y == 0) ==> 0 <= d < 8
  {
    if x == -1 then
      (if y == -1 then 7 else if y == 0 then 6 else 5)
    else if x == 0 then
      (if y == -1 then 0 else if y == 0 then rnd % 3 - 1 else 4)
    else
      (if y == -1 then 1 else if y == 0 then 2 else 3)
  }

  /** The unit step of each compass direction, clockwise from north. */
  function DirStep(d: int): (s: Point)
    requires 0 <= d < 8
    ensures -1 <= s.x <= 1 && -1 <= s.y <= 1 && s != Point(0, 0)
  {
    [Point(0, -1), Point(1, -1), Point(1, 0), Point(1, 1),
     Point(0, 1), Point(-1, 1), Point(-1, 0), Point(-1, -1)][d]
  }

  /** `x_y_to_dir` and the compass table are inverse on the eight non-zero steps. */
  lemma XYToDirInvertsDirStep(d: int, rnd: nat)
    requires 0 <= d < 8
    ensures XYToDir(DirStep(d).x, DirStep(d).y, rnd) == d
  {
  }

  lemma DirStepInvertsXYToDir(x: int, y: int, rnd: nat)
    requires -1 <= x <= 1 && -1 <= y <= 1 && !(x == 0 && y == 0)
    ensures DirStep(XYToDir(x, y, rnd)) == Point(x, y)
  {
  }

  /** One coordinate of the candidate position: `(old + move * dist) % max`
    * with C's remainder, a negative result replaced by `max - 1`. */
  function Candidate(coord: int, move: int, dist: int, max: int): (c: int)
    requires max > 0
    ensures 0 <= c < max
    ensures 0 <= coord + move * dist < max ==> c == coord + move * dist
    ensures coord + move * dist >= 0 ==> c == (coord + move * dist) % max
  {
    var v := CMod(coord + move * dist, max);
    if v < 0 then max - 1 else v
  }

  /** The random inputs of one bee's move: the two `rand() % 3 - 1` step
    * components, the `rand()` behind a zero step's direction, and what
    * `get_potential` reports for the current and the candidate position. */
  datatype MoveDraw = MoveDraw(
    moveX: int, moveY: int, dirRand: nat,
    currPotential: real, newPotential: real,
    landedHere: bool, landedThere: bool)

  predicate DrawOk(d: MoveDraw)
  {
    -1 <= d.moveX <= 1 && -1 <= d.moveY <= 1
  }

  /** A move is taken only when the candidate's potential is strictly higher. */
  predicate Accepted(d: MoveDraw)
  {
    d.newPotential > d.currPotential
  }

  /** The position after one move attempt. */
  function MovedPos(p: Point, d: MoveDraw, dist: int, maxX: int, maxY: int): (q: Point)
    requires maxX > 0 && maxY > 0
    ensures Accepted(d) ==> 0 <= q.x < maxX && 0 <= q.y < maxY
    ensures !Accepted(d) ==> q == p
  {
    if Accepted(d) then Point(Candidate(p.x, d.moveX, dist, maxX), Candidate(p.y, d.moveY, dist, maxY))
    else p
  }

  /** Drop the oldest direction at the back and insert the new one at the front. */
  function Remember(past: seq<int>, dir: int): (r: seq<int>)
    requires |past| > 0
    ensures |r| == |past| && r[0] == dir
    ensures forall j :: 1 <= j < |r| ==> r[j] == past[j - 1]
  {
    [dir] + past[..|past| - 1]
  }

  /** The direction memory after one move attempt (a valid handle never has
    * an empty memory, which `pop_back` would not allow). */
  function MovedDirs(past: seq<int>, d: MoveDraw): (r: seq<int>)
    ensures |r| == |past|
  {
    if Accepted(d) && |past| > 0 then Remember(past, XYToDir(d.moveX, d.moveY, d.dirRand)) else past
  }

  /** The landing counter of a tracked bee: one more when the position it ends
    * up at is a landing, otherwise reset to 0. */
  function LandedCount(count: int, d: MoveDraw): (r: int)
    ensures (if Accepted(d) then d.landedThere else d.landedHere) ==> r == count + 1
    ensures !(if Accepted(d) then d.landedThere else d.landedHere) ==> r == 0
  {
    if (if Accepted(d) then d.landedThere else d.landedHere) then count + 1 else 0
  }

  /** The positions after the bees `lo .. hi - 1` have each made one move attempt. */
  function MovedRange(bs: seq<Point>, draws: seq<MoveDraw>, lo: int, hi: int, dist: int, maxX: int, maxY: int): (r: seq<Point>)
    requires maxX > 0 && maxY > 0 && |draws| == |bs| && 0 <= lo <= hi <= |bs|
    ensures |r| == |bs|
    decreases hi - lo
  {
    if hi == lo then bs
    else
      var r := MovedRange(bs, draws, lo, hi - 1, dist, maxX, maxY);
      r[hi - 1 := MovedPos(r[hi - 1], draws[hi - 1], dist, maxX, maxY)]
  }

  /** The direction memories after the bees `lo .. hi - 1` have each made one move attempt. */
  function MovedDirsRange(ps: seq<seq<int>>, draws: seq<MoveDraw>, lo: int, hi: int): (r: seq<seq<int>>)
    requires |draws| == |ps| && 0 <= lo <= hi <= |ps|
    ensures |r| == |ps|
    decreases hi - lo
  {
    if hi == lo then ps
    else
      var r := MovedDirsRange(ps, draws, lo, hi - 1);
      r[hi - 1 := MovedDirs(r[hi - 1], draws[hi - 1])]
  }

  /** Each bee of the range has made exactly its own move attempt and every
    * other bee is where it was. */
  lemma {:induction false} MovedRangeEffect(bs: seq<Point>, ps: seq<seq<int>>, draws: seq<MoveDraw>, lo: int, hi: int, dist: int, maxX: int, maxY: int)
    requires maxX > 0 && maxY > 0 && |draws| == |bs| == |ps| && 0 <= lo <= hi <= |bs|
    ensures forall j :: 0 <= j < |bs| ==>
      MovedRange(bs, draws, lo, hi, dist, maxX, maxY)[j]
        == (if lo <= j < hi then MovedPos(bs[j], draws[j], dist, maxX, maxY) else bs[j])
    ensures forall j :: 0 <= j < |ps| ==>
      MovedDirsRange(ps, draws, lo, hi)[j] == (if lo <= j < hi then MovedDirs(ps[j], draws[j]) else ps[j])
    decreases hi - lo
  {
    if hi > lo {
      MovedRangeEffect(bs, ps, draws, lo, hi - 1, dist, maxX, maxY);
    }
  }

  /** Moving `[lo, mid)` and then `[mid, hi)` is moving `[lo, hi)`. */
  lemma MovedRangeSplit(bs: seq<Point>, ps: seq<seq<int>>, draws: seq<MoveDraw>, lo: int, mid: int, hi: int, dist: int, maxX: int, maxY: int)
    requires maxX > 0 && maxY > 0 && |draws| == |bs| == |ps| && 0 <= lo <= mid <= hi <= |bs|
    ensures MovedRange(MovedRange(bs, draws, lo, mid, dist, maxX, maxY), draws, mid, hi, dist, maxX, maxY)
         == MovedRange(bs, draws, lo, hi, dist, maxX, maxY)
    ensures MovedDirsRange(MovedDirsRange(ps, draws, lo, mid), draws, mid, hi)
         == MovedDirsRange(ps, draws, lo, hi)
  {
    var b1, p1 := MovedRange(bs, draws, lo, mid, dist, maxX, maxY), MovedDirsRange(ps, draws, lo, mid);
    MovedRangeEffect(bs, ps, draws, lo, mid, dist, maxX, maxY);
    MovedRangeEffect(b1, p1, draws, mid, hi, dist, maxX, maxY);
    MovedRangeEffect(bs, ps, draws, lo, hi, dist, maxX, maxY);
  }

  /** The slot of `landed` that bee `i` writes when `i % sd == 0`. */
  function Slot(i: int, sd: int): int
    requires sd > 0
  {
    i / sd
  }

  /** Every tracked bee in `[lo, hi)` has its slot inside `landed`. */
  predicate LandedCovers(landed: seq<int>, lo: int, hi: int, sd: int)
    requires sd > 0
  {
    forall i :: lo <= i < hi && i % sd == 0 ==> 0 <= Slot(i, sd) < |landed|
  }

  /** The landing counters after the bees `lo .. hi - 1` have moved in order
    * (a slot outside `landed` is where the source's `landed.at` throws; the
    * moving methods rule it out with `LandedCovers`). */
  function LandedRange(landed: seq<int>, draws: seq<MoveDraw>, lo: int, hi: int, sd: int): (r: seq<int>)
    requires sd > 0 && 0 <= lo <= hi <= |draws|
    ensures |r| == |landed|
    decreases hi - lo
  {
    if hi == lo then landed
    else
      var l := LandedRange(landed, draws, lo, hi - 1, sd);
      var k := Slot(hi - 1, sd);
      if (hi - 1) % sd == 0 && 0 <= k < |l| then l[k := LandedCount(l[k], draws[hi - 1])]
      else l
  }

  /** Landing counters are never negative: each is a count of consecutive landings. */
  lemma {:induction false} LandedRangeNonNegative(landed: seq<int>, draws: seq<MoveDraw>, lo: int, hi: int, sd: int)
    requires sd > 0 && 0 <= lo <= hi <= |draws|
    requires forall k :: 0 <= k < |landed| ==> landed[k] >= 0
    ensures forall k :: 0 <= k < |landed| ==> LandedRange(landed, draws, lo, hi, sd)[k] >= 0
    decreases hi - lo
  {
    if hi > lo {
      LandedRangeNonNegative(landed, draws, lo, hi - 1, sd);
    }
  }

  /** Moving `[lo, mid)` and then `[mid, hi)` is moving `[lo, hi)`. */
  lemma {:induction false} LandedRangeSplit(landed: seq<int>, draws: seq<MoveDraw>, lo: int, mid: int, hi: int, sd: int)
    requires sd > 0 && 0 <= lo <= mid <= hi <= |draws|
    ensures LandedRange(LandedRange(landed, draws, lo, mid, sd), draws, mid, hi, sd)
         == LandedRange(landed, draws, lo, hi, sd)
    decreases hi - mid
  {
    if hi > mid {
      LandedRangeSplit(landed, draws, lo, mid, hi - 1, sd);
    }
  }

  /** Coverage depends only on the length of `landed` and shrinks with the range. */
  lemma LandedCoversWithin(landed: seq<int>, other: seq<int>, lo: int, hi: int, lo2: int, hi2: int, sd: int)
    requires sd > 0 && |other| == |landed| && lo <= lo2 && hi2 <= hi
    requires LandedCovers(landed, lo, hi, sd)
    ensures LandedCovers(other, lo2, hi2, sd)
  {
  }

  /** `resize(k)` followed by `fill(..., 0)`: `k` zeros. */
  function Zeros(k: nat): (r: seq<int>)
    ensures |r| == k && forall i :: 0 <= i < k ==> r[i] == 0
  {
    seq(k, _ => 0)
  }

  /** The size `landed` should have for `n` bees: one slot per multiple of `sd`
    * below `n`, that is `n / sd` rounded up. */
  function LandedSlots(n: int, sd: int): (k: int)
    requires n >= 0 && sd > 0
    ensures k >= 0
  {
    (n + sd - 1) / sd
  }

  /** With `LandedSlots(n, sd)` slots every tracked bee below `n` has its slot. */
  lemma LandedSlotsCover(n: int, sd: int)
    requires n >= 0 && sd > 0
    ensures LandedCovers(Zeros(LandedSlots(n, sd)), 0, n, sd)
  {
    forall i | 0 <= i < n && i % sd == 0
      ensures Slot(i, sd) < LandedSlots(n, sd)
    {
      SlotBelow(i, n, sd);
    }
  }

  /** A multiple of `sd` below `n` has its slot below `n / sd` rounded up. */
  lemma SlotBelow(i: int, n: int, sd: int)
    requires sd > 0 && 0 <= i < n && i % sd == 0
    ensures i / sd < (n + sd - 1) / sd
  {
    var q := i / sd;
    assert i == sd * q + i % sd;
    assert (q + 1) * sd == i + sd;
    DivAtLeast(n + sd - 1, sd, q + 1);
  }

  /** `add_bees(int)` as written sizes `landed` to `num_bees / sound_divisor`:
    * with 16 bees and a divisor of 3 there are 5 slots, yet bee 15 is moved
    * (16 bees fill all eight thread shares of 2) and writes slot 5, so
    * `landed.at` throws. */
  lemma LandedSizeAsWrittenTooSmall()
    ensures 15 < NumThreads * (16 / NumThreads) && 15 % 3 == 0
    ensures Slot(15, 3) == 16 / 3
    ensures !LandedCovers(Zeros(16 / 3), 0, NumThreads * (16 / NumThreads), 3)
  {
    assert 15 % 3 == 0 && Slot(15, 3) == 5;
  }

  /** `bee_per_thread * thread_num`: where thread `t`'s share of `n` bees
    * starts. Every share ends inside the first `NUM_THREADS * (n / NUM_THREADS)`
    * bees. */
  function ShareStart(n: int, t: int): (s: int)
    requires n >= 0 && 0 <= t <= NumThreads
    ensures 0 <= s <= NumThreads * (n / NumThreads) <= n
    ensures t < NumThreads ==> s + n / NumThreads <= NumThreads * (n / NumThreads)
  {
    ShareBound(n / NumThreads, t);
    (n / NumThreads) * t
  }

  /** The eight shares cover `n - n % NUM_THREADS` bees: the last
    * `n % NUM_THREADS` bees keep their position and memory. */
  lemma TailNeverMoves(bs: seq<Point>, ps: seq<seq<int>>, draws: seq<MoveDraw>, dist: int, maxX: int, maxY: int)
    requires maxX > 0 && maxY > 0 && |draws| == |bs| == |ps|
    ensures ShareStart(|bs|, NumThreads) == |bs| - |bs| % NumThreads
    ensures forall j :: ShareStart(|bs|, NumThreads) <= j < |bs| ==>
      MovedRange(bs, draws, 0, ShareStart(|bs|, NumThreads), dist, maxX, maxY)[j] == bs[j]
      && MovedDirsRange(ps, draws, 0, ShareStart(|bs|, NumThreads))[j] == ps[j]
  {
    MovedRangeEffect(bs, ps, draws, 0, ShareStart(|bs|, NumThreads), dist, maxX, maxY);
  }

  /** Consecutive shares are adjacent. */
  lemma ShareStep(n: int, t: int)
    requires n >= 0 && 0 <= t < NumThreads
    ensures ShareStart(n, t + 1) == ShareStart(n, t) + n / NumThreads
  {
    var q := n / NumThreads;
    assert q * (t + 1) == q * t + q;
  }

  /** Later shares start later. */
  lemma ShareMonotone(n: int, t: int, u: int)
    requires n >= 0 && 0 <= t <= u <= NumThreads
    ensures ShareStart(n, t) <= ShareStart(n, u)
  {
    var q := n / NumThreads;
    assert q * u == q * t + q * (u - t);
    assert q * (u - t) >= 0;
  }

  /** `q * t` grows by `q` per step of `t` and stays below `q * NUM_THREADS`. */
  lemma ShareBound(q: nat, t: int)
    requires 0 <= t <= NumThreads
    ensures 0 <= q * t <= NumThreads * q
    ensures t < NumThreads ==> q * t + q <= NumThreads * q
  {
    assert q * t + q * (NumThreads - t) == NumThreads * q;
    assert q * (NumThreads - t) >= 0;
    if t < NumThreads {
      assert q * (NumThreads - t) >= q * 1;
    }
  }

  /** The random inputs of one new bee: the `rand()` results behind its
    * position, its current direction and its `DIR_MEMORY` past directions. */
  datatype SpawnDraw = SpawnDraw(randX: nat, randY: nat, dirRand: nat, pastRand: seq<nat>)

  /** The positions `add_bees` gives its first `k` new bees: each `rand()`
    * reduced modulo the grid size. */
  function SpawnedBees(draws: seq<SpawnDraw>, k: int, maxX: int, maxY: int): (r: seq<Point>)
    requires maxX > 0 && maxY > 0 && 0 <= k <= |draws|
    ensures |r| == k
  {
    if k == 0 then []
    else SpawnedBees(draws, k - 1, maxX, maxY) + [Point(draws[k - 1].randX % maxX, draws[k - 1].randY % maxY)]
  }

  /** The current directions `add_bees` draws for its first `k` new bees. */
  function SpawnedDirs(draws: seq<SpawnDraw>, k: int): (r: seq<int>)
    requires 0 <= k <= |draws|
    ensures |r| == k
  {
    if k == 0 then [] else SpawnedDirs(draws, k - 1) + [draws[k - 1].dirRand % 8]
  }

  /** A direction memory drawn at random: each entry a compass number. */
  function DirsFrom(rs: seq<nat>): (r: seq<int>)
    ensures |r| == |rs|
    ensures forall j :: 0 <= j < |r| ==> 0 <= r[j] < 8 && r[j] == rs[j] % 8
  {
    seq(|rs|, j requires 0 <= j < |rs| => rs[j] % 8)
  }

  /** The direction memories `add_bees` draws for its first `k` new bees. */
  function SpawnedPast(draws: seq<SpawnDraw>, k: int): (r: seq<seq<int>>)
    requires 0 <= k <= |draws|
    ensures |r| == k
  {
    if k == 0 then [] else SpawnedPast(draws, k - 1) + [DirsFrom(draws[k - 1].pastRand)]
  }

  /** Every bee `add_bees` creates is on the grid, has a compass direction,
    * and remembers the directions drawn for it. */
  lemma {:induction false} SpawnedWellFormed(draws: seq<SpawnDraw>, k: int, maxX: int, maxY: int)
    requires maxX > 0 && maxY > 0 && 0 <= k <= |draws|
    ensures forall i :: 0 <= i < k ==>
      && 0 <= SpawnedBees(draws, k, maxX, maxY)[i].x < maxX && 0 <= SpawnedBees(draws, k, maxX, maxY)[i].y < maxY
      && 0 <= SpawnedDirs(draws, k)[i] < 8
      && SpawnedPast(draws, k)[i] == DirsFrom(draws[i].pastRand)
  {
    if k > 0 {
      SpawnedWellFormed(draws, k - 1, maxX, maxY);
    }
  }

  /** The inner loop of `add_bees`: `DIR_MEMORY` directions `rand() % 8`. */
  method RandomDirs(rs: seq<nat>) returns (past: seq<int>)
    requires |rs| == DirMemory
    ensures past == DirsFrom(rs)
  {
    past := [];
    var j := 0;
    while j < DirMemory
      invariant 0 <= j <= DirMemory
      invariant past == DirsFrom(rs[..j])
    {
      assert rs[..j + 1] == rs[..j] + [rs[j]];
      past := past + [rs[j] % 8];
      j := j + 1;
    }
    assert rs[..j] == rs;
  }

  /** The per-bee averages `get_dirs` computes: C integer division of each
    * memory's sum by `DIR_MEMORY`. Memories of compass numbers or -1 average to
    * a compass number or -1. */
  function Averages(ps: seq<seq<int>>): (r: seq<int>)
    ensures |r| == |ps|
    ensures (forall i :: 0 <= i < |ps| ==> |ps[i]| == DirMemory && forall j :: 0 <= j < |ps[i]| ==> -1 <= ps[i][j] < 8)
      ==> forall i :: 0 <= i < |r| ==> -1 <= r[i] < 8
  {
    var r := seq(|ps|, i requires 0 <= i < |ps| => CDiv(Sum(ps[i]), DirMemory));
    if forall i :: 0 <= i < |ps| ==> |ps[i]| == DirMemory && forall j :: 0 <= j < |ps[i]| ==> -1 <= ps[i][j] < 8 then
      assert forall i :: 0 <= i < |ps| ==> -1 <= r[i] < 8 by {
        forall i | 0 <= i < |ps| {
          AverageBetween(ps[i], -1, 7);
        }
      }
      r
    else r
  }

  /** The inner loop of `get_dirs`: the sum of the first `n` entries. */
  method SumFirst(s: seq<int>, n: int) returns (sum: int)
    requires 0 <= n <= |s|
    ensures sum == Sum(s[..n])
  {
    sum := 0;
    var j := 0;
    while j < n
      invariant 0 <= j <= n
      invariant sum == Sum(s[..j])
    {
      assert s[..j + 1] == s[..j] + [s[j]];
      SumAppend(s[..j], s[j]);
      sum := sum + s[j];
      j := j + 1;
    }
  }

  class BeeHandle {
    var moveDist: int
    const maxX: int
    const maxY: int
    const soundDivisor: int
    var bees: seq<Point>
    var pastDirs: seq<seq<int>>
    var dirs: seq<int>
    var landed: seq<int>

    /** The three per-bee lists run in parallel; every bee is on the grid and
      * remembers `DIR_MEMORY` directions, each a compass number or the -1 a
      * zero step can produce. */
    predicate Valid()
      reads this
    {
      && |dirs| == |bees| && |pastDirs| == |bees|
      && (forall i :: 0 <= i < |bees| ==> 0 <= bees[i].x < maxX && 0 <= bees[i].y < maxY)
      && (forall i :: 0 <= i < |pastDirs| ==> |pastDirs[i]| == DirMemory)
      && (forall i, j :: 0 <= i < |pastDirs| && 0 <= j < |pastDirs[i]| ==> -1 <= pastDirs[i][j] < 8)
      && (forall i :: 0 <= i < |dirs| ==> -1 <= dirs[i] < 8)
    }

    constructor (maxX: int, maxY: int, soundDiv: int)
      ensures Valid()
      ensures this.maxX == maxX && this.maxY == maxY && soundDivisor == soundDiv
      ensures bees == [] && pastDirs == [] && dirs == [] && landed == []
    {
      this.maxX := maxX;
      this.maxY := maxY;
      soundDivisor := soundDiv;
      bees := [];
      pastDirs := [];
      dirs := [];
      landed := [];
    }

    /** `move_bee(thread_num)`: moves the bees of one thread's share,
      * `bees.size() / NUM_THREADS` consecutive bees from
      * `thread_num * share`. */
    method MoveBee(threadNum: int, draws: seq<MoveDraw>)
      requires Valid() && maxX > 0 && maxY > 0 && soundDivisor > 0
      requires 0 <= threadNum < NumThreads
      requires |draws| == |bees| && forall i :: 0 <= i < |draws| ==> DrawOk(draws[i])
      requires LandedCovers(landed, ShareStart(|bees|, threadNum), ShareStart(|bees|, threadNum + 1), soundDivisor)
      modifies this
      ensures Valid()
      ensures moveDist == old(moveDist) && dirs == old(dirs)
      ensures var lo, hi := ShareStart(|old(bees)|, threadNum), ShareStart(|old(bees)|, threadNum + 1);
        && bees == MovedRange(old(bees), draws, lo, hi, moveDist, maxX, maxY)
        && pastDirs == MovedDirsRange(old(pastDirs), draws, lo, hi)
        && landed == LandedRange(old(landed), draws, lo, hi, soundDivisor)
    {
      var share := |bees| / NumThreads;
      var start := share * threadNum;
      var end := start + share;
      ShareStep(|bees|, threadNum);
      ghost var b0, p0, l0 := bees, pastDirs, landed;
      var i := start;
      while i < end
        invariant start <= i <= end
        invariant |bees| == |b0| && |pastDirs| == |p0| && dirs == old(dirs) && moveDist == old(moveDist)
        invariant MovedFrom(b0, p0, l0, draws, start, i)
        invariant Valid()
      {
        MoveOne(i, draws[i]);
        i := i + 1;
      }
    }

    /** One pass of the `move_bee` loop body for bee `i`: try the step, take it
      * when the potential rises, remember its direction, and update the landing
      * counter when `i % sound_divisor == 0`. */
    method MoveOne(i: int, d: MoveDraw)
      requires Valid() && maxX > 0 && maxY > 0 && soundDivisor > 0
      requires 0 <= i < |bees| && DrawOk(d)
      requires i % soundDivisor == 0 ==> 0 <= Slot(i, soundDivisor) < |landed|
      modifies this
      ensures Valid()
      ensures moveDist == old(moveDist) && dirs == old(dirs)
      ensures bees == old(bees)[i := MovedPos(old(bees)[i], d, moveDist, maxX, maxY)]
      ensures pastDirs == old(pastDirs)[i := MovedDirs(old(pastDirs)[i], d)]
      ensures landed == if i % soundDivisor == 0
        then old(landed)[Slot(i, soundDivisor) := LandedCount(old(landed)[Slot(i, soundDivisor)], d)]
        else old(landed)
    {
      if d.newPotential > d.currPotential {
        var pos := Point(Candidate(bees[i].x, d.moveX, moveDist, maxX), Candidate(bees[i].y, d.moveY, moveDist, maxY));
        bees := bees[i := pos];
        var dir := XYToDir(d.moveX, d.moveY, d.dirRand);
        pastDirs := pastDirs[i := [dir] + pastDirs[i][..|pastDirs[i]| - 1]];
        if d.landedThere && i % soundDivisor == 0 {
          landed := landed[i / soundDivisor := landed[i / soundDivisor] + 1];
        } else if !d.landedThere && i % soundDivisor == 0 {
          landed := landed[i / soundDivisor := 0];
        }
      } else {
        if d.landedHere && i % soundDivisor == 0 {
          landed := landed[i / soundDivisor := landed[i / soundDivisor] + 1];
        } else if !d.landedHere && i % soundDivisor == 0 {
          landed := landed[i / soundDivisor := 0];
        }
      }
    }

    /** The lists as they stand after the bees `lo .. hi - 1` have moved from
      * `b0`, `p0` and `l0`. */
    ghost predicate MovedFrom(b0: seq<Point>, p0: seq<seq<int>>, l0: seq<int>, draws: seq<MoveDraw>, lo: int, hi: int)
      requires maxX > 0 && maxY > 0 && soundDivisor > 0
      requires |draws| == |b0| == |p0| && 0 <= lo <= hi <= |b0|
      reads this
    {
      && bees == MovedRange(b0, draws, lo, hi, moveDist, maxX, maxY)
      && pastDirs == MovedDirsRange(p0, draws, lo, hi)
      && landed == LandedRange(l0, draws, lo, hi, soundDivisor)
    }

    /** `update_movement`: stores the step length and runs the eight thread
      * shares, here one after the other. Only the first
      * `NUM_THREADS * (bees.size() / NUM_THREADS)` bees move; the last
      * `bees.size() % NUM_THREADS` never do. */
    method UpdateMovement(dist: int, draws: seq<MoveDraw>)
      requires Valid() && maxX > 0 && maxY > 0 && soundDivisor > 0
      requires |draws| == |bees| && forall i :: 0 <= i < |draws| ==> DrawOk(draws[i])
      requires LandedCovers(landed, 0, ShareStart(|bees|, NumThreads), soundDivisor)
      modifies this
      ensures Valid()
      ensures moveDist == dist && dirs == old(dirs)
      ensures var moved := ShareStart(|old(bees)|, NumThreads);
        && bees == MovedRange(old(bees), draws, 0, moved, dist, maxX, maxY)
        && pastDirs == MovedDirsRange(old(pastDirs), draws, 0, moved)
        && landed == LandedRange(old(landed), draws, 0, moved, soundDivisor)
    {
      moveDist := dist;
      ghost var n, b0, p0, l0 := |bees|, bees, pastDirs, landed;
      var t := 0;
      while t < NumThreads
        invariant 0 <= t <= NumThreads && Valid()
        invariant |bees| == n && |pastDirs| == n && |landed| == |l0|
        invariant dirs == old(dirs) && moveDist == dist
        invariant MovedFrom(b0, p0, l0, draws, 0, ShareStart(n, t))
      {
        RunShare(t, draws, b0, p0, l0);
        t := t + 1;
      }
    }

    /** One iteration of `update_movement`'s thread loop: thread `t` moves its
      * share, continuing the moves of the earlier shares. */
    method RunShare(t: int, draws: seq<MoveDraw>, ghost b0: seq<Point>, ghost p0: seq<seq<int>>, ghost l0: seq<int>)
      requires Valid() && maxX > 0 && maxY > 0 && soundDivisor > 0 && 0 <= t < NumThreads
      requires |draws| == |bees| == |b0| == |p0| && |landed| == |l0| && forall i :: 0 <= i < |draws| ==> DrawOk(draws[i])
      requires LandedCovers(l0, 0, ShareStart(|b0|, NumThreads), soundDivisor)
      requires MovedFrom(b0, p0, l0, draws, 0, ShareStart(|b0|, t))
      modifies this
      ensures Valid() && |bees| == |b0| && |pastDirs| == |p0| && |landed| == |l0|
      ensures dirs == old(dirs) && moveDist == old(moveDist)
      ensures MovedFrom(b0, p0, l0, draws, 0, ShareStart(|b0|, t + 1))
    {
      var n := |b0|;
      ShareMonotone(n, t + 1, NumThreads);
      LandedCoversWithin(l0, landed, 0, ShareStart(n, NumThreads), ShareStart(n, t), ShareStart(n, t + 1), soundDivisor);
      LandedRangeSplit(l0, draws, 0, ShareStart(n, t), ShareStart(n, t + 1), soundDivisor);
      MovedRangeSplit(b0, p0, draws, 0, ShareStart(n, t), ShareStart(n, t + 1), moveDist, maxX, maxY);
      MoveBee(t, draws);
    }

    /** `add_bees(int)`: resizes `landed` to zeros (one slot per tracked bee,
      * see `LandedSlots`) and appends `num_bees` bees at `rand() % max`
      * positions, each with a `rand() % 8` direction and `DIR_MEMORY` more. */
    method AddBees(numBees: int, draws: seq<SpawnDraw>)
      requires Valid() && maxX > 0 && maxY > 0 && soundDivisor > 0
      requires numBees >= 0 && |draws| == numBees
      requires forall i :: 0 <= i < |draws| ==> |draws[i].pastRand| == DirMemory
      modifies this
      ensures Valid()
      ensures moveDist == old(moveDist)
      ensures landed == Zeros(LandedSlots(numBees, soundDivisor))
      ensures bees == old(bees) + SpawnedBees(draws, numBees, maxX, maxY)
      ensures dirs == old(dirs) + SpawnedDirs(draws, numBees)
      ensures pastDirs == old(pastDirs) + SpawnedPast(draws, numBees)
      ensures old(bees) == [] ==> LandedCovers(landed, 0, ShareStart(|bees|, NumThreads), soundDivisor)
    {
      landed := Zeros(LandedSlots(numBees, soundDivisor));
      ghost var b0, d0, p0, l0 := bees, dirs, pastDirs, landed;
      var i := 0;
      while i < numBees
        invariant 0 <= i <= numBees && Valid() && moveDist == old(moveDist) && landed == l0
        invariant bees == b0 + SpawnedBees(draws, i, maxX, maxY)
        invariant dirs == d0 + SpawnedDirs(draws, i)
        invariant pastDirs == p0 + SpawnedPast(draws, i)
      {
        AddOne(draws[i]);
        i := i + 1;
      }
      LandedSlotsCover(numBees, soundDivisor);
      LandedCoversWithin(landed, landed, 0, numBees, 0, ShareStart(numBees, NumThreads), soundDivisor);
    }

    /** One pass of the `add_bees` loop: append a bee at a random position
      * with a random direction and a random direction memory. */
    method AddOne(d: SpawnDraw)
      requires Valid() && maxX > 0 && maxY > 0 && |d.pastRand| == DirMemory
      modifies this
      ensures Valid()
      ensures moveDist == old(moveDist) && landed == old(landed)
      ensures bees == old(bees) + [Point(d.randX % maxX, d.randY % maxY)]
      ensures dirs == old(dirs) + [d.dirRand % 8]
      ensures pastDirs == old(pastDirs) + [DirsFrom(d.pastRand)]
    {
      bees := bees + [Point(d.randX % maxX, d.randY % maxY)];
      dirs := dirs + [d.dirRand % 8];
      var past := RandomDirs(d.pastRand);
      pastDirs := pastDirs + [past];
    }

    /** `get_dirs`: each bee's direction becomes the C integer average of its
      * remembered directions. */
    method GetDirs() returns (r: seq<int>)
      requires Valid()
      modifies this
      ensures Valid()
      ensures bees == old(bees) && pastDirs == old(pastDirs) && landed == old(landed)
      ensures dirs == Averages(pastDirs)
      ensures r == dirs
    {
      var i := 0;
      while i < |pastDirs|
        invariant 0 <= i <= |pastDirs| && Valid()
        invariant bees == old(bees) && pastDirs == old(pastDirs) && landed == old(landed)
        invariant forall k :: 0 <= k < i ==> dirs[k] == Averages(pastDirs)[k]
      {
        var sum := SumFirst(pastDirs[i], |pastDirs[0]|);
        assert pastDirs[i][..|pastDirs[0]|] == pastDirs[i];
        AverageBetween(pastDirs[i], -1, 7);
        dirs := dirs[i := CDiv(sum, DirMemory)];
        i := i + 1;
      }
      r := dirs;
    }

    /** `clear_bees`: empties the bee, direction and memory lists but leaves
      * `landed` as it was. */
    method ClearBees()
      modifies this
      ensures Valid()
      ensures bees == [] && dirs == [] && pastDirs == []
      ensures landed == old(landed) && moveDist == old(moveDist)
    {
      bees := [];
      dirs := [];
      pastDirs := [];
    }
  }

  function Sum(s: seq<int>): int
  {
    if s == [] then 0 else Sum(s[..|s| - 1]) + s[|s| - 1]
  }

  lemma SumAppend(s: seq<int>, x: int)
    ensures Sum(s + [x]) == Sum(s) + x
  {
    assert (s + [x])[..|s|] == s;
  }

  /** The sum of values in `[lo, hi]` lies between `lo * |s|` and `hi * |s|`. */
  lemma {:induction false} SumBetween(s: seq<int>, lo: int, hi: int)
    requires forall k :: 0 <= k < |s| ==> lo <= s[k] <= hi
    ensures lo * |s| <= Sum(s) <= hi * |s|
  {
    if s != [] {
      var t := s[..|s| - 1];
      SumBetween(t, lo, hi);
      assert lo * |s| == lo * |t| + lo && hi * |s| == hi * |t| + hi;
    }
  }

  /** The C integer average of `DIR_MEMORY` values in `[lo, hi]` lies in `[lo, hi]`. */
  lemma AverageBetween(s: seq<int>, lo: int, hi: int)
    requires |s| == DirMemory && lo <= hi
    requires forall k :: 0 <= k < |s| ==> lo <= s[k] <= hi
    ensures lo <= CDiv(Sum(s), DirMemory) <= hi
  {
    SumBetween(s, lo, hi);
  }
}
