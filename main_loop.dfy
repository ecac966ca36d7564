/** The helpers and bookkeeping of oldsrc/main.cpp: the depth `filter`, the
  * `isInteger` argument check, `drop_contours_1d`, the random duplication
  * of edge points and its undoing, and the counters of the main loop that
  * skip dropped frames and pause attractor updates after a gesture. */
module MainLoop {
  import opened Common

  // ---------------------------------------------------------------- filter

  /** The value `filter` leaves in a cell. */
  function Filtered(v: int, threshold: int): int {
    if v == 255 || v > threshold then 0 else v
  }

  /** After filtering no cell holds 255, a non-zero cell is at most the
    * threshold, and a cell is kept exactly when it was neither; filtering
    * twice changes nothing more. */
  lemma FilteredSpec(v: int, threshold: int)
    ensures Filtered(v, threshold) != 255
    ensures Filtered(v, threshold) != 0 ==> Filtered(v, threshold) <= threshold
    ensures v != 255 && v <= threshold ==> Filtered(v, threshold) == v
    ensures Filtered(v, threshold) != v ==> Filtered(v, threshold) == 0 && (v == 255 || v > threshold)
    ensures Filtered(Filtered(v, threshold), threshold) == Filtered(v, threshold)
  {
  }

  /** The threshold `main` passes: a depth in millimetres scaled to 0-255
    * over the sensor's 10000 mm and truncated to `int`. */
  function DepthThreshold(depthMm: int): (t: int)
    ensures 0 <= depthMm <= 10000 ==> 0 <= t <= 255
  {
    CTrunc(depthMm as real * 255.0 / 10000.0)
  }

  /** With the default 1500 mm everything deeper than 38 is dropped. */
  lemma DefaultDepthThreshold()
    ensures DepthThreshold(1500) == 38
  {
  }

  /** `filter`: zero every cell equal to 255 or above the threshold, row by row. */
  method Filter(mat: array2<int>, threshold: int)
    modifies mat
    ensures forall i, j :: 0 <= i < mat.Length0 && 0 <= j < mat.Length1 ==>
      mat[i, j] == Filtered(old(mat[i, j]), threshold)
  {
    for i := 0 to mat.Length0
      invariant forall a, b :: 0 <= a < mat.Length0 && 0 <= b < mat.Length1 ==>
        mat[a, b] == if a < i then Filtered(old(mat[a, b]), threshold) else old(mat[a, b])
    {
      for j := 0 to mat.Length1
        invariant forall a, b :: 0 <= a < mat.Length0 && 0 <= b < mat.Length1 ==>
          mat[a, b] == if a < i || (a == i && b < j) then Filtered(old(mat[a, b]), threshold) else old(mat[a, b])
      {
        var matVal := mat[i, j];
        if matVal == 255 || matVal > threshold {
          mat[i, j] := 0;
        }
      }
    }
  }

  // ------------------------------------------------------------- isInteger

  predicate IsDigit(ch: char) {
    '0' <= ch <= '9'
  }

  /** `isspace` in the "C" locale. */
  predicate IsSpace(ch: char) {
    ch == ' ' || ch == '\t' || ch == '\n' || ch == '\U{000B}' || ch == '\U{000C}' || ch == '\r'
  }

  /** The C string `c_str()` sees: everything before the first NUL. */
  function CPrefix(s: string): (t: string)
    ensures t <= s && '\0' !in t
    ensures |t| < |s| ==> s[|t|] == '\0'
  {
    if s == [] || s[0] == '\0' then [] else [s[0]] + CPrefix(s[1..])
  }

  /** The first index at or after `i` that does not hold a white-space character. */
  function SkipSpaces(t: string, i: nat): (k: nat)
    requires i <= |t|
    ensures i <= k <= |t| && (k < |t| ==> !IsSpace(t[k]))
    ensures forall m :: i <= m < k ==> IsSpace(t[m])
    decreases |t| - i
  {
    if i < |t| && IsSpace(t[i]) then SkipSpaces(t, i + 1) else i
  }

  /** The first index at or after `i` that does not hold a digit. */
  function DigitsEnd(t: string, i: nat): (k: nat)
    requires i <= |t|
    ensures i <= k <= |t| && (k < |t| ==> !IsDigit(t[k]))
    ensures forall m :: i <= m < k ==> IsDigit(t[m])
    decreases |t| - i
  {
    if i < |t| && IsDigit(t[i]) then DigitsEnd(t, i + 1) else i
  }

  /** Where `strtol(t, &p, 10)` leaves `p` (section 7.22.1.4 of ISO C11):
    * after optional white space, an optional sign and at least one digit, or
    * at the start of the string when there is no such subject sequence. */
  function StrtolEnd(t: string): (e: nat)
    ensures e <= |t|
  {
    var i := SkipSpaces(t, 0);
    var j := if i < |t| && (t[i] == '+' || t[i] == '-') then i + 1 else i;
    var k := DigitsEnd(t, j);
    if k == j then 0 else k
  }

  /** `isInteger`: a digit or sign first, and `strtol` stops at the terminating NUL. */
  function IsInteger(s: string): bool {
    if s == [] || (!IsDigit(s[0]) && s[0] != '-' && s[0] != '+') then false
    else StrtolEnd(CPrefix(s)) == |CPrefix(s)|
  }

  /** `[+-]?[0-9]+`. */
  predicate MatchesInteger(t: string) {
    var start := if |t| > 0 && (t[0] == '+' || t[0] == '-') then 1 else 0;
    start < |t| && forall k :: start <= k < |t| ==> IsDigit(t[k])
  }

  /** `isInteger(s)` holds exactly when the C string of `s` is an optional
    * sign followed by one or more decimal digits. */
  lemma IsIntegerIff(s: string)
    ensures IsInteger(s) <==> MatchesInteger(CPrefix(s))
  {
    var t := CPrefix(s);
    if s != [] && s[0] != '\0' {
      assert t[0] == s[0];
      if IsDigit(s[0]) || s[0] == '-' || s[0] == '+' {
        assert SkipSpaces(t, 0) == 0;
        var j := if t[0] == '+' || t[0] == '-' then 1 else 0;
        var k := DigitsEnd(t, j);
      }
    }
  }

  /** Signed and unsigned numbers are accepted, also when a NUL ends the C string early. */
  lemma IsIntegerAccepts()
    ensures IsInteger("42") && IsInteger("-7") && IsInteger("12\0x")
  {
    assert CPrefix("42") == "42" && MatchesInteger("42");
    IsIntegerIff("42");
    assert CPrefix("-7") == "-7" && MatchesInteger("-7");
    IsIntegerIff("-7");
    assert CPrefix("12\0x") == "12" && MatchesInteger("12");
    IsIntegerIff("12\0x");
  }

  /** A lone sign, trailing letters and leading blanks are refused. */
  lemma IsIntegerRejects()
    ensures !IsInteger("") && !IsInteger("-") && !IsInteger("4a") && !IsInteger(" 4")
  {
    IsIntegerIff("-");
    IsIntegerIff("4a");
  }

  // ------------------------------------------------------ drop_contours_1d

  /** The points at positions `j < n` of a contour with `j % prop == 0`, in order. */
  function EveryNth(c: seq<Point>, prop: int, n: nat): seq<Point>
    requires prop > 0 && n <= |c|
  {
    if n == 0 then []
    else EveryNth(c, prop, n - 1) + (if (n - 1) % prop == 0 then [c[n - 1]] else [])
  }

  /** The kept points of the first `n` contours, concatenated. */
  function Dropped(contours: seq<seq<Point>>, prop: int, n: nat): seq<Point>
    requires prop > 0 && n <= |contours|
  {
    if n == 0 then [] else Dropped(contours, prop, n - 1) + EveryNth(contours[n - 1], prop, |contours[n - 1]|)
  }

  /** `drop_contours_1d`: every `prop`-th point of each contour, contour by contour. */
  method DropContours(contours: seq<seq<Point>>, prop: int) returns (ret: seq<Point>)
    requires prop > 0
    ensures ret == Dropped(contours, prop, |contours|)
  {
    ret := [];
    for i := 0 to |contours|
      invariant ret == Dropped(contours, prop, i)
    {
      ghost var before := ret;
      for j := 0 to |contours[i]|
        invariant ret == before + EveryNth(contours[i], prop, j)
      {
        if j % prop == 0 {
          ret := ret + [contours[i][j]];
        }
      }
    }
  }

  /** `ceil(n / prop)` points are kept. */
  lemma {:induction false} EveryNthLength(c: seq<Point>, prop: int, n: nat)
    requires prop > 0 && n <= |c|
    ensures |EveryNth(c, prop, n)| == (n + prop - 1) / prop
  {
    if n > 0 {
      EveryNthLength(c, prop, n - 1);
      CeilStep(n - 1, prop);
    }
  }

  /** Rounding `(m + 1) / prop` up gains one exactly when `m` is a multiple of `prop`. */
  lemma CeilStep(m: nat, prop: int)
    requires prop > 0
    ensures (m + prop) / prop == (m + prop - 1) / prop + (if m % prop == 0 then 1 else 0)
  {
    var q := m / prop;
    var r := m % prop;
    assert m == q * prop + r;
    if r == 0 {
      DivModUnique(m + prop - 1, prop, q, prop - 1);
      DivModUnique(m + prop, prop, q + 1, 0);
    } else {
      DivModUnique(m + prop - 1, prop, q + 1, r - 1);
      DivModUnique(m + prop, prop, q + 1, r);
    }
  }

  /** Position `k` of the kept points is position `k * prop` of the contour. */
  lemma {:induction false} EveryNthElements(c: seq<Point>, prop: int, n: nat)
    requires prop > 0 && n <= |c|
    ensures forall k :: 0 <= k < |EveryNth(c, prop, n)| ==> 0 <= k * prop < n && EveryNth(c, prop, n)[k] == c[k * prop]
  {
    if n > 0 {
      var m := n - 1;
      EveryNthElements(c, prop, m);
      EveryNthLength(c, prop, m);
      var prev := EveryNth(c, prop, m);
      if m % prop == 0 {
        var q := m / prop;
        assert m == q * prop;
        DivModUnique(m + prop - 1, prop, q, prop - 1);
        assert |prev| == q;
      }
    }
  }

  /** With `prop == 1` every point is kept: a plain flatten. */
  lemma {:induction false} DropOneIsFlatten(contours: seq<seq<Point>>, n: nat)
    requires n <= |contours|
    ensures Dropped(contours, 1, n) == Flatten(contours[..n])
  {
    if n > 0 {
      DropOneIsFlatten(contours, n - 1);
      EveryNthLength(contours[n - 1], 1, |contours[n - 1]|);
      EveryNthElements(contours[n - 1], 1, |contours[n - 1]|);
      FlattenSnoc(contours[..n - 1], contours[n - 1]);
      assert contours[..n] == contours[..n - 1] + [contours[n - 1]];
    }
  }

  function Flatten(cs: seq<seq<Point>>): seq<Point> {
    if cs == [] then [] else cs[0] + Flatten(cs[1..])
  }

  lemma {:induction false} FlattenSnoc(cs: seq<seq<Point>>, c: seq<Point>)
    ensures Flatten(cs + [c]) == Flatten(cs) + c
  {
    if cs != [] {
      assert (cs + [c])[1..] == cs[1..] + [c];
      FlattenSnoc(cs[1..], c);
    } else {
      assert [c][1..] == [];
    }
  }

  // --------------------------------------------- duplicating edge points

  /** The `rand()` results spent on one source point: `rand() % duplicate_max`
    * copies, each offset by `(rand() % 3 - 1, rand() % 3 - 1)`. */
  datatype DupDraw = DupDraw(count: nat, offsets: seq<(nat, nat)>)

  predicate DrawCovers(d: DupDraw) {
    |d.offsets| >= d.count % 5
  }

  predicate InGrid(p: Point, w: int, h: int) {
    0 <= p.x < w && 0 <= p.y < h
  }

  /** `p` is `q` or one of its eight neighbours. */
  predicate Near(p: Point, q: Point) {
    -1 <= p.x - q.x <= 1 && -1 <= p.y - q.y <= 1
  }

  /** The copies of source point `src` that fall inside the grid, from the first `j` offsets. */
  function Copies(src: Point, d: DupDraw, j: nat, w: int, h: int): (r: seq<Point>)
    requires j <= d.count % 5 && DrawCovers(d)
    ensures forall k :: 0 <= k < |r| ==> InGrid(r[k], w, h) && Near(r[k], src)
  {
    if j == 0 then []
    else
      var o := d.offsets[j - 1];
      var p := Point(src.x + ((o.0 % 3) as int - 1), src.y + ((o.1 % 3) as int - 1));
      Copies(src, d, j - 1, w, h) + (if p.x >= 0 && p.y >= 0 && p.x < w && p.y < h then [p] else [])
  }

  /** The points appended for the first `n` source points. */
  function Appended(flat: seq<Point>, draws: seq<DupDraw>, n: nat, w: int, h: int): seq<Point>
    requires n <= |flat| == |draws| && forall i :: 0 <= i < |draws| ==> DrawCovers(draws[i])
  {
    if n == 0 then []
    else Appended(flat, draws, n - 1, w, h) + Copies(flat[n - 1], draws[n - 1], draws[n - 1].count % 5, w, h)
  }

  /** Every appended point lies in the down-sampled grid within one pixel of
    * one of the source points. */
  lemma {:induction false} AppendedNearSources(flat: seq<Point>, draws: seq<DupDraw>, n: nat, w: int, h: int)
    requires n <= |flat| == |draws| && forall i :: 0 <= i < |draws| ==> DrawCovers(draws[i])
    ensures forall k :: 0 <= k < |Appended(flat, draws, n, w, h)| ==>
      InGrid(Appended(flat, draws, n, w, h)[k], w, h)
      && exists i :: 0 <= i < n && Near(Appended(flat, draws, n, w, h)[k], flat[i])
  {
    if n > 0 {
      AppendedNearSources(flat, draws, n - 1, w, h);
      var prev := Appended(flat, draws, n - 1, w, h);
      var cs := Copies(flat[n - 1], draws[n - 1], draws[n - 1].count % 5, w, h);
      forall k | 0 <= k < |prev + cs|
        ensures InGrid((prev + cs)[k], w, h) && exists i :: 0 <= i < n && Near((prev + cs)[k], flat[i])
      {
        if k >= |prev| {
          assert Near((prev + cs)[k], flat[n - 1]);
        }
      }
    }
  }

  /** The duplication loop of the main loop: for each of the first
    * `old_size` points, append its in-grid copies. */
  method DuplicateEdges(flat: seq<Point>, draws: seq<DupDraw>, w: int, h: int) returns (r: seq<Point>)
    requires |draws| == |flat| && forall i :: 0 <= i < |draws| ==> DrawCovers(draws[i])
    ensures r == flat + Appended(flat, draws, |flat|, w, h)
  {
    r := flat;
    var oldSize := |r|;
    for i := 0 to oldSize
      invariant r == flat + Appended(flat, draws, i, w, h)
    {
      var numToDuplicate := draws[i].count % 5;
      ghost var before := r;
      assert r[i] == flat[i];
      for j := 0 to numToDuplicate
        invariant r == before + Copies(flat[i], draws[i], j, w, h)
        invariant i < |r| && r[i] == flat[i]
      {
        var xDiff := (draws[i].offsets[j].0 % 3) as int - 1;
        var yDiff := (draws[i].offsets[j].1 % 3) as int - 1;
        var newX := r[i].x + xDiff;
        var newY := r[i].y + yDiff;
        if newX >= 0 && newY >= 0 {
          if newX < w && newY < h {
            r := r + [Point(newX, newY)];
          }
        }
      }
    }
  }

  /** The `pop_back` loop after the bee update: drop the `new_size - old_size`
    * appended points. */
  method PopAppended(points: seq<Point>, oldSize: int) returns (r: seq<Point>)
    requires 0 <= oldSize <= |points|
    ensures r == points[..oldSize]
  {
    r := points;
    var newSize := |r|;
    for i := 0 to newSize - oldSize
      invariant r == points[..newSize - i]
    {
      r := r[..|r| - 1];
    }
  }

  // ----------------------------------------------- main-loop counters

  /** The main loop's counters: `num_dropped`, `count_frames`,
    * `was_expected`, `decrement` and `frame_counter`. */
  datatype Counters = Counters(numDropped: int, countFrames: int, wasExpected: bool, decrement: bool, frameCounter: int)

  /** Minimum number of contour points in a frame that is used at once. */
  const MinPoints := 100

  /** Lines 453-460: whether the frame is skipped, and the new `num_dropped`. */
  function SkipStep(numDropped: int, size: int): (r: (bool, int))
    ensures r.0 <==> size < MinPoints && numDropped < 5
    ensures size >= MinPoints ==> r.1 == 0
    ensures size < MinPoints ==> r.1 == if numDropped < 5 then numDropped + 1 else numDropped
  {
    if size < MinPoints then
      if numDropped < 5 then (true, numDropped + 1) else (false, numDropped)
    else (false, 0)
  }

  /** `num_dropped` after a run of frames starting from 0. */
  function DroppedAfter(sizes: seq<int>): int {
    if sizes == [] then 0 else SkipStep(DroppedAfter(sizes[..|sizes| - 1]), sizes[|sizes| - 1]).1
  }

  /** The number of frames with fewer than 100 points since the last frame with at least 100. */
  function SmallRun(sizes: seq<int>): nat {
    if sizes == [] || sizes[|sizes| - 1] >= MinPoints then 0 else SmallRun(sizes[..|sizes| - 1]) + 1
  }

  /** `num_dropped` counts the frames short of points since the last full
    * one, up to 5; so a frame is skipped exactly when it is short of points
    * and fewer than 5 short frames came since the last full one. */
  lemma {:induction false} DroppedCountsRun(sizes: seq<int>)
    ensures DroppedAfter(sizes) == if SmallRun(sizes) < 5 then SmallRun(sizes) else 5
  {
    if sizes != [] {
      DroppedCountsRun(sizes[..|sizes| - 1]);
    }
  }

  /** Lines 400-404: a detection that reports the expected gesture starts a
    * 30-frame countdown. */
  function DetectStep(c: Counters, expected: bool): (r: Counters)
    ensures expected ==> r.wasExpected && r.countFrames == 30
    ensures !expected ==> r == c
  {
    if expected then c.(wasExpected := true, countFrames := 30) else c
  }

  /** Lines 496-512: whether `addAttractorsAvg` runs this frame, and the new counters. */
  function GateStep(c: Counters): (r: (bool, Counters))
    ensures r.0 <==> !(c.decrement || (c.wasExpected && c.countFrames == 1))
    ensures r.1.numDropped == c.numDropped
  {
    var count := if c.wasExpected then c.countFrames - 1 else c.countFrames;
    var expired := count == 0 && c.wasExpected;
    var wasExpected := if expired then false else c.wasExpected;
    var decrement := if expired then true else c.decrement;
    var add := !decrement;
    var frameCounter := if decrement then c.frameCounter - 1 else c.frameCounter;
    if frameCounter == 0 then (add, Counters(c.numDropped, count, wasExpected, false, 50))
    else (add, Counters(c.numDropped, count, wasExpected, decrement, frameCounter))
  }

  /** `n` frames through the gate with no new detection: the attractor
    * updates that ran, in order, and the final counters. */
  function GateRun(c: Counters, n: nat): (seq<bool>, Counters) {
    if n == 0 then ([], c)
    else
      var prev := GateRun(c, n - 1);
      var step := GateStep(prev.1);
      (prev.0 + [step.0], step.1)
  }

  lemma {:induction false} GateRunSplit(c: Counters, m: nat, n: nat)
    ensures GateRun(c, m + n).1 == GateRun(GateRun(c, m).1, n).1
    ensures GateRun(c, m + n).0 == GateRun(c, m).0 + GateRun(GateRun(c, m).1, n).0
  {
    if n > 0 {
      GateRunSplit(c, m, n - 1);
    }
  }

  /** While counting down from `k`, attractor updates go on. */
  lemma {:induction false} CountdownAdds(nd: int, k: nat, fc: int, n: nat)
    requires n < k && fc != 0
    ensures GateRun(Counters(nd, k, true, false, fc), n).1 == Counters(nd, k - n, true, false, fc)
    ensures |GateRun(Counters(nd, k, true, false, fc), n).0| == n
    ensures forall i :: 0 <= i < n ==> GateRun(Counters(nd, k, true, false, fc), n).0[i]
  {
    if n > 0 {
      CountdownAdds(nd, k, fc, n - 1);
      assert GateStep(Counters(nd, k - n + 1, true, false, fc)) == (true, Counters(nd, k - n, true, false, fc));
    }
  }

  /** While `decrement` is set, attractor updates are suppressed until
    * `frame_counter` reaches 0. */
  lemma {:induction false} PauseSuppresses(nd: int, fc: int, n: nat)
    requires n < fc
    ensures GateRun(Counters(nd, 0, false, true, fc), n).1 == Counters(nd, 0, false, true, fc - n)
    ensures |GateRun(Counters(nd, 0, false, true, fc), n).0| == n
    ensures forall i :: 0 <= i < n ==> !GateRun(Counters(nd, 0, false, true, fc), n).0[i]
  {
    if n > 0 {
      PauseSuppresses(nd, fc, n - 1);
      assert GateStep(Counters(nd, 0, false, true, fc - n + 1)) == (false, Counters(nd, 0, false, true, fc - n));
    }
  }

  /** After a detection (`count_frames = 30`, no pause running, `frame_counter`
    * at 50), and with no new detection: 29 frames update the attractors, the
    * next 50 do not, and then `frame_counter` is back at 50 with the pause over. */
  lemma DetectionPause(nd: int)
    ensures |GateRun(Counters(nd, 30, true, false, 50), 79).0| == 79
    ensures forall i :: 0 <= i < 79 ==> (GateRun(Counters(nd, 30, true, false, 50), 79).0[i] <==> i < 29)
    ensures GateRun(Counters(nd, 30, true, false, 50), 79).1 == Counters(nd, 0, false, false, 50)
  {
    var c0 := Counters(nd, 30, true, false, 50);
    CountdownAdds(nd, 30, 50, 29);
    GateRunSplit(c0, 29, 1);
    var c30 := Counters(nd, 0, false, true, 49);
    assert GateStep(GateRun(c0, 29).1) == (false, c30);
    PauseSuppresses(nd, 49, 48);
    GateRunSplit(c30, 48, 1);
    assert GateStep(GateRun(c30, 48).1) == (false, Counters(nd, 0, false, false, 50));
    GateRunSplit(c0, 30, 49);
    var front := GateRun(c0, 30).0;
    var back := GateRun(c30, 49).0;
    assert front == GateRun(c0, 29).0 + [false];
    assert back == GateRun(c30, 48).0 + [false];
    assert GateRun(c0, 79).0 == front + back;
    forall i | 0 <= i < 79
      ensures GateRun(c0, 79).0[i] <==> i < 29
    {
      if i < 30 {
        assert GateRun(c0, 79).0[i] == front[i];
      } else {
        assert GateRun(c0, 79).0[i] == back[i - 30];
      }
    }
  }

  /** The main loop's counters as the variables it updates. */
  class LoopCounters {
    var numDropped: int
    var countFrames: int
    var wasExpected: bool
    var decrement: bool
    var frameCounter: int

    function State(): Counters
      reads this
    {
      Counters(numDropped, countFrames, wasExpected, decrement, frameCounter)
    }

    /** The initial values in `main`. */
    constructor ()
      ensures State() == Counters(0, 0, false, false, 50)
    {
      numDropped := 0;
      countFrames := 0;
      wasExpected := false;
      decrement := false;
      frameCounter := 50;
    }

    /** Lines 400-404, run after `detect` on a gesture frame. */
    method Detected(expected: bool)
      modifies this
      ensures State() == DetectStep(old(State()), expected)
    {
      if expected {
        wasExpected := true;
        countFrames := 30;
      }
    }

    /** Lines 453-460: `skip` is the `continue` to the next frame. */
    method SkipFrame(size: int) returns (skip: bool)
      modifies this
      ensures (skip, numDropped) == SkipStep(old(numDropped), size)
      ensures countFrames == old(countFrames) && wasExpected == old(wasExpected)
      ensures decrement == old(decrement) && frameCounter == old(frameCounter)
    {
      skip := false;
      if size < MinPoints {
        if numDropped < 5 {
          numDropped := numDropped + 1;
          skip := true;
        }
      } else {
        numDropped := 0;
      }
    }

    /** Lines 496-512: `add` is whether `addAttractorsAvg` is called. */
    method Gate() returns (add: bool)
      modifies this
      ensures (add, State()) == GateStep(old(State()))
    {
      if wasExpected {
        countFrames := countFrames - 1;
      }
      if countFrames == 0 && wasExpected == true {
        wasExpected := false;
        decrement := true;
      }
      add := false;
      if decrement == false {
        add := true;
      } else {
        frameCounter := frameCounter - 1;
      }
      if frameCounter == 0 {
        decrement := false;
        frameCounter := 50;
      }
    }
  }
}
