/** The detection helpers of oldsrc/utils.cpp: the overlap measure between
  * two detection boxes, greedy suppression of overlapping boxes, the label
  * list padding, the label-map parser, the top-label decision and the
  * gesture decision over the retained boxes. Model runs and file reads are
  * inputs. */
module DetectUtils {
  import opened Common

  // --------------------------------------------------------------- boxes

  /** One row of the detector's box tensor: `ymin, xmin, ymax, xmax`. */
  datatype Box = Box(yMin: real, xMin: real, yMax: real, xMax: real)

  function Min(a: real, b: real): real { if a <= b then a else b }
  function Max(a: real, b: real): real { if a <= b then b else a }

  /** A `Rect2f` built from two corner points, normalised to its top-left
    * corner, width and height. */
  datatype Rect = Rect(x: real, y: real, width: real, height: real)
  {
    function Right(): real { x + width }
    function Bottom(): real { y + height }
    function Area(): real { width * height }
  }

  /** `Rect2f(Point2f(xmin, ymin), Point2f(xmax, ymax))` for a box row. */
  function RectOf(b: Box): (r: Rect)
    ensures r.width >= 0.0 && r.height >= 0.0
    ensures r.x == Min(b.xMin, b.xMax) && r.Right() == Max(b.xMin, b.xMax)
    ensures r.y == Min(b.yMin, b.yMax) && r.Bottom() == Max(b.yMin, b.yMax)
  {
    var x := Min(b.xMin, b.xMax);
    var y := Min(b.yMin, b.yMax);
    Rect(x, y, Max(b.xMin, b.xMax) - x, Max(b.yMin, b.yMax) - y)
  }

  function AbsR(v: real): real { if v < 0.0 then -v else v }

  /** The two rectangles share no interior point. */
  predicate Disjoint(a: Rect, b: Rect) {
    Min(a.Right(), b.Right()) <= Max(a.x, b.x) || Min(a.Bottom(), b.Bottom()) <= Max(a.y, b.y)
  }

  /** `IOU` as written: the corner differences are multiplied before `abs`,
    * so two negative differences give a positive "intersection". `None`
    * stands for a division by a zero union (a NaN or an infinity). */
  function IouAsWritten(a: Rect, b: Rect): Option<real>
  {
    var intersectArea := IntersectionAsWritten(a, b);
    var unionArea := AbsR(a.Area()) + AbsR(b.Area()) - intersectArea;
    if unionArea == 0.0 then None else Some(intersectArea / unionArea)
  }

  /** `abs((xB - xA) * (yB - yA))` with the corners of the would-be overlap. */
  function IntersectionAsWritten(a: Rect, b: Rect): real {
    var xA := Max(a.x, b.x);
    var yA := Max(a.y, b.y);
    var xB := Min(a.Right(), b.Right());
    var yB := Min(a.Bottom(), b.Bottom());
    AbsR((xB - xA) * (yB - yA))
  }

  /** Two unit boxes that touch only diagonally, one apart: as written their
    * "intersection" is 1 and their IOU is 1, so either suppresses the other
    * at any threshold below 1. */
  lemma DiagonalBoxesOverlapAsWritten()
    ensures Disjoint(Rect(0.0, 0.0, 1.0, 1.0), Rect(2.0, 2.0, 1.0, 1.0))
    ensures IouAsWritten(Rect(0.0, 0.0, 1.0, 1.0), Rect(2.0, 2.0, 1.0, 1.0)) == Some(1.0)
  {
    var a := Rect(0.0, 0.0, 1.0, 1.0);
    var b := Rect(2.0, 2.0, 1.0, 1.0);
    var i := IntersectionAsWritten(a, b);
    assert i == 1.0;
    var u := AbsR(a.Area()) + AbsR(b.Area()) - i;
    assert u == 1.0;
    assert IouAsWritten(a, b) == Some(i / u);
  }

  /** The overlap of one axis, zero when the intervals are apart. */
  function Overlap(lo: real, hi: real): (o: real)
    ensures o >= 0.0 && (hi <= lo ==> o == 0.0) && (lo < hi ==> o == hi - lo)
  {
    if hi <= lo then 0.0 else hi - lo
  }

  /** The area the two rectangles share. */
  function Intersection(a: Rect, b: Rect): real {
    Overlap(Max(a.x, b.x), Min(a.Right(), b.Right())) * Overlap(Max(a.y, b.y), Min(a.Bottom(), b.Bottom()))
  }

  /** Intersection over union with the overlap clamped at zero per axis.
    * `None` stands for the NaN of 0/0, which compares false with any threshold. */
  function Iou(a: Rect, b: Rect): (r: Option<real>)
    requires a.width >= 0.0 && a.height >= 0.0 && b.width >= 0.0 && b.height >= 0.0
    ensures r.Some? ==> 0.0 <= r.value <= 1.0
    ensures Disjoint(a, b) ==> r == None || r == Some(0.0)
  {
    IntersectionBounds(a, b);
    var intersectArea := Intersection(a, b);
    var unionArea := AbsR(a.Area()) + AbsR(b.Area()) - intersectArea;
    RatioInUnit(intersectArea, unionArea);
    if unionArea == 0.0 then None else Some(intersectArea / unionArea)
  }

  /** A part over a whole that contains it lies in `[0, 1]`. */
  lemma RatioInUnit(part: real, whole: real)
    requires 0.0 <= part <= whole
    ensures whole != 0.0 ==> 0.0 <= part / whole <= 1.0
    ensures whole != 0.0 && part == 0.0 ==> part / whole == 0.0
  {
    if whole != 0.0 {
      var q := part / whole;
      assert q * whole == part;
      assert (1.0 - q) * whole == whole - part;
    }
  }

  /** The shared area is at least zero, at most either area, and zero for
    * disjoint rectangles. */
  lemma IntersectionBounds(a: Rect, b: Rect)
    requires a.width >= 0.0 && a.height >= 0.0 && b.width >= 0.0 && b.height >= 0.0
    ensures 0.0 <= Intersection(a, b)
    ensures Intersection(a, b) <= a.Area() && Intersection(a, b) <= b.Area()
    ensures Disjoint(a, b) ==> Intersection(a, b) == 0.0
  {
    var ox := Overlap(Max(a.x, b.x), Min(a.Right(), b.Right()));
    var oy := Overlap(Max(a.y, b.y), Min(a.Bottom(), b.Bottom()));
    ProductBelow(ox, oy, a.width, a.height);
    ProductBelow(ox, oy, b.width, b.height);
  }

  lemma ProductBelow(p: real, q: real, w: real, h: real)
    requires 0.0 <= p <= w && 0.0 <= q <= h
    ensures 0.0 <= p * q <= w * h
  {
    assert p * q <= w * q;
    assert w * q <= w * h;
  }

  /** The measure does not depend on the order of the two boxes. */
  lemma IouSymmetric(a: Rect, b: Rect)
    requires a.width >= 0.0 && a.height >= 0.0 && b.width >= 0.0 && b.height >= 0.0
    ensures Iou(a, b) == Iou(b, a)
  {
    assert Intersection(a, b) == Intersection(b, a);
  }

  /** `IOU(box1, box2) > thresholdIOU`: the test that marks a box as bad. */
  predicate Suppresses(r: Option<real>, threshold: real) {
    r.Some? && r.value > threshold
  }

  /** The overlap measure a sweep applies: `IOU` as written, or the corrected
    * one with each axis overlap clamped at zero. */
  datatype Measure = AsWritten | Clamped

  /** `IOU(box1, box2) > thresholdIOU` with `IOU` as written. A zero union
    * divides a positive "intersection" into +inf, which exceeds every
    * threshold, and a zero one into NaN, which exceeds none. */
  predicate ExceedsAsWritten(a: Rect, b: Rect, threshold: real) {
    match IouAsWritten(a, b)
    case Some(v) => v > threshold
    case None => IntersectionAsWritten(a, b) > 0.0
  }

  /** `IOU(box1, box2) > thresholdIOU` under measure `m`. */
  predicate Exceeds(m: Measure, a: Rect, b: Rect, threshold: real)
    requires a.width >= 0.0 && a.height >= 0.0 && b.width >= 0.0 && b.height >= 0.0
  {
    match m
    case AsWritten => ExceedsAsWritten(a, b, threshold)
    case Clamped => Suppresses(Iou(a, b), threshold)
  }

  // ------------------------------------------------------------ filterBoxes

  /** The inputs of `filterBoxes`: one score and one box per detection, and
    * the overlap measure its sweep applies (`AsWritten` in the source). */
  datatype Detections = Detections(scores: seq<real>, boxes: seq<Box>, thresholdIOU: real, thresholdScore: real, measure: Measure)
  {
    predicate Valid() { |scores| == |boxes| }

    /** Box `i` marks box `j` as bad when it sweeps over it: `j` fails the
      * score threshold or overlaps `i` above the IOU threshold. */
    predicate Hit(i: nat, j: nat)
      requires Valid() && i < |scores| && j < |scores|
    {
      scores[j] < thresholdScore || Exceeds(measure, RectOf(boxes[i]), RectOf(boxes[j]), thresholdIOU)
    }

    /** Some retained box among the first `m` hits box `j`. */
    predicate AnyHit(m: nat, j: nat)
      requires Valid() && m <= |scores| && j < |scores|
      decreases m, 0
    {
      m > 0 && (AnyHit(m - 1, j) || (Kept(m - 1) && Hit(m - 1, j)))
    }

    /** Box `i` is returned: it meets the score threshold and no earlier
      * returned box overlaps it above the IOU threshold. */
    predicate Kept(i: nat)
      requires Valid() && i < |scores|
      decreases i, 1
    {
      scores[i] >= thresholdScore && !AnyHit(i, i)
    }

    /** The returned indices among the first `n`, in order. */
    function KeptUpTo(n: nat): (r: seq<nat>)
      requires Valid() && n <= |scores|
      ensures forall k :: 0 <= k < |r| ==> r[k] < n
    {
      if n == 0 then [] else KeptUpTo(n - 1) + (if Kept(n - 1) then [n - 1] else [])
    }
  }

  /** `AnyHit` holds exactly when some earlier retained box hits `j`. */
  lemma {:induction false} AnyHitWitness(d: Detections, m: nat, j: nat)
    requires d.Valid() && m <= |d.scores| && j < |d.scores|
    ensures d.AnyHit(m, j) <==> exists k :: 0 <= k < m && d.Kept(k) && d.Hit(k, j)
  {
    if m > 0 {
      AnyHitWitness(d, m - 1, j);
      if d.AnyHit(m - 1, j) {
        var k :| 0 <= k < m - 1 && d.Kept(k) && d.Hit(k, j);
        assert 0 <= k < m && d.Kept(k) && d.Hit(k, j);
      }
    }
  }

  /** Every returned box meets the score threshold, no two returned boxes
    * overlap above the IOU threshold, and a box that meets the score
    * threshold is left out only because an earlier returned box overlaps it. */
  lemma KeptProperties(d: Detections)
    requires d.Valid()
    ensures forall i :: 0 <= i < |d.scores| && d.Kept(i) ==> d.scores[i] >= d.thresholdScore
    ensures forall i, j :: 0 <= i < j < |d.scores| && d.Kept(i) && d.Kept(j) ==>
      !Exceeds(d.measure, RectOf(d.boxes[i]), RectOf(d.boxes[j]), d.thresholdIOU)
    ensures forall j :: 0 <= j < |d.scores| && d.scores[j] >= d.thresholdScore && !d.Kept(j) ==>
      exists i :: 0 <= i < j && d.Kept(i) && Exceeds(d.measure, RectOf(d.boxes[i]), RectOf(d.boxes[j]), d.thresholdIOU)
  {
    forall i, j | 0 <= i < j < |d.scores| && d.Kept(i) && d.Kept(j)
      ensures !Exceeds(d.measure, RectOf(d.boxes[i]), RectOf(d.boxes[j]), d.thresholdIOU)
    {
      AnyHitWitness(d, j, j);
      assert !d.Hit(i, j);
    }
    forall j | 0 <= j < |d.scores| && d.scores[j] >= d.thresholdScore && !d.Kept(j)
      ensures exists i :: 0 <= i < j && d.Kept(i) && Exceeds(d.measure, RectOf(d.boxes[i]), RectOf(d.boxes[j]), d.thresholdIOU)
    {
      AnyHitWitness(d, j, j);
    }
  }

  /** The returned list is strictly increasing and holds exactly the retained boxes. */
  lemma {:induction false} KeptUpToSorted(d: Detections, n: nat)
    requires d.Valid() && n <= |d.scores|
    ensures forall a, b :: 0 <= a < b < |d.KeptUpTo(n)| ==> d.KeptUpTo(n)[a] < d.KeptUpTo(n)[b]
    ensures forall i :: 0 <= i < n ==> (i in d.KeptUpTo(n) <==> d.Kept(i))
  {
    if n > 0 {
      KeptUpToSorted(d, n - 1);
    }
  }

  /** Where the two rectangles really overlap, `IOU` as written and the
    * clamped measure agree, and so do their threshold tests. */
  lemma {:induction false} AsWrittenAgreesOnOverlap(a: Rect, b: Rect, threshold: real)
    requires a.width >= 0.0 && a.height >= 0.0 && b.width >= 0.0 && b.height >= 0.0
    requires !Disjoint(a, b)
    ensures IntersectionAsWritten(a, b) == Intersection(a, b) > 0.0
    ensures IouAsWritten(a, b) == Iou(a, b)
    ensures Exceeds(AsWritten, a, b, threshold) <==> Exceeds(Clamped, a, b, threshold)
  {
    var ox := Min(a.Right(), b.Right()) - Max(a.x, b.x);
    var oy := Min(a.Bottom(), b.Bottom()) - Max(a.y, b.y);
    assert ox > 0.0 && oy > 0.0;
    assert ox * oy > 0.0;
    assert Intersection(a, b) == ox * oy;
    IntersectionBounds(a, b);
  }

  /** Of two boxes that both meet the score threshold, the first is always
    * returned and the second exactly when the first does not hit it. */
  lemma TwoConfidentBoxes(d: Detections)
    requires d.Valid() && |d.scores| == 2
    requires d.scores[0] >= d.thresholdScore && d.scores[1] >= d.thresholdScore
    ensures d.KeptUpTo(2) == if d.Hit(0, 1) then [0] else [0, 1]
  {
    assert d.Kept(0) && d.KeptUpTo(1) == [0];
  }

  /** The rectangle of a box row whose corners are already ordered. */
  lemma OrderedRect(b: Box)
    requires b.xMin <= b.xMax && b.yMin <= b.yMax
    ensures RectOf(b) == Rect(b.xMin, b.yMin, b.xMax - b.xMin, b.yMax - b.yMin)
  {
  }

  /** As written the diagonal pair overlaps above one half... */
  lemma DiagonalPairExceedsAsWritten()
    ensures Exceeds(AsWritten, Rect(0.0, 0.0, 1.0, 1.0), Rect(2.0, 2.0, 1.0, 1.0), 0.5)
  {
    DiagonalBoxesOverlapAsWritten();
  }

  /** ...and with the clamped measure it does not. */
  lemma DiagonalPairBelowClamped()
    ensures !Exceeds(Clamped, Rect(0.0, 0.0, 1.0, 1.0), Rect(2.0, 2.0, 1.0, 1.0), 0.5)
  {
    var a, b := Rect(0.0, 0.0, 1.0, 1.0), Rect(2.0, 2.0, 1.0, 1.0);
    assert Disjoint(a, b);
    var r := Iou(a, b);
    assert !Suppresses(r, 0.5);
  }

  /** Two confident boxes that touch only diagonally, one unit apart. */
  predicate DiagonalPair(d: Detections) {
    d.scores == [0.9, 0.9] && d.boxes == [Box(0.0, 0.0, 1.0, 1.0), Box(2.0, 2.0, 3.0, 3.0)]
    && d.thresholdIOU == 0.5 && d.thresholdScore == 0.5
  }

  /** As written the first box of the diagonal pair suppresses the second,
    * so `filterBoxes` returns `[0]`. */
  lemma DiagonalPairFilteredAsWritten(d: Detections)
    requires DiagonalPair(d) && d.measure == AsWritten
    ensures d.KeptUpTo(2) == [0]
  {
    TwoConfidentBoxes(d);
    OrderedRect(d.boxes[0]);
    OrderedRect(d.boxes[1]);
    DiagonalPairExceedsAsWritten();
  }

  /** With the clamped measure both boxes of the diagonal pair are returned. */
  lemma DiagonalPairFilteredClamped(d: Detections)
    requires DiagonalPair(d) && d.measure == Clamped
    ensures d.KeptUpTo(2) == [0, 1]
  {
    TwoConfidentBoxes(d);
    OrderedRect(d.boxes[0]);
    OrderedRect(d.boxes[1]);
    DiagonalPairBelowClamped();
  }

  /** The sweep of retained box `i`: the inner loop of `filterBoxes`. */
  method Sweep(d: Detections, i: nat, bad: set<nat>) returns (r: set<nat>)
    requires d.Valid() && i < |d.scores|
    ensures forall j :: j in r <==> j in bad || (i < j < |d.scores| && d.Hit(i, j))
  {
    r := bad;
    var box1 := RectOf(d.boxes[i]);
    var j := i + 1;
    while j < |d.scores|
      invariant i + 1 <= j <= |d.scores|
      invariant forall k :: k in r <==> k in bad || (i < k < j && d.Hit(i, k))
    {
      if d.scores[j] < d.thresholdScore {
        r := r + {j};
      } else {
        var box2 := RectOf(d.boxes[j]);
        if Exceeds(d.measure, box1, box2, d.thresholdIOU) {
          r := r + {j};
        }
      }
      j := j + 1;
    }
  }

  /** The set of bad indices after the outer loop has looked at the first `i` boxes. */
  ghost predicate BadAfter(d: Detections, i: nat, bad: set<nat>)
    requires d.Valid() && i <= |d.scores|
  {
    (forall j :: j in bad ==> j < |d.scores|)
    && (forall j :: 0 <= j < i ==> (j in bad <==> !d.Kept(j)))
    && (forall j :: i <= j < |d.scores| ==> (j in bad <==> d.AnyHit(i, j)))
  }

  /** `filterBoxes`: walk the boxes in index order (the index list is the
    * identity, nothing sorts it); a box that is not yet bad marks every later
    * box it hits; then return the indices that never became bad. */
  method FilterBoxes(d: Detections) returns (goodIdxs: seq<nat>)
    requires d.Valid()
    ensures goodIdxs == d.KeptUpTo(|d.scores|)
  {
    var badIdxs: set<nat> := {};
    var i := 0;
    while i < |d.scores|
      invariant i <= |d.scores|
      invariant BadAfter(d, i, badIdxs)
    {
      badIdxs := OuterStep(d, i, badIdxs);
      i := i + 1;
    }
    goodIdxs := [];
    for it := 0 to |d.scores|
      invariant goodIdxs == d.KeptUpTo(it)
    {
      if it !in badIdxs {
        goodIdxs := goodIdxs + [it];
      }
    }
  }

  /** One pass of the outer `while` loop of `filterBoxes`. */
  method OuterStep(d: Detections, i: nat, bad: set<nat>) returns (r: set<nat>)
    requires d.Valid() && i < |d.scores| && BadAfter(d, i, bad)
    ensures BadAfter(d, i + 1, r)
  {
    r := bad;
    if d.scores[i] < d.thresholdScore {
      r := r + {i};
    }
    assert i in r <==> !d.Kept(i);
    if i in r {
      AnyHitStep(d, i);
      return;
    }
    r := Sweep(d, i, r);
    AnyHitStep(d, i);
  }

  /** Looking at box `i` adds the boxes it hits, if it is retained. */
  lemma AnyHitStep(d: Detections, i: nat)
    requires d.Valid() && i < |d.scores|
    ensures forall j :: i < j < |d.scores| ==> (d.AnyHit(i + 1, j) <==> d.AnyHit(i, j) || (d.Kept(i) && d.Hit(i, j)))
  {
  }

  // ------------------------------------------------------- ReadLabelsFile

  /** The file behind a path: absent, unreadable, or readable with its text. */
  datatype FileState<T> = Missing | Unreadable | Readable(contents: T)

  datatype Status = Ok | NotFound

  /** `ReadLabelsFile` on the lines `getline` yields: a missing file is
    * reported and leaves the outputs alone; otherwise the lines are
    * returned, padded with empty strings to a multiple of 16. */
  method ReadLabelsFile(file: FileState<seq<string>>, result0: seq<string>, count0: nat)
    returns (status: Status, result: seq<string>, foundLabelCount: nat)
    ensures file.Missing? || file.Unreadable? ==> status == NotFound && result == result0 && foundLabelCount == count0
    ensures file.Readable? ==> status == Ok && foundLabelCount == |file.contents| <= |result|
    ensures file.Readable? ==> result[..foundLabelCount] == file.contents
    ensures file.Readable? ==> forall k :: foundLabelCount <= k < |result| ==> result[k] == ""
    ensures file.Readable? ==> |result| % 16 == 0 && |result| < foundLabelCount + 16
  {
    if !file.Readable? {
      return NotFound, result0, count0;
    }
    result := [];
    var lines := file.contents;
    for k := 0 to |lines|
      invariant result == lines[..k]
    {
      result := result + [lines[k]];
    }
    foundLabelCount := |result|;
    var padding := 16;
    ghost var target := foundLabelCount + (16 - foundLabelCount % 16) % 16;
    while |result| % padding != 0
      invariant foundLabelCount <= |result| <= target
      invariant result[..foundLabelCount] == lines
      invariant forall k :: foundLabelCount <= k < |result| ==> result[k] == ""
      decreases target - |result|
    {
      result := result + [""];
    }
    status := Ok;
  }

  // --------------------------------------------------- readLabelsMapFile

  /** The first `}` at or after `i`. */
  function CloseFrom(s: string, i: nat): (q: Option<nat>)
    requires i <= |s|
    ensures q.Some? ==> i <= q.value < |s| && s[q.value] == '}'
    ensures q.Some? ==> forall k :: i <= k < q.value ==> s[k] != '}'
    ensures q.None? ==> forall k :: i <= k < |s| ==> s[k] != '}'
    decreases |s| - i
  {
    if i == |s| then None else if s[i] == '}' then Some(i) else CloseFrom(s, i + 1)
  }

  /** The successive matches of `item \{([\S\s]*?)\}`: from each `item {`
    * to the first `}` after it, searching on after the previous match. */
  function Entries(s: string): (es: seq<string>)
    decreases |s|
  {
    if |s| < 6 then []
    else if s[..6] == "item {" then
      match CloseFrom(s, 6)
      case Some(q) => [s[..q + 1]] + Entries(s[q + 1..])
      case None => Entries(s[1..])
    else Entries(s[1..])
  }

  /** Every match opens with `item {`, closes with `}` and holds no other `}`. */
  lemma {:induction false} EntriesShape(s: string)
    ensures forall e :: e in Entries(s) ==>
      |e| >= 7 && e[..6] == "item {" && e[|e| - 1] == '}' && forall k :: 6 <= k < |e| - 1 ==> e[k] != '}'
  {
    if |s| >= 6 {
      if s[..6] == "item {" {
        match CloseFrom(s, 6)
        case Some(q) =>
          EntriesShape(s[q + 1..]);
          var e := s[..q + 1];
          assert e[..6] == s[..6];
        case None =>
          EntriesShape(s[1..]);
      } else {
        EntriesShape(s[1..]);
      }
    }
  }

  predicate IsDigit(ch: char) { '0' <= ch <= '9' }

  /** The first index at or after `i` holding a digit. */
  function FirstDigit(e: string, i: nat): (p: nat)
    requires i <= |e|
    ensures i <= p <= |e| && (p < |e| ==> IsDigit(e[p]))
    ensures forall k :: i <= k < p ==> !IsDigit(e[k])
    decreases |e| - i
  {
    if i == |e| || IsDigit(e[i]) then i else FirstDigit(e, i + 1)
  }

  /** The end of the run of digits starting at `i`. */
  function DigitRunEnd(e: string, i: nat): (q: nat)
    requires i <= |e|
    ensures i <= q <= |e| && (q < |e| ==> !IsDigit(e[q]))
    ensures forall k :: i <= k < q ==> IsDigit(e[k])
    decreases |e| - i
  {
    if i < |e| && IsDigit(e[i]) then DigitRunEnd(e, i + 1) else i
  }

  /** The decimal value of a run of digits. */
  function DecimalValue(ds: string): (v: nat)
    requires forall k :: 0 <= k < |ds| ==> IsDigit(ds[k])
  {
    if ds == [] then 0
    else
      var last := ds[|ds| - 1];
      assert IsDigit(last);
      10 * DecimalValue(ds[..|ds| - 1]) + (last as int - '0' as int)
  }

  /** `regex_search(entry, reId)` with `[0-9]+` and `stoi` of the match:
    * the value of the leftmost, longest run of digits. */
  function FirstNumber(e: string): (r: Option<nat>)
    ensures r.None? <==> forall k :: 0 <= k < |e| ==> !IsDigit(e[k])
  {
    var p := FirstDigit(e, 0);
    if p == |e| then None else Some(DecimalValue(e[p..DigitRunEnd(e, p)]))
  }

  /** The line terminators that `.` does not match in an ECMAScript regex. */
  predicate IsLineTerminator(ch: char) {
    ch == '\n' || ch == '\r' || ch == '\U{2028}' || ch == '\U{2029}'
  }

  /** A `'.+'` match from `p` to `q`: quotes at both ends, at least one
    * character and no line terminator between them. */
  predicate QuotePair(e: string, p: nat, q: nat) {
    p + 1 < q < |e| && e[p] == '\'' && e[q] == '\''
    && forall k :: p < k < q ==> !IsLineTerminator(e[k])
  }

  /** The last quote at or after `i` and at least two past `p` on the line
    * that starts after `p`, or `best` if there is none. */
  function LastQuote(e: string, p: nat, i: nat, best: Option<nat>): (q: Option<nat>)
    requires p < i <= |e| && e[p] == '\''
    requires forall k :: p < k < i ==> !IsLineTerminator(e[k])
    requires best.Some? ==> QuotePair(e, p, best.value) && best.value < i
    ensures q.Some? ==> QuotePair(e, p, q.value)
    ensures q.Some? ==> forall k :: i <= k < |e| && QuotePair(e, p, k) ==> k <= q.value
    ensures q.None? ==> best.None? && forall k :: i <= k < |e| ==> !QuotePair(e, p, k)
    ensures q.Some? && best.Some? ==> best.value <= q.value
    decreases |e| - i
  {
    if i == |e| || IsLineTerminator(e[i]) then best
    else
      var best' := if e[i] == '\'' && p + 1 < i then Some(i) else best;
      LastQuote(e, p, i + 1, best')
  }

  /** `regex_search(entry, reName)` with `'.+'`: the leftmost start with a
    * match, extended as far as the line allows; `(p, q)` are the quotes. */
  function QuotedFrom(e: string, p: nat): (r: Option<(nat, nat)>)
    requires p <= |e|
    ensures r.Some? ==> p <= r.value.0 && QuotePair(e, r.value.0, r.value.1)
    ensures r.Some? ==> forall k :: r.value.1 < k < |e| ==> !QuotePair(e, r.value.0, k)
    ensures r.Some? ==> forall s, k :: p <= s < r.value.0 && s < k < |e| ==> !QuotePair(e, s, k)
    ensures r.None? ==> forall s, k :: p <= s < k < |e| ==> !QuotePair(e, s, k)
    decreases |e| - p
  {
    if p == |e| then None
    else if e[p] == '\'' && LastQuote(e, p, p + 1, None).Some? then Some((p, LastQuote(e, p, p + 1, None).value))
    else
      assert forall k :: p < k < |e| ==> !QuotePair(e, p, k) by {
        if e[p] == '\'' {
          assert LastQuote(e, p, p + 1, None).None?;
        }
      }
      QuotedFrom(e, p + 1)
  }

  /** The quoted name of an entry with its quotes stripped. */
  function QuotedName(e: string): (r: Option<string>)
    ensures r.Some? ==> |r.value| >= 1 && forall k :: 0 <= k < |r.value| ==> !IsLineTerminator(r.value[k])
  {
    match QuotedFrom(e, 0)
    case Some((p, q)) => Some(e[p + 1..q])
    case None => None
  }

  /** The `(id, name)` pairs of the entries that have both parts, in order. */
  function Parsed(entries: seq<string>): (r: seq<(nat, string)>)
    ensures |r| <= |entries|
  {
    if entries == [] then []
    else
      var e := entries[|entries| - 1];
      var prefix := Parsed(entries[..|entries| - 1]);
      match (FirstNumber(e), QuotedName(e))
      case (Some(id), Some(name)) => prefix + [(id, name)]
      case _ => prefix
  }

  /** `map::insert`: a key already present keeps its value. */
  function Insert(m: map<int, string>, id: int, name: string): (r: map<int, string>)
    ensures r.Keys == m.Keys + {id}
    ensures forall k :: k in m ==> r[k] == m[k]
    ensures id !in m ==> r[id] == name
  {
    if id in m then m else m[id := name]
  }

  function InsertAll(m: map<int, string>, ps: seq<(nat, string)>): map<int, string> {
    if ps == [] then m else Insert(InsertAll(m, ps[..|ps| - 1]), ps[|ps| - 1].0, ps[|ps| - 1].1)
  }

  /** Inserting a list of pairs adds exactly their ids and keeps every
    * entry already present. */
  lemma {:induction false} InsertAllKeeps(m: map<int, string>, ps: seq<(nat, string)>)
    ensures InsertAll(m, ps).Keys == m.Keys + Ids(ps)
    ensures forall id :: id in m ==> InsertAll(m, ps)[id] == m[id]
  {
    if ps != [] {
      InsertAllKeeps(m, ps[..|ps| - 1]);
      IdsSnoc(ps);
    }
  }

  /** A new id takes the name of the first pair that carries it. */
  lemma {:induction false} FirstWinsAt(m: map<int, string>, ps: seq<(nat, string)>, k: int)
    requires 0 <= k < |ps| && ps[k].0 !in m
    requires forall j :: 0 <= j < k ==> ps[j].0 != ps[k].0
    ensures ps[k].0 in InsertAll(m, ps) && InsertAll(m, ps)[ps[k].0] == ps[k].1
  {
    var n := |ps| - 1;
    var prefix := ps[..n];
    if k < n {
      assert prefix[k] == ps[k];
      assert forall j :: 0 <= j < k ==> prefix[j] == ps[j];
      FirstWinsAt(m, prefix, k);
    } else {
      InsertAllKeeps(m, prefix);
      assert ps[k].0 as int !in Ids(prefix);
    }
  }

  /** Inserting a list of pairs adds exactly their ids, keeps every entry
    * already present, and gives a new id the name of its first pair. */
  lemma InsertAllFirstWins(m: map<int, string>, ps: seq<(nat, string)>)
    ensures InsertAll(m, ps).Keys == m.Keys + Ids(ps)
    ensures forall id :: id in m ==> InsertAll(m, ps)[id] == m[id]
    ensures forall k :: 0 <= k < |ps| && ps[k].0 !in m && (forall j :: 0 <= j < k ==> ps[j].0 != ps[k].0) ==>
      InsertAll(m, ps)[ps[k].0] == ps[k].1
  {
    InsertAllKeeps(m, ps);
    forall k | 0 <= k < |ps| && ps[k].0 !in m && (forall j :: 0 <= j < k ==> ps[j].0 != ps[k].0)
      ensures InsertAll(m, ps)[ps[k].0] == ps[k].1
    {
      FirstWinsAt(m, ps, k);
    }
  }

  /** The ids of a list of pairs. */
  function Ids(ps: seq<(nat, string)>): set<int> {
    set k | 0 <= k < |ps| :: ps[k].0 as int
  }

  lemma IdsSnoc(ps: seq<(nat, string)>)
    requires ps != []
    ensures Ids(ps) == Ids(ps[..|ps| - 1]) + {ps[|ps| - 1].0 as int}
  {
    var n := |ps| - 1;
    forall id | id in Ids(ps)
      ensures id in Ids(ps[..n]) + {ps[n].0 as int}
    {
      var k :| 0 <= k < |ps| && ps[k].0 as int == id;
      if k < n {
        assert ps[..n][k].0 as int == id;
      }
    }
    forall id | id in Ids(ps[..n])
      ensures id in Ids(ps)
    {
      var k :| 0 <= k < n && ps[..n][k].0 as int == id;
      assert ps[k].0 as int == id;
    }
  }

  /** One more entry inserts its pair when it has both an id and a name,
    * and changes nothing otherwise. */
  lemma ParsedStep(m: map<int, string>, entries: seq<string>, i: int)
    requires 0 <= i < |entries|
    ensures FirstNumber(entries[i]).Some? && QuotedName(entries[i]).Some? ==>
      InsertAll(m, Parsed(entries[..i + 1]))
        == Insert(InsertAll(m, Parsed(entries[..i])), FirstNumber(entries[i]).value, QuotedName(entries[i]).value)
    ensures FirstNumber(entries[i]).None? || QuotedName(entries[i]).None? ==>
      Parsed(entries[..i + 1]) == Parsed(entries[..i])
  {
    assert entries[..i + 1][..i] == entries[..i];
    assert entries[..i + 1][i] == entries[i];
    var ps := Parsed(entries[..i]);
    if FirstNumber(entries[i]).Some? && QuotedName(entries[i]).Some? {
      var ps' := ps + [(FirstNumber(entries[i]).value, QuotedName(entries[i]).value)];
      assert Parsed(entries[..i + 1]) == ps';
      assert ps'[..|ps'| - 1] == ps;
    }
  }

  /** Reading the map file: a missing or unreadable file is reported;
    * otherwise every entry with an id and a quoted name is inserted into
    * `labelsMap`, first name winning. */
  method ReadLabelsMapFile(file: FileState<string>, labelsMap: map<int, string>)
    returns (status: Status, m: map<int, string>)
    ensures !file.Readable? ==> status == NotFound && m == labelsMap
    ensures file.Readable? ==> status == Ok && m == InsertAll(labelsMap, Parsed(Entries(file.contents)))
  {
    if !file.Readable? {
      return NotFound, labelsMap;
    }
    var entries := Entries(file.contents);
    m := labelsMap;
    for i := 0 to |entries|
      invariant m == InsertAll(labelsMap, Parsed(entries[..i]))
    {
      ParsedStep(labelsMap, entries, i);
      var entry := entries[i];
      var id := FirstNumber(entry);
      if id.None? {
        continue;
      }
      var name := QuotedName(entry);
      if name.None? {
        continue;
      }
      m := Insert(m, id.value, name.value);
    }
    assert entries[..|entries|] == entries;
    status := Ok;
  }

  /** The stream test as written: `t.bad()` is set only by an unreadable
    * stream; a file that fails to open sets `failbit` instead, reads as
    * empty text, and the map is returned unchanged with `Ok`. */
  function OpenStatusAsWritten(file: FileState<string>): (r: (Status, string))
    ensures r.0 == NotFound <==> file.Unreadable?
    ensures file.Readable? ==> r == (Ok, file.contents)
  {
    match file
    case Unreadable => (NotFound, "")
    case Missing => (Ok, "")
    case Readable(s) => (Ok, s)
  }

  /** A missing map file is reported as success by the code as written. */
  lemma MissingMapFileReportsOk()
    ensures OpenStatusAsWritten(Missing) == (Ok, "")
    ensures Entries(OpenStatusAsWritten(Missing).1) == []
  {
  }

  // ------------------------------------------------------ label decisions

  /** Minimum top score for `CheckTopLabel` to accept its label. */
  const TopScoreMin: real := 0.7

  /** Minimum detection score for the list `detect` to run the classifier. */
  const DetectScoreMin: real := 0.8

  /** The label `detect` expects: the gesture with index 2. */
  const ExpectedLabel := 2

  /** `CheckTopLabel` on the top (index, score) of the classifier, `None`
    * when `GetTopLabels` fails: the status, and `is_expected`. */
  function CheckTopLabel(top: Option<(int, real)>, expected: int): (r: (Status, bool))
    ensures r.0 == Ok <==> top.Some?
    ensures r.1 <==> top.Some? && top.value.1 >= TopScoreMin && top.value.0 == expected
  {
    match top
    case None => (NotFound, false)
    case Some((index, score)) => (Ok, score >= TopScoreMin && index == expected)
  }

  /** The list overload of `detect`: the classifier's top label for box `j`
    * is `tops[j]`. Every retained box writes `is_expected`, so the last one
    * decides; no boxes leaves it false. */
  method DetectList(scores: seq<real>, idxs: seq<nat>, tops: seq<Option<(int, real)>>, isExpected0: bool)
    returns (isExpected: bool)
    requires |tops| == |idxs| && forall j :: 0 <= j < |idxs| ==> idxs[j] < |scores|
    ensures |idxs| == 0 ==> !isExpected
    ensures |idxs| > 0 ==> (isExpected <==>
      scores[idxs[|idxs| - 1]] >= DetectScoreMin && CheckTopLabel(tops[|idxs| - 1], ExpectedLabel).1)
  {
    isExpected := isExpected0;
    if |idxs| == 0 {
      isExpected := false;
    }
    for j := 0 to |idxs|
      invariant j > 0 ==> (isExpected <==>
        scores[idxs[j - 1]] >= DetectScoreMin && CheckTopLabel(tops[j - 1], ExpectedLabel).1)
      invariant |idxs| == 0 ==> !isExpected
    {
      if scores[idxs[j]] < DetectScoreMin {
        isExpected := false;
      } else {
        var (_, e) := CheckTopLabel(tops[j], ExpectedLabel);
        isExpected := e;
      }
    }
  }
}
