/** The Python prototype swarm_nectar.py: the swarm of swarm.py on a square
  * screen, plus a ring of nectar points around the mouse. A running bee that
  * reaches a cell next to nectar stops there and feeds until it is no longer
  * next to nectar. */
module PyNectar {
  import opened Common
  import opened Toroidal
  import opened PySwarm

  /** `SIMULATION_BOUNDS` of swarm_nectar.py. */
  const MapWidth: int := 720
  const MapHeight: int := 720

  /** The default `radius` of `circleNectar`. */
  const NectarRadius: int := 20

  /** The nectar ring has one candidate point per degree. */
  const RingPoints: int := 360

  // ---------------------------------------------------------------------------
  // The nectar map

  /** A nectar map of the screen's shape, indexed by `x` then `y`. */
  predicate MapShape(m: array2<int>) {
    m.Length0 == MapWidth && m.Length1 == MapHeight
  }

  /** `near_nect`: whether the map cell under the clamped position is positive. */
  function NearNectar(m: array2<int>, x: real, y: real): (r: bool)
    requires MapShape(m)
    reads m
  {
    m[ClampIndex(x, MapWidth), ClampIndex(y, MapHeight)] > 0
  }

  /** The ring point for one degree: `int(x + radius * cos)`, `int(y + radius * sin)`. */
  function RingPoint(mouseX: int, y: int, radius: int, cosF: real, sinF: real): (int, int) {
    (CTrunc(mouseX as real + radius as real * cosF), CTrunc(y as real + radius as real * sinF))
  }

  /** The test a ring point passes to become nectar: two cells clear of every edge. */
  predicate Inside(p: (int, int)) {
    2 < p.0 < MapWidth - 2 && 2 < p.1 < MapHeight - 2
  }

  /** The nectar points of the first `n` degrees, in order. */
  function Accepted(mouseX: int, y: int, radius: int, cosT: seq<real>, sinT: seq<real>, n: nat): (r: seq<(int, int)>)
    requires n <= |cosT| == |sinT|
    ensures |r| <= n
    ensures forall k :: 0 <= k < |r| ==> Inside(r[k])
  {
    if n == 0 then []
    else
      var p := RingPoint(mouseX, y, radius, cosT[n - 1], sinT[n - 1]);
      Accepted(mouseX, y, radius, cosT, sinT, n - 1) + (if Inside(p) then [p] else [])
  }

  /** Whether cell `(a, b)` is in the 3×3 block around `p`. */
  function Hit(p: (int, int), a: int, b: int): int {
    if -1 <= a - p.0 <= 1 && -1 <= b - p.1 <= 1 then 1 else 0
  }

  /** How many nectar points cell `(a, b)` is next to: its value in `nect_map`. */
  function Coverage(ps: seq<(int, int)>, a: int, b: int): nat {
    if ps == [] then 0 else Coverage(ps[..|ps| - 1], a, b) + Hit(ps[|ps| - 1], a, b)
  }

  /** The first `k` of the nine increments `circleNectar` makes around `p`
    * (`i` outer, `j` inner) that land on `(a, b)`. */
  function Partial(p: (int, int), k: nat, a: int, b: int): nat
    requires k <= 9
  {
    if k == 0 then 0
    else Partial(p, k - 1, a, b) + (if (p.0 + (k - 1) / 3 - 1, p.1 + (k - 1) % 3 - 1) == (a, b) then 1 else 0)
  }

  /** The nine increments hit each cell of the block once and nothing else. */
  lemma NineIncrements(p: (int, int), a: int, b: int)
    ensures Partial(p, 9, a, b) == Hit(p, a, b)
  {
    PartialCount(p, 9, a, b);
  }

  /** Increment number `j` lands on the cell at offset `(j / 3 - 1, j % 3 - 1)`,
    * so the first `k` increments hit `(a, b)` once if its offset comes before `k`. */
  lemma {:induction false} PartialCount(p: (int, int), k: nat, a: int, b: int)
    requires k <= 9
    ensures var x, y := a - p.0 + 1, b - p.1 + 1;
      Partial(p, k, a, b) == if 0 <= x < 3 && 0 <= y < 3 && 3 * x + y < k then 1 else 0
  {
    if k > 0 {
      PartialCount(p, k - 1, a, b);
    }
  }

  // ---------------------------------------------------------------------------
  // The total of the map

  /** Sum of `Hit` over the cells `0 <= b < n` of one column. */
  function Band(c: int, n: nat): nat {
    if n == 0 then 0 else Band(c, n - 1) + (if -1 <= n - 1 - c <= 1 then 1 else 0)
  }

  /** A band centred at `c >= 1` has `min(3, max(0, n - c + 1))` cells below `n`. */
  lemma {:induction false} BandClosed(c: int, n: nat)
    requires c >= 1
    ensures Band(c, n) == if n - c + 1 <= 0 then 0 else if n - c + 1 >= 3 then 3 else n - c + 1
  {
    if n > 0 {
      BandClosed(c, n - 1);
    }
  }

  /** Sum of the map over the cells `(a, 0) … (a, n - 1)`. */
  function ColumnSum(ps: seq<(int, int)>, a: int, n: nat): nat {
    if n == 0 then 0 else ColumnSum(ps, a, n - 1) + Coverage(ps, a, n - 1)
  }

  /** Sum of the map over the cells `(0 .. m - 1, 0 .. n - 1)`. */
  function GridSum(ps: seq<(int, int)>, m: nat, n: nat): nat {
    if m == 0 then 0 else GridSum(ps, m - 1, n) + ColumnSum(ps, m - 1, n)
  }

  lemma {:induction false} ColumnSumSnoc(ps: seq<(int, int)>, p: (int, int), a: int, n: nat)
    ensures ColumnSum(ps + [p], a, n) == ColumnSum(ps, a, n) + (if -1 <= a - p.0 <= 1 then Band(p.1, n) else 0)
  {
    if n > 0 {
      ColumnSumSnoc(ps, p, a, n - 1);
      assert (ps + [p])[..|ps + [p]| - 1] == ps;
    }
  }

  lemma {:induction false} GridSumSnoc(ps: seq<(int, int)>, p: (int, int), m: nat, n: nat)
    ensures GridSum(ps + [p], m, n) == GridSum(ps, m, n) + Band(p.0, m) * Band(p.1, n)
  {
    if m > 0 {
      GridSumSnoc(ps, p, m - 1, n);
      ColumnSumSnoc(ps, p, m - 1, n);
      var band, h := Band(p.1, n), if -1 <= m - 1 - p.0 <= 1 then 1 else 0;
      assert Band(p.0, m) == Band(p.0, m - 1) + h;
      assert (Band(p.0, m - 1) + h) * band == Band(p.0, m - 1) * band + h * band;
    }
  }

  lemma {:induction false} EmptyColumn(a: int, n: nat)
    ensures ColumnSum([], a, n) == 0
  {
    if n > 0 {
      EmptyColumn(a, n - 1);
    }
  }

  lemma {:induction false} EmptyGrid(m: nat, n: nat)
    ensures GridSum([], m, n) == 0
  {
    if m > 0 {
      EmptyGrid(m - 1, n);
      EmptyColumn(m - 1, n);
    }
  }

  /** Every nectar point clear of the edges adds exactly nine to the map. */
  lemma {:induction false} GridTotal(ps: seq<(int, int)>, m: nat, n: nat)
    requires forall k :: 0 <= k < |ps| ==> 1 <= ps[k].0 <= m - 2 && 1 <= ps[k].1 <= n - 2
    ensures GridSum(ps, m, n) == 9 * |ps|
  {
    if ps == [] {
      EmptyGrid(m, n);
    } else {
      var init, p := ps[..|ps| - 1], ps[|ps| - 1];
      assert ps == init + [p];
      GridTotal(init, m, n);
      GridSumSnoc(init, p, m, n);
      BandClosed(p.0, m);
      BandClosed(p.1, n);
    }
  }

  /** After `circleNectar` the map holds nine per nectar point, at most 3240. */
  lemma NectarMapTotal(mouseX: int, y: int, radius: int, cosT: seq<real>, sinT: seq<real>)
    requires |cosT| == |sinT| == RingPoints
    ensures var ps := Accepted(mouseX, y, radius, cosT, sinT, RingPoints);
      GridSum(ps, MapWidth, MapHeight) == 9 * |ps| <= 9 * RingPoints
  {
    var ps := Accepted(mouseX, y, radius, cosT, sinT, RingPoints);
    GridTotal(ps, MapWidth, MapHeight);
  }

  // ---------------------------------------------------------------------------
  // The feeding bee

  /** A `c_bee` of swarm_nectar.py: the swarm.py bee and its `nectar` flag. */
  datatype Forager = Forager(bee: BeeState, nectar: bool)

  /** The bee is on screen, and a feeding bee stands still. */
  predicate Settled(f: Forager) {
    && -BeeSize <= f.bee.body.x <= MapWidth as real + BeeSize
    && -BeeSize <= f.bee.body.y <= MapHeight as real + BeeSize
    && (f.nectar ==> f.bee.body.vx == 0.0 && f.bee.body.vy == 0.0)
  }

  /** `c_bee.update(nectar_map)` where `near` is `near_nect` at the bee's
    * position when the call starts. */
  function ForagerStep(f: Forager, uTimer: real, uTurn: real, cosF: real, sinF: real, near: bool): (r: Forager)
    requires 0.0 <= uTimer <= 1.0 && 0.0 <= uTurn <= 1.0
  {
    var before :=
      if !f.nectar then
        var c := Steered(Countdown(f.bee, uTimer, uTurn), cosF, sinF);
        if c.moving && near then Forager(c.(body := c.body.(vx := 0.0, vy := 0.0)), true)
        else Forager(c, false)
      else Forager(f.bee, near);
    before.(bee := before.bee.(body := Moved(before.bee.body, Dt, BeeSize, MapWidth as real, MapHeight as real)))
  }

  /** A bee that is running when it reaches nectar stops there and feeds. */
  lemma ReachingNectar(f: Forager, uTimer: real, uTurn: real, cosF: real, sinF: real)
    requires 0.0 <= uTimer <= 1.0 && 0.0 <= uTurn <= 1.0
    requires Settled(f) && !f.nectar && Countdown(f.bee, uTimer, uTurn).moving
    ensures var r := ForagerStep(f, uTimer, uTurn, cosF, sinF, true);
      r.nectar && r.bee.body.vx == 0.0 && r.bee.body.vy == 0.0
      && r.bee.body.x == f.bee.body.x && r.bee.body.y == f.bee.body.y
  {
    var c := Steered(Countdown(f.bee, uTimer, uTurn), cosF, sinF);
    RestingStaysPut(c.body.(vx := 0.0, vy := 0.0), Dt, BeeSize, MapWidth as real, MapHeight as real);
  }

  /** While the bee feeds its timer and position stay as they are, and it
    * keeps feeding exactly as long as it is next to nectar. */
  lemma Feeding(f: Forager, uTimer: real, uTurn: real, cosF: real, sinF: real, near: bool)
    requires 0.0 <= uTimer <= 1.0 && 0.0 <= uTurn <= 1.0
    requires Settled(f) && f.nectar
    ensures var r := ForagerStep(f, uTimer, uTurn, cosF, sinF, near);
      r.nectar == near && r.bee.timer == f.bee.timer && r.bee.moving == f.bee.moving
      && r.bee.body.x == f.bee.body.x && r.bee.body.y == f.bee.body.y
  {
    RestingStaysPut(f.bee.body, Dt, BeeSize, MapWidth as real, MapHeight as real);
  }

  /** A step keeps a bee on screen and a feeding bee at rest. */
  lemma ForagerStepSettles(f: Forager, uTimer: real, uTurn: real, cosF: real, sinF: real, near: bool)
    requires 0.0 <= uTimer <= 1.0 && 0.0 <= uTurn <= 1.0
    requires Settled(f)
    ensures Settled(ForagerStep(f, uTimer, uTurn, cosF, sinF, near))
  {
  }

  /** A bee that does not feed and is not next to nectar moves as in swarm.py,
    * on the square screen. */
  lemma AwayFromNectar(f: Forager, uTimer: real, uTurn: real, cosF: real, sinF: real)
    requires 0.0 <= uTimer <= 1.0 && 0.0 <= uTurn <= 1.0
    requires !f.nectar
    ensures var r := ForagerStep(f, uTimer, uTurn, cosF, sinF, false);
      var c := Steered(Countdown(f.bee, uTimer, uTurn), cosF, sinF);
      !r.nectar && r.bee == c.(body := Moved(c.body, Dt, BeeSize, MapWidth as real, MapHeight as real))
  {
  }

  /** `c_bee` of swarm_nectar.py. */
  class NectarBee {
    const size: real
    var x: real
    var y: real
    var vx: real
    var vy: real
    var angle: real
    var angVel: real
    var moving: bool
    var timer: real
    var nectar: bool

    function State(): Forager
      reads this
    {
      Forager(BeeState(Body(x, y, vx, vy, angle, angVel), moving, timer), nectar)
    }

    /** `c_bee.__init__` with its two uniform draws. */
    constructor (uPosition: real, uAngle: real)
      requires 0.0 <= uPosition <= 1.0 && 0.0 <= uAngle <= 1.0
      ensures size == BeeSize
      ensures State() == Forager(Spawned(uPosition, uAngle, MapWidth as real, MapHeight as real), false)
    {
      size := BeeSize;
      var position := Uniform(0.0, MapWidth as real + MapHeight as real + 4.0 * BeeSize, uPosition);
      if position < MapWidth as real + 2.0 * BeeSize {
        x, y := position - BeeSize, -BeeSize;
      } else {
        x, y := -BeeSize, position - MapWidth as real - 2.0 * BeeSize - BeeSize;
      }
      vx, vy := 0.0, 0.0;
      angle := Uniform(0.0, TwoPi, uAngle);
      angVel := 0.0;
      moving := false;
      timer := 0.0;
      nectar := false;
    }

    /** `near_nect`. */
    method NearNect(nectarMap: array2<int>) returns (near: bool)
      requires MapShape(nectarMap)
      ensures near == NearNectar(nectarMap, x, y)
    {
      var mapX := CTrunc(x);
      var mapY := CTrunc(y);
      if mapX < 0 {
        mapX := 0;
      }
      if mapX >= MapWidth {
        mapX := MapWidth - 1;
      }
      if mapY < 0 {
        mapY := 0;
      }
      if mapY >= MapHeight {
        mapY := MapHeight - 1;
      }
      near := nectarMap[mapX, mapY] > 0;
    }

    /** `c_entity.update` on the square screen. */
    method Move()
      requires size == BeeSize
      modifies this
      ensures State() == old(State()).(bee := old(State()).bee.(body := Moved(old(State()).bee.body, Dt, BeeSize, MapWidth as real, MapHeight as real)))
    {
      x := x + vx * Dt;
      y := y + vy * Dt;
      x := WrapClosed(x, MapWidth as real, size);
      y := WrapClosed(y, MapHeight as real, size);
      angle := angle + angVel * Dt;
      angle := WrapValue(angle, TwoPi, 0.0);
    }

    /** `c_bee.update(nectar_map)`; `cosF` and `sinF` are the cosine and sine
      * of the facing the bee has when the call starts. */
    method Update(nectarMap: array2<int>, uTimer: real, uTurn: real, cosF: real, sinF: real)
      requires MapShape(nectarMap)
      requires 0.0 <= uTimer <= 1.0 && 0.0 <= uTurn <= 1.0
      requires size == BeeSize
      modifies this
      ensures State() == ForagerStep(old(State()), uTimer, uTurn, cosF, sinF, NearNectar(nectarMap, old(x), old(y)))
    {
      if !nectar {
        timer := timer - Dt;
        if timer < 0.0 {
          moving := !moving;
          timer := if moving then Uniform(MoveTimeMin, MoveTimeMax, uTimer) else Uniform(StopTimeMin, StopTimeMax, uTimer);
          if moving {
            angVel := Uniform(-BeeTurn, BeeTurn, uTurn);
          } else {
            vx, vy := 0.0, 0.0;
            angVel := Uniform(-BeeTurn, BeeTurn, uTurn);
          }
        }
        if moving {
          vx, vy := cosF * BeeSpeed, sinF * BeeSpeed;
          var near := NearNect(nectarMap);
          if near {
            nectar := true;
            vx, vy := 0.0, 0.0;
          }
        }
      } else {
        var near := NearNect(nectarMap);
        if !near {
          nectar := false;
        }
      }
      Move();
    }
  }

  /** Bee number `k` of the list after its update in one tick of the swarm. */
  function ForagerTicked(f: Forager, k: nat, near: bool, rng: nat -> real, cos: real -> real, sin: real -> real): Forager
    requires forall j :: 0.0 <= rng(j) <= 1.0
  {
    ForagerStep(f, rng(2 + 2 * k), rng(3 + 2 * k), cos(f.bee.body.angle), sin(f.bee.body.angle), near)
  }

  /** `c_swarm` of swarm_nectar.py without its display. */
  class NectarSwarm {
    var mode: int
    var desiredBeeCount: nat
    var bees: seq<NectarBee>
    var nectMap: array2<int>
    var nectar: seq<(int, int)>

    predicate Valid()
      reads this
    {
      && MapShape(nectMap)
      && (forall i, j :: 0 <= i < j < |bees| ==> bees[i] != bees[j])
      && (forall i :: 0 <= i < |bees| ==> bees[i].size == BeeSize)
    }

    /** The map holds, in every cell, the number of nectar points next to it. */
    predicate MapMatches()
      reads this, nectMap
    {
      MapShape(nectMap)
      && forall a, b :: 0 <= a < MapWidth && 0 <= b < MapHeight ==> nectMap[a, b] == Coverage(nectar, a, b)
    }

    /** `c_swarm.__init__` with the mouse position and the ring's trigonometry. */
    constructor (mouseX: int, mouseY: int, cosT: seq<real>, sinT: seq<real>)
      requires |cosT| == |sinT| == RingPoints
      ensures Valid() && MapMatches()
      ensures mode == BeeMode && desiredBeeCount == BeeInitialCount && bees == []
      ensures nectar == Accepted(mouseX, MapHeight - mouseY, NectarRadius, cosT, sinT, RingPoints)
    {
      mode := BeeMode;
      desiredBeeCount := BeeInitialCount;
      bees := [];
      nectMap := new int[MapWidth, MapHeight]((a, b) => 0);
      nectar := [];
      new;
      CircleNectar(mouseX, mouseY, NectarRadius, cosT, sinT);
    }

    /** `circleNectar(mouse_x, mouse_y, radius)`: a fresh map and nectar list
      * for the ring of 360 points around the mouse, the `y` axis flipped;
      * `cosT[i]` and `sinT[i]` are the cosine and sine of `i` degrees. */
    method CircleNectar(mouseX: int, mouseY: int, radius: int, cosT: seq<real>, sinT: seq<real>)
      requires |cosT| == |sinT| == RingPoints
      modifies this
      ensures fresh(nectMap) && MapMatches()
      ensures nectar == Accepted(mouseX, MapHeight - mouseY, radius, cosT, sinT, RingPoints)
      ensures |nectar| <= RingPoints
      ensures mode == old(mode) && desiredBeeCount == old(desiredBeeCount) && bees == old(bees)
    {
      nectMap := new int[MapWidth, MapHeight]((a, b) => 0);
      nectar := [];
      var y := MapHeight - mouseY;
      for i := 0 to RingPoints
        invariant fresh(nectMap) && MapMatches()
        invariant nectar == Accepted(mouseX, y, radius, cosT, sinT, i)
        invariant mode == old(mode) && desiredBeeCount == old(desiredBeeCount) && bees == old(bees)
      {
        var pointX := CTrunc(mouseX as real + radius as real * cosT[i]);
        var pointY := CTrunc(y as real + radius as real * sinT[i]);
        ghost var next := Accepted(mouseX, y, radius, cosT, sinT, i + 1);
        assert (pointX, pointY) == RingPoint(mouseX, y, radius, cosT[i], sinT[i]);
        if 2 < pointX < MapWidth - 2 && 2 < pointY < MapHeight - 2 {
          assert next == nectar + [(pointX, pointY)];
          AddNectar((pointX, pointY));
        } else {
          assert next == nectar;
        }
      }
    }

    /** Appends one nectar point and adds one to each cell of the 3×3 block around it. */
    method AddNectar(p: (int, int))
      requires MapMatches() && Inside(p)
      modifies this, nectMap
      ensures MapMatches() && nectar == old(nectar) + [p] && nectMap == old(nectMap)
      ensures mode == old(mode) && desiredBeeCount == old(desiredBeeCount) && bees == old(bees)
    {
      ghost var ps := nectar;
      nectar := nectar + [p];
      assert nectar[..|nectar| - 1] == ps;
      for k := 0 to 9
        invariant nectMap == old(nectMap) && MapShape(nectMap) && nectar == ps + [p]
        invariant mode == old(mode) && desiredBeeCount == old(desiredBeeCount) && bees == old(bees)
        invariant forall a, b :: 0 <= a < MapWidth && 0 <= b < MapHeight ==>
          nectMap[a, b] == Coverage(ps, a, b) + Partial(p, k, a, b)
      {
        var a, b := p.0 + k / 3 - 1, p.1 + k % 3 - 1;
        nectMap[a, b] := nectMap[a, b] + 1;
      }
      forall a, b | 0 <= a < MapWidth && 0 <= b < MapHeight
        ensures nectMap[a, b] == Coverage(nectar, a, b)
      {
        NineIncrements(p, a, b);
      }
    }

    /** `c_swarm.update(…)`: one bee more or fewer toward the desired count,
      * then every bee updated against the nectar map; random draws and
      * trigonometry as in swarm.py. */
    method Update(rng: nat -> real, cos: real -> real, sin: real -> real)
      requires Valid()
      requires forall k :: 0.0 <= rng(k) <= 1.0
      modifies this, bees
      ensures Valid() && mode == old(mode) && desiredBeeCount == old(desiredBeeCount)
      ensures nectMap == old(nectMap) && nectar == old(nectar)
      ensures mode != BeeMode ==> bees == old(bees) && forall i :: 0 <= i < |bees| ==> bees[i].State() == old(bees[i].State())
      ensures mode == BeeMode ==> |bees| == PopulationStep(old(|bees|), desiredBeeCount)
      ensures mode == BeeMode ==> forall i :: 0 <= i < |bees| && i < old(|bees|) ==>
        bees[i] == old(bees[i])
        && bees[i].State() == ForagerTicked(old(bees[i].State()), i, NearNectar(nectMap, old(bees[i].x), old(bees[i].y)), rng, cos, sin)
      ensures mode == BeeMode && |bees| > old(|bees|) ==>
        var n := old(|bees|);
        var s := Forager(Spawned(rng(0), rng(1), MapWidth as real, MapHeight as real), false);
        fresh(bees[n]) && bees[n].State() == ForagerTicked(s, n, NearNectar(nectMap, s.bee.body.x, s.bee.body.y), rng, cos, sin)
    {
      if mode == BeeMode {
        if |bees| < desiredBeeCount {
          var b := new NectarBee(rng(0), rng(1));
          bees := bees + [b];
        } else if |bees| > desiredBeeCount {
          bees := bees[..|bees| - 1];
        }
        UpdateBees(rng, cos, sin);
      }
    }

    /** The `for bee in self.bees` loop of `c_swarm.update`. */
    method UpdateBees(rng: nat -> real, cos: real -> real, sin: real -> real)
      requires Valid()
      requires forall k :: 0.0 <= rng(k) <= 1.0
      modifies bees
      ensures forall k :: 0 <= k < |bees| ==>
        bees[k].State() == ForagerTicked(old(bees[k].State()), k, NearNectar(nectMap, old(bees[k].x), old(bees[k].y)), rng, cos, sin)
    {
      ghost var before := seq(|bees|, k requires 0 <= k < |bees| reads this, bees => bees[k].State());
      ghost var m := nectMap;
      ghost var after := seq(|before|, k requires 0 <= k < |before| reads m =>
        ForagerTicked(before[k], k, NearNectar(m, before[k].bee.body.x, before[k].bee.body.y), rng, cos, sin));
      for i := 0 to |bees|
        invariant forall k :: 0 <= k < i ==> bees[k].State() == after[k]
        invariant forall k :: i <= k < |bees| ==> bees[k].State() == before[k]
      {
        var b := bees[i];
        assert b.State() == before[i] && b.size == BeeSize;
        assert forall k :: 0 <= k < |bees| && k != i ==> bees[k] != b;
        ghost var near := NearNectar(m, b.x, b.y);
        assert after[i] == ForagerTicked(before[i], i, near, rng, cos, sin);
        b.Update(nectMap, rng(2 + 2 * i), rng(3 + 2 * i), cos(b.angle), sin(b.angle));
        assert b.State() == after[i];
      }
    }
  }
}
