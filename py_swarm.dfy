/** The Python prototype swarm.py: bees enter at the left or bottom edge,
  * alternate between standing still and running straight along their facing
  * while they turn, and wrap around the screen; the swarm grows or shrinks by
  * one bee per tick toward its desired size. */
module PySwarm {
  import opened Common
  import opened Toroidal

  /** `DT`: one tick at 60 frames per second. */
  const Dt: real := 1.0 / 60.0

  /** `2 * math.pi`, the double nearest to 2π. */
  const TwoPi: real := 6.283185307179586

  /** `SIMULATION_BOUNDS` of swarm.py. */
  const Width: real := 720.0
  const Height: real := 1280.0

  const BeeSize: real := 2.0
  const BeeTurn: real := TwoPi
  const StopTimeMin: real := 0.1
  const StopTimeMax: real := 0.4
  const MoveTimeMin: real := 0.2
  const MoveTimeMax: real := 0.8
  const BeeSpeed: real := 120.0
  const BeeInitialCount: int := 1000

  const QuitMode: int := 0
  const BeeMode: int := 1

  /** The fields of `c_entity` that `update` touches. */
  datatype Body = Body(x: real, y: real, vx: real, vy: real, angle: real, angVel: real)

  /** The screen of a prototype and the entity radius that serves as its gutter. */
  predicate Bounds(w: real, h: real, size: real) {
    w > 0.0 && h > 0.0 && size >= 0.0
  }

  /** `c_entity.update` of the Python prototypes, with their tick `dt`: one
    * step of both velocities, then the position wrapped into the closed range
    * `[-size, bound + size]` and the facing into `[0, 2π)`. */
  function Moved(b: Body, dt: real, size: real, w: real, h: real): (r: Body)
    requires Bounds(w, h, size)
    ensures -size <= r.x <= w + size && -size <= r.y <= h + size
    ensures 0.0 <= r.angle < TwoPi
    ensures r.vx == b.vx && r.vy == b.vy && r.angVel == b.angVel
    ensures -size <= b.x + b.vx * dt <= w + size ==> r.x == b.x + b.vx * dt
    ensures -size <= b.y + b.vy * dt <= h + size ==> r.y == b.y + b.vy * dt
    ensures 0.0 <= b.angle + b.angVel * dt < TwoPi ==> r.angle == b.angle + b.angVel * dt
  {
    Body(WrapClosedOf(b.x + b.vx * dt, w, size), WrapClosedOf(b.y + b.vy * dt, h, size),
         b.vx, b.vy, WrapOf(b.angle + b.angVel * dt, TwoPi, 0.0), b.angVel)
  }

  /** An entity at rest inside the screen stays where it is. */
  lemma RestingStaysPut(b: Body, dt: real, size: real, w: real, h: real)
    requires Bounds(w, h, size)
    requires b.vx == 0.0 && b.vy == 0.0
    requires -size <= b.x <= w + size && -size <= b.y <= h + size
    ensures Moved(b, dt, size, w, h).x == b.x && Moved(b, dt, size, w, h).y == b.y
  {
  }

  /** Where `c_bee.__init__` puts a new bee for the draw `u` of
    * `random.uniform(0, W + H + 4 * size)`: along the bottom edge or up the
    * left edge, in the gutter. */
  function SpawnPoint(u: real, size: real, w: real, h: real): (p: (real, real))
    requires 0.0 <= u <= 1.0 && Bounds(w, h, size)
    ensures (p.1 == -size && -size <= p.0 < w + size) || (p.0 == -size && -size <= p.1 <= h + size)
  {
    var position := Uniform(0.0, w + h + 4.0 * size, u);
    if position < w + 2.0 * size then (position - size, -size)
    else (-size, position - w - 2.0 * size - size)
  }

  /** The state of a `c_bee`. */
  datatype BeeState = BeeState(body: Body, moving: bool, timer: real)

  /** A new bee: spawned on the edge at rest, facing drawn from `[0, 2π]`,
    * standing still with an expired timer. */
  function Spawned(uPosition: real, uAngle: real, w: real, h: real): (s: BeeState)
    requires 0.0 <= uPosition <= 1.0 && 0.0 <= uAngle <= 1.0 && Bounds(w, h, BeeSize)
    ensures s.body.y == -BeeSize || s.body.x == -BeeSize
    ensures -BeeSize <= s.body.x <= w + BeeSize && -BeeSize <= s.body.y <= h + BeeSize
    ensures 0.0 <= s.body.angle <= TwoPi
    ensures s.body.vx == 0.0 && s.body.vy == 0.0 && s.body.angVel == 0.0
    ensures !s.moving && s.timer == 0.0
  {
    var p := SpawnPoint(uPosition, BeeSize, w, h);
    BeeState(Body(p.0, p.1, 0.0, 0.0, Uniform(0.0, TwoPi, uAngle), 0.0), false, 0.0)
  }

  /** The timer runs out this tick. */
  predicate Expires(s: BeeState) {
    s.timer - Dt < 0.0
  }

  /** The running/standing phase and its timer after the countdown of
    * `c_bee.update`: on expiry the phase flips and the timer reloads from
    * the new phase's range, with a new turn rate. */
  function Countdown(s: BeeState, uTimer: real, uTurn: real): (r: BeeState)
    requires 0.0 <= uTimer <= 1.0 && 0.0 <= uTurn <= 1.0
    ensures r.moving == (if Expires(s) then !s.moving else s.moving)
    ensures Expires(s) && r.moving ==> MoveTimeMin <= r.timer <= MoveTimeMax
    ensures Expires(s) && !r.moving ==> StopTimeMin <= r.timer <= StopTimeMax
    ensures Expires(s) ==> -BeeTurn <= r.body.angVel <= BeeTurn
    ensures Expires(s) && !r.moving ==> r.body.vx == 0.0 && r.body.vy == 0.0
    ensures !Expires(s) ==> r == s.(timer := s.timer - Dt)
    ensures r.body.x == s.body.x && r.body.y == s.body.y && r.body.angle == s.body.angle
  {
    var timer := s.timer - Dt;
    if timer < 0.0 then
      var moving := !s.moving;
      var reload := if moving then Uniform(MoveTimeMin, MoveTimeMax, uTimer) else Uniform(StopTimeMin, StopTimeMax, uTimer);
      var turn := Uniform(-BeeTurn, BeeTurn, uTurn);
      var body := if moving then s.body.(angVel := turn) else s.body.(vx := 0.0, vy := 0.0, angVel := turn);
      BeeState(body, moving, reload)
    else
      s.(timer := timer)
  }

  /** `c_vector2d(facing=a, magnitude=BEE_SPEED)` for `cosF == cos(a)` and
    * `sinF == sin(a)`: a running bee's velocity is set afresh each tick. */
  function Steered(s: BeeState, cosF: real, sinF: real): (r: BeeState)
    ensures s.moving ==> r.body.vx == cosF * BeeSpeed && r.body.vy == sinF * BeeSpeed
    ensures !s.moving ==> r == s
    ensures r.moving == s.moving && r.timer == s.timer
  {
    if s.moving then s.(body := s.body.(vx := cosF * BeeSpeed, vy := sinF * BeeSpeed)) else s
  }

  /** `c_bee.update` with the two uniform draws, and the cosine and sine of the
    * facing before the move. */
  function Step(s: BeeState, uTimer: real, uTurn: real, cosF: real, sinF: real): (r: BeeState)
    requires 0.0 <= uTimer <= 1.0 && 0.0 <= uTurn <= 1.0
  {
    var c := Steered(Countdown(s, uTimer, uTurn), cosF, sinF);
    c.(body := Moved(c.body, Dt, BeeSize, Width, Height))
  }

  /** One tick of `c_bee.update`: the phase flips exactly when the timer runs
    * out; a running bee heads along its old facing at `BEE_SPEED`, a bee that
    * has just stopped has no velocity, and the bee stays on screen. */
  lemma StepProperties(s: BeeState, uTimer: real, uTurn: real, cosF: real, sinF: real)
    requires 0.0 <= uTimer <= 1.0 && 0.0 <= uTurn <= 1.0
    ensures var r := Step(s, uTimer, uTurn, cosF, sinF);
      && r.moving == (s.moving != Expires(s))
      && (r.moving ==> r.body.vx == cosF * BeeSpeed && r.body.vy == sinF * BeeSpeed)
      && (!r.moving && Expires(s) ==> r.body.vx == 0.0 && r.body.vy == 0.0)
      && (Expires(s) ==> (if r.moving then MoveTimeMin <= r.timer <= MoveTimeMax else StopTimeMin <= r.timer <= StopTimeMax))
      && (!Expires(s) ==> r.timer == s.timer - Dt && r.body.angVel == s.body.angVel)
      && -BeeSize <= r.body.x <= Width + BeeSize && -BeeSize <= r.body.y <= Height + BeeSize
      && 0.0 <= r.body.angle < TwoPi
  {
  }

  /** A standing bee whose timer has not run out keeps its place. */
  lemma StandingBeeStaysPut(s: BeeState, uTimer: real, uTurn: real, cosF: real, sinF: real)
    requires 0.0 <= uTimer <= 1.0 && 0.0 <= uTurn <= 1.0
    requires !s.moving && !Expires(s) && s.body.vx == 0.0 && s.body.vy == 0.0
    requires -BeeSize <= s.body.x <= Width + BeeSize && -BeeSize <= s.body.y <= Height + BeeSize
    ensures Step(s, uTimer, uTurn, cosF, sinF).body.x == s.body.x
    ensures Step(s, uTimer, uTurn, cosF, sinF).body.y == s.body.y
  {
    RestingStaysPut(s.body, Dt, BeeSize, Width, Height);
  }

  /** One tick's inputs for one bee. */
  datatype Tick = Tick(uTimer: real, uTurn: real, cosF: real, sinF: real)
  {
    predicate Valid() { 0.0 <= uTimer <= 1.0 && 0.0 <= uTurn <= 1.0 }
  }

  /** A bee after consecutive ticks. */
  function Run(s: BeeState, ticks: seq<Tick>): BeeState
    requires forall k :: 0 <= k < |ticks| ==> ticks[k].Valid()
    decreases |ticks|
  {
    if ticks == [] then s
    else assert ticks[0].Valid(); Run(Step(s, ticks[0].uTimer, ticks[0].uTurn, ticks[0].cosF, ticks[0].sinF), ticks[1..])
  }

  /** A timer holding at least `n` ticks keeps the bee in its phase for `n`
    * ticks; since every reload is at least `BEE_STOP_TIME[0]`, six ticks, a
    * bee never flips phase on two consecutive ticks. */
  lemma {:induction false} PhaseHolds(s: BeeState, ticks: seq<Tick>)
    requires forall k :: 0 <= k < |ticks| ==> ticks[k].Valid()
    requires s.timer >= |ticks| as real * Dt
    ensures Run(s, ticks).moving == s.moving
    ensures Run(s, ticks).timer == s.timer - |ticks| as real * Dt
    decreases |ticks|
  {
    if ticks != [] {
      var t := ticks[0];
      assert t.Valid();
      var next := Step(s, t.uTimer, t.uTurn, t.cosF, t.sinF);
      assert !Expires(s);
      assert next.moving == s.moving && next.timer == s.timer - Dt;
      PhaseHolds(next, ticks[1..]);
    }
  }

  /** After the phase flips, the next six ticks do not flip it again. */
  lemma ReloadHoldsSixTicks(s: BeeState, t: Tick, ticks: seq<Tick>)
    requires t.Valid() && forall k :: 0 <= k < |ticks| ==> ticks[k].Valid()
    requires Expires(s) && |ticks| <= 6
    ensures Run(Step(s, t.uTimer, t.uTurn, t.cosF, t.sinF), ticks).moving == !s.moving
  {
    var next := Step(s, t.uTimer, t.uTurn, t.cosF, t.sinF);
    StepProperties(s, t.uTimer, t.uTurn, t.cosF, t.sinF);
    assert next.timer >= StopTimeMin;
    PhaseHolds(next, ticks);
  }

  /** `c_bee`. */
  class Bee {
    const size: real
    var x: real
    var y: real
    var vx: real
    var vy: real
    var angle: real
    var angVel: real
    var moving: bool
    var timer: real

    function State(): BeeState
      reads this
    {
      BeeState(Body(x, y, vx, vy, angle, angVel), moving, timer)
    }

    /** `c_bee.__init__` with its two uniform draws. */
    constructor (uPosition: real, uAngle: real)
      requires 0.0 <= uPosition <= 1.0 && 0.0 <= uAngle <= 1.0
      ensures size == BeeSize
      ensures State() == Spawned(uPosition, uAngle, Width, Height)
    {
      size := BeeSize;
      var position := Uniform(0.0, Width + Height + 4.0 * BeeSize, uPosition);
      if position < Width + 2.0 * BeeSize {
        x, y := position - BeeSize, -BeeSize;
      } else {
        x, y := -BeeSize, position - Width - 2.0 * BeeSize - BeeSize;
      }
      vx, vy := 0.0, 0.0;
      angle := Uniform(0.0, TwoPi, uAngle);
      angVel := 0.0;
      moving := false;
      timer := 0.0;
    }

    /** `c_entity.update`, with its four wrap loops. */
    method Move()
      requires size == BeeSize
      modifies this
      ensures State() == old(State()).(body := Moved(old(State()).body, Dt, BeeSize, Width, Height))
    {
      x := x + vx * Dt;
      y := y + vy * Dt;
      x := WrapClosed(x, Width, size);
      y := WrapClosed(y, Height, size);
      angle := angle + angVel * Dt;
      angle := WrapValue(angle, TwoPi, 0.0);
    }

    /** `c_bee.update`; `cosF` and `sinF` are the cosine and sine of the
      * facing the bee has when the call starts. */
    method Update(uTimer: real, uTurn: real, cosF: real, sinF: real)
      requires 0.0 <= uTimer <= 1.0 && 0.0 <= uTurn <= 1.0
      requires size == BeeSize
      modifies this
      ensures State() == Step(old(State()), uTimer, uTurn, cosF, sinF)
    {
      timer := timer - Dt;
      if timer < 0.0 {
        moving := !moving;
        timer := if moving then Uniform(MoveTimeMin, MoveTimeMax, uTimer) else Uniform(StopTimeMin, StopTimeMax, uTimer);
        if moving {
          angVel := Uniform(-BeeTurn, BeeTurn, uTurn);
        } else {
          vx, vy := 0.0, 0.0;
          angVel := Uniform(-BeeTurn, BeeTurn, uTurn);
        }
      }
      if moving {
        vx, vy := cosF * BeeSpeed, sinF * BeeSpeed;
      }
      Move();
    }
  }

  /** The bee count after one tick of `c_swarm.update`. */
  function PopulationStep(count: nat, desired: nat): (r: nat)
    ensures count < desired ==> r == count + 1
    ensures count > desired ==> r == count - 1
    ensures count == desired ==> r == count
  {
    if count < desired then count + 1 else if count > desired then count - 1 else count
  }

  /** The bee count after `n` ticks. */
  function PopulationRun(count: nat, desired: nat, n: nat): nat
    decreases n
  {
    if n == 0 then count else PopulationRun(PopulationStep(count, desired), desired, n - 1)
  }

  /** The count moves one bee per tick toward the desired count, reaches it
    * and stays there: after `n` ticks it is the desired count or `n` bees
    * closer to it. */
  lemma {:induction false} PopulationConverges(count: nat, desired: nat, n: nat)
    ensures var r := PopulationRun(count, desired, n);
      if count <= desired then r == if count + n <= desired then count + n else desired
      else r == if count - n >= desired then count - n else desired
    decreases n
  {
    if n > 0 {
      PopulationConverges(PopulationStep(count, desired), desired, n - 1);
    }
  }

  /** Running one more tick applies one more population step at the end. */
  lemma {:induction false} PopulationRunLast(count: nat, desired: nat, n: nat)
    ensures PopulationRun(count, desired, n + 1) == PopulationStep(PopulationRun(count, desired, n), desired)
    decreases n
  {
    if n > 0 {
      PopulationRunLast(PopulationStep(count, desired), desired, n - 1);
    }
  }

  /** Bee number `k` of the list after its `c_bee.update` in one tick of the
    * swarm, with its draws taken from `rng(2 + 2 * k)` and `rng(3 + 2 * k)`. */
  function Ticked(s: BeeState, k: nat, rng: nat -> real, cos: real -> real, sin: real -> real): BeeState
    requires forall j :: 0.0 <= rng(j) <= 1.0
  {
    Step(s, rng(2 + 2 * k), rng(3 + 2 * k), cos(s.body.angle), sin(s.body.angle))
  }

  /** `c_swarm` without its display. */
  class Swarm {
    var mode: int
    var desiredBeeCount: nat
    var bees: seq<Bee>

    /** Every bee appears once in the list and is bee-sized. */
    predicate Valid()
      reads this
    {
      (forall i, j :: 0 <= i < j < |bees| ==> bees[i] != bees[j])
      && forall i :: 0 <= i < |bees| ==> bees[i].size == BeeSize
    }

    constructor ()
      ensures Valid() && mode == BeeMode && desiredBeeCount == BeeInitialCount && bees == []
    {
      mode := BeeMode;
      desiredBeeCount := BeeInitialCount;
      bees := [];
    }

    /** `c_swarm.update`. The random stream `rng` feeds the new bee with
      * `rng(0)`, `rng(1)` and bee `i` with `rng(2 + 2 * i)`, `rng(3 + 2 * i)`;
      * `cos` and `sin` are the trigonometric functions. */
    method Update(rng: nat -> real, cos: real -> real, sin: real -> real)
      requires Valid()
      requires forall k :: 0.0 <= rng(k) <= 1.0
      modifies this, bees
      ensures Valid() && mode == old(mode) && desiredBeeCount == old(desiredBeeCount)
      ensures mode != BeeMode ==> bees == old(bees) && forall i :: 0 <= i < |bees| ==> bees[i].State() == old(bees[i].State())
      ensures mode == BeeMode ==> |bees| == PopulationStep(old(|bees|), desiredBeeCount)
      ensures mode == BeeMode ==> forall i :: 0 <= i < |bees| && i < old(|bees|) ==>
        bees[i] == old(bees[i]) && bees[i].State() == Ticked(old(bees[i].State()), i, rng, cos, sin)
      ensures mode == BeeMode && |bees| > old(|bees|) ==>
        var n := old(|bees|);
        fresh(bees[n]) && bees[n].State() == Ticked(Spawned(rng(0), rng(1), Width, Height), n, rng, cos, sin)
    {
      if mode == BeeMode {
        if |bees| < desiredBeeCount {
          var b := new Bee(rng(0), rng(1));
          bees := bees + [b];
        } else if |bees| > desiredBeeCount {
          bees := bees[..|bees| - 1];
        }
        UpdateBees(rng, cos, sin);
      }
    }

    /** The `for bee in self.bees` loop of `c_swarm.update`. */
    method UpdateBees(rng: nat -> real, cos: real -> real, sin: real -> real)
      requires Valid()
      requires forall k :: 0.0 <= rng(k) <= 1.0
      modifies bees
      ensures forall k :: 0 <= k < |bees| ==> bees[k].State() == Ticked(old(bees[k].State()), k, rng, cos, sin)
    {
      ghost var before := seq(|bees|, k requires 0 <= k < |bees| reads this, bees => bees[k].State());
      ghost var after := seq(|before|, k requires 0 <= k < |before| => Ticked(before[k], k, rng, cos, sin));
      for i := 0 to |bees|
        invariant forall k :: 0 <= k < i ==> bees[k].State() == after[k]
        invariant forall k :: i <= k < |bees| ==> bees[k].State() == before[k]
      {
        var b := bees[i];
        assert b.State() == before[i] && b.size == BeeSize;
        assert forall k :: 0 <= k < |bees| && k != i ==> bees[k] != b;
        b.Update(rng(2 + 2 * i), rng(3 + 2 * i), cos(b.angle), sin(b.angle));
        assert b.State() == after[i];
      }
    }
  }
}
