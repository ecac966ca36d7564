/** protoswarm/bees.py: bees that enter at the screen edge, head along their
  * facing and turn at random intervals, and stop on any lit pixel of the
  * camera's edge frame; the swarm grows or shrinks by up to ten bees a tick. */
module ProtoBees {
  import opened Common
  import opened Toroidal
  import PySwarm
  import ProtoEntity

  const BeeSize: real := 2.0
  const ChangeTimeMin: real := 0.2
  const ChangeTimeMax: real := 0.8

  /** `math.pi`, the double nearest to π. */
  const Pi: real := 3.141592653589793

  const TurnRateMin: real := -Pi
  const TurnRateMax: real := Pi
  const BeeSpeed: real := 150.0
  const BeeInitialCount: nat := 1200
  const BeeCountRate: int := 300

  /** `BEE_COUNT_RATE // FRAMES_PER_SECOND`: the bees added or removed per call. */
  const BeesPerTick: nat := BeeCountRate / ProtoEntity.FramesPerSecond

  /** The edge frame the camera hands over: transposed, so indexed by `x`
    * (the screen width) and then `y`. */
  predicate FrameShape(frame: seq<seq<int>>) {
    |frame| == ProtoEntity.Width.Floor
    && forall i :: 0 <= i < |frame| ==> |frame[i]| == ProtoEntity.Height.Floor
  }

  /** The frame pixel under the bee, with its position truncated and clipped
    * to the frame, is lit. */
  function OnEdge(frame: seq<seq<int>>, x: real, y: real): bool
    requires FrameShape(frame)
  {
    frame[ClampIndex(x, ProtoEntity.Width.Floor)][ClampIndex(y, ProtoEntity.Height.Floor)] != 0
  }

  /** The state of a `c_bee` of bees.py. */
  datatype ProtoBeeState = ProtoBeeState(body: PySwarm.Body, timer: real)

  /** `c_bee.__init__`: on the bottom or left gutter, at rest, with a random facing. */
  function Spawned(uPosition: real, uAngle: real): (s: ProtoBeeState)
    requires 0.0 <= uPosition <= 1.0 && 0.0 <= uAngle <= 1.0
    ensures s.body.y == -BeeSize || s.body.x == -BeeSize
    ensures -BeeSize <= s.body.x <= ProtoEntity.Width + BeeSize
    ensures -BeeSize <= s.body.y <= ProtoEntity.Height + BeeSize
    ensures s.body.vx == 0.0 && s.body.vy == 0.0 && s.timer == 0.0
  {
    ProtoBeeState(PySwarm.Spawned(uPosition, uAngle, ProtoEntity.Width, ProtoEntity.Height).body, 0.0)
  }

  /** `c_bee.update(frame)` where `edge` says whether the pixel under the bee
    * is lit, with the two uniform draws and the cosine and sine of the facing. */
  function Step(s: ProtoBeeState, edge: bool, uTimer: real, uTurn: real, cosF: real, sinF: real): ProtoBeeState
    requires 0.0 <= uTimer <= 1.0 && 0.0 <= uTurn <= 1.0
  {
    var t :=
      if edge then s.(body := s.body.(vx := 0.0, vy := 0.0))
      else
        var turned :=
          if s.timer <= 0.0 then
            ProtoBeeState(s.body.(angVel := Uniform(TurnRateMin, TurnRateMax, uTurn)), Uniform(ChangeTimeMin, ChangeTimeMax, uTimer))
          else s.(timer := s.timer - ProtoEntity.Dt);
        turned.(body := turned.body.(vx := cosF * BeeSpeed, vy := sinF * BeeSpeed));
    t.(body := PySwarm.Moved(t.body, ProtoEntity.Dt, BeeSize, ProtoEntity.Width, ProtoEntity.Height))
  }

  /** Off the edge the bee heads along its facing at `BEE_SPEED`; an expired
    * timer reloads from `BEE_CHANGE_TIME` with a new turn rate from
    * `BEE_TURN_RATE`, any other timer drops by one tick. */
  lemma OffEdge(s: ProtoBeeState, uTimer: real, uTurn: real, cosF: real, sinF: real)
    requires 0.0 <= uTimer <= 1.0 && 0.0 <= uTurn <= 1.0
    ensures var r := Step(s, false, uTimer, uTurn, cosF, sinF);
      && r.body.vx == cosF * BeeSpeed && r.body.vy == sinF * BeeSpeed
      && (s.timer <= 0.0 ==> ChangeTimeMin <= r.timer <= ChangeTimeMax && TurnRateMin <= r.body.angVel <= TurnRateMax)
      && (s.timer > 0.0 ==> r.timer == s.timer - ProtoEntity.Dt && r.body.angVel == s.body.angVel)
  {
  }

  /** On a lit pixel the bee stops: its timer and turn rate are kept, and its
    * position changes only by the wrap, so a bee on screen stays put. */
  lemma OnEdgeStops(s: ProtoBeeState, uTimer: real, uTurn: real, cosF: real, sinF: real)
    requires 0.0 <= uTimer <= 1.0 && 0.0 <= uTurn <= 1.0
    ensures var r := Step(s, true, uTimer, uTurn, cosF, sinF);
      && r.body.vx == 0.0 && r.body.vy == 0.0
      && r.timer == s.timer && r.body.angVel == s.body.angVel
      && r.body.x == WrapClosedOf(s.body.x, ProtoEntity.Width, BeeSize)
      && r.body.y == WrapClosedOf(s.body.y, ProtoEntity.Height, BeeSize)
      && (-BeeSize <= s.body.x <= ProtoEntity.Width + BeeSize ==> r.body.x == s.body.x)
      && (-BeeSize <= s.body.y <= ProtoEntity.Height + BeeSize ==> r.body.y == s.body.y)
  {
    assert s.body.x + 0.0 * ProtoEntity.Dt == s.body.x;
    assert s.body.y + 0.0 * ProtoEntity.Dt == s.body.y;
  }

  /** The timer of a bee stays in `(-DT, BEE_CHANGE_TIME[1]]`: it drops only
    * while positive and reloads when it is not. */
  predicate TimerInRange(s: ProtoBeeState) {
    -ProtoEntity.Dt < s.timer <= ChangeTimeMax
  }

  lemma TimerStaysInRange(s: ProtoBeeState, edge: bool, uTimer: real, uTurn: real, cosF: real, sinF: real)
    requires 0.0 <= uTimer <= 1.0 && 0.0 <= uTurn <= 1.0
    requires TimerInRange(s)
    ensures TimerInRange(Step(s, edge, uTimer, uTurn, cosF, sinF))
  {
    if !edge {
      OffEdge(s, uTimer, uTurn, cosF, sinF);
    }
  }

  /** A new bee's timer is in range. */
  lemma SpawnedTimerInRange(uPosition: real, uAngle: real)
    requires 0.0 <= uPosition <= 1.0 && 0.0 <= uAngle <= 1.0
    ensures TimerInRange(Spawned(uPosition, uAngle))
  {
  }

  /** One call of `c_bees.update` moves the count at most `BeesPerTick`
    * bees toward the desired count and never past it. */
  lemma PopulationRate(count: nat, desired: nat)
    ensures var r := PySwarm.PopulationRun(count, desired, BeesPerTick);
      && (count <= desired ==> count <= r <= desired && r <= count + BeesPerTick)
      && (count >= desired ==> desired <= r <= count && count <= r + BeesPerTick)
  {
    PySwarm.PopulationConverges(count, desired, BeesPerTick);
  }

  /** `c_bee` of bees.py. */
  class Bee {
    const size: real
    var x: real
    var y: real
    var vx: real
    var vy: real
    var angle: real
    var angVel: real
    var timer: real

    function State(): ProtoBeeState
      reads this
    {
      ProtoBeeState(PySwarm.Body(x, y, vx, vy, angle, angVel), timer)
    }

    /** `c_bee.__init__` with its two uniform draws. */
    constructor (uPosition: real, uAngle: real)
      requires 0.0 <= uPosition <= 1.0 && 0.0 <= uAngle <= 1.0
      ensures size == BeeSize && State() == Spawned(uPosition, uAngle)
    {
      size := BeeSize;
      var edgePosition := Uniform(0.0, ProtoEntity.Width + ProtoEntity.Height + 4.0 * BeeSize, uPosition);
      if edgePosition < ProtoEntity.Width + 2.0 * BeeSize {
        x, y := edgePosition - BeeSize, -BeeSize;
      } else {
        x, y := -BeeSize, edgePosition - ProtoEntity.Width - 2.0 * BeeSize - BeeSize;
      }
      vx, vy := 0.0, 0.0;
      angle := Uniform(0.0, PySwarm.TwoPi, uAngle);
      angVel := 0.0;
      timer := 0.0;
    }

    /** `c_entity.update` at 30 frames per second on the 1280×720 screen. */
    method Move()
      requires size == BeeSize
      modifies this
      ensures State() == old(State()).(body := PySwarm.Moved(old(State()).body, ProtoEntity.Dt, BeeSize, ProtoEntity.Width, ProtoEntity.Height))
    {
      x := x + vx * ProtoEntity.Dt;
      y := y + vy * ProtoEntity.Dt;
      x := WrapClosed(x, ProtoEntity.Width, size);
      y := WrapClosed(y, ProtoEntity.Height, size);
      angle := angle + angVel * ProtoEntity.Dt;
      angle := WrapValue(angle, PySwarm.TwoPi, 0.0);
    }

    /** `c_bee.update(frame)`; `cosF` and `sinF` are the cosine and sine of
      * the facing the bee has when the call starts. */
    method Update(frame: seq<seq<int>>, uTimer: real, uTurn: real, cosF: real, sinF: real)
      requires FrameShape(frame)
      requires 0.0 <= uTimer <= 1.0 && 0.0 <= uTurn <= 1.0
      requires size == BeeSize
      modifies this
      ensures State() == Step(old(State()), OnEdge(frame, old(x), old(y)), uTimer, uTurn, cosF, sinF)
    {
      var mapX := ClampIndex(x, ProtoEntity.Width.Floor);
      var mapY := ClampIndex(y, ProtoEntity.Height.Floor);
      if frame[mapX][mapY] == 0 {
        if timer <= 0.0 {
          timer := Uniform(ChangeTimeMin, ChangeTimeMax, uTimer);
          angVel := Uniform(TurnRateMin, TurnRateMax, uTurn);
        } else {
          timer := timer - ProtoEntity.Dt;
        }
        vx, vy := cosF * BeeSpeed, sinF * BeeSpeed;
      } else {
        vx, vy := 0.0, 0.0;
      }
      Move();
    }
  }

  /** Bee number `k` after its update in one call of `c_bees.update`; the
    * first `2 * BeesPerTick` draws of the stream are kept for new bees. */
  function Ticked(s: ProtoBeeState, k: nat, edge: bool, rng: nat -> real, cos: real -> real, sin: real -> real): ProtoBeeState
    requires forall j :: 0.0 <= rng(j) <= 1.0
  {
    Step(s, edge, rng(2 * BeesPerTick + 2 * k), rng(2 * BeesPerTick + 2 * k + 1), cos(s.body.angle), sin(s.body.angle))
  }

  /** `c_bees`. */
  class Bees {
    var desiredBeeCount: nat
    var bees: seq<Bee>
    var seeNectar: bool

    predicate Valid()
      reads this
    {
      (forall i, j :: 0 <= i < j < |bees| ==> bees[i] != bees[j])
      && forall i :: 0 <= i < |bees| ==> bees[i].size == BeeSize
    }

    constructor (seeNectar: bool)
      ensures Valid() && desiredBeeCount == BeeInitialCount && bees == [] && this.seeNectar == seeNectar
    {
      desiredBeeCount := BeeInitialCount;
      bees := [];
      this.seeNectar := seeNectar;
    }

    /** The population loop of `c_bees.update`: `BeesPerTick` rounds of one
      * bee more or fewer; the bee added in round `t` draws `rng(2 * t)` and
      * `rng(2 * t + 1)`. */
    method Populate(rng: nat -> real)
      requires Valid()
      requires forall k :: 0.0 <= rng(k) <= 1.0
      modifies this
      ensures Valid() && desiredBeeCount == old(desiredBeeCount) && seeNectar == old(seeNectar)
      ensures |bees| == PySwarm.PopulationRun(old(|bees|), desiredBeeCount, BeesPerTick)
      ensures forall k :: 0 <= k < |bees| && k < old(|bees|) ==> bees[k] == old(bees[k])
      ensures forall k :: old(|bees|) <= k < |bees| ==>
        fresh(bees[k]) && bees[k].State() == Spawned(rng(2 * (k - old(|bees|))), rng(2 * (k - old(|bees|)) + 1))
    {
      ghost var n0 := |bees|;
      for i := 0 to BeesPerTick
        invariant Valid() && desiredBeeCount == old(desiredBeeCount) && seeNectar == old(seeNectar)
        invariant |bees| == PySwarm.PopulationRun(n0, desiredBeeCount, i)
        invariant forall k :: 0 <= k < |bees| && k < n0 ==> bees[k] == old(bees[k])
        invariant forall k :: n0 <= k < |bees| ==>
          fresh(bees[k]) && bees[k].State() == Spawned(rng(2 * (k - n0)), rng(2 * (k - n0) + 1))
        invariant n0 <= desiredBeeCount ==> n0 <= |bees| <= desiredBeeCount && (|bees| == n0 + i || |bees| == desiredBeeCount)
        invariant n0 >= desiredBeeCount ==> desiredBeeCount <= |bees| <= n0
      {
        PySwarm.PopulationRunLast(n0, desiredBeeCount, i);
        if |bees| < desiredBeeCount {
          var b := new Bee(rng(2 * i), rng(2 * i + 1));
          bees := bees + [b];
        } else if |bees| > desiredBeeCount {
          bees := bees[..|bees| - 1];
        }
      }
    }

    /** `c_bees.update(frame)`. */
    method Update(frame: seq<seq<int>>, rng: nat -> real, cos: real -> real, sin: real -> real)
      requires Valid() && FrameShape(frame)
      requires forall k :: 0.0 <= rng(k) <= 1.0
      modifies this, bees
      ensures Valid() && desiredBeeCount == old(desiredBeeCount) && seeNectar == old(seeNectar)
      ensures |bees| == PySwarm.PopulationRun(old(|bees|), desiredBeeCount, BeesPerTick)
      ensures forall k :: 0 <= k < |bees| && k < old(|bees|) ==>
        bees[k] == old(bees[k]) && bees[k].State() == Ticked(old(bees[k].State()), k, OnEdge(frame, old(bees[k].x), old(bees[k].y)), rng, cos, sin)
      ensures forall k :: old(|bees|) <= k < |bees| ==>
        var s := Spawned(rng(2 * (k - old(|bees|))), rng(2 * (k - old(|bees|)) + 1));
        fresh(bees[k]) && bees[k].State() == Ticked(s, k, OnEdge(frame, s.body.x, s.body.y), rng, cos, sin)
    {
      Populate(rng);
      UpdateBees(frame, rng, cos, sin);
    }

    /** The `for bee in self.bees` loop of `c_bees.update`. */
    method UpdateBees(frame: seq<seq<int>>, rng: nat -> real, cos: real -> real, sin: real -> real)
      requires Valid() && FrameShape(frame)
      requires forall k :: 0.0 <= rng(k) <= 1.0
      modifies bees
      ensures forall k :: 0 <= k < |bees| ==>
        bees[k].State() == Ticked(old(bees[k].State()), k, OnEdge(frame, old(bees[k].x), old(bees[k].y)), rng, cos, sin)
    {
      ghost var before := seq(|bees|, k requires 0 <= k < |bees| reads this, bees => bees[k].State());
      ghost var after := seq(|before|, k requires 0 <= k < |before| =>
        Ticked(before[k], k, OnEdge(frame, before[k].body.x, before[k].body.y), rng, cos, sin));
      for i := 0 to |bees|
        invariant forall k :: 0 <= k < i ==> bees[k].State() == after[k]
        invariant forall k :: i <= k < |bees| ==> bees[k].State() == before[k]
      {
        var b := bees[i];
        assert forall k :: 0 <= k < |bees| && k != i ==> bees[k] != b;
        assert b.State() == before[i] && b.size == BeeSize;
        b.Update(frame, rng(2 * BeesPerTick + 2 * i), rng(2 * BeesPerTick + 2 * i + 1), cos(b.angle), sin(b.angle));
      }
    }
  }
}
