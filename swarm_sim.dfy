/** The per-bee state machine of swarm/src/swarm.cpp: a bee is idle, crawling,
  * flying or accelerating; each tick it looks at one pixel of the edge mask,
  * takes one transition, then moves along its facing and turns, with both
  * position and facing wrapped around the torus. */
module SwarmSim {
  import opened Common
  import opened Toroidal

  datatype BeeState = Idle | Crawling | Flying | Accelerating

  // Sprite sheets: one 64-pixel frame per step, `count` frames per sheet.
  const FrameW: int := 64
  const FlyTextureW: int := 1920
  const CrawlTextureW: int := 3904
  const IdleTextureW: int := 3904
  const FlyFrameCount: int := 30
  const CrawlFrameCount: int := 61
  const IdleFrameCount: int := 61

  const Tau: real := 6.2831853
  const Dt: real := 1.0 / 60.0

  const TimerMinimum: real := 0.2
  const TimerMaximum: real := 0.8
  const WalkSpeedMinimum: real := 0.0
  const WalkSpeedMaximum: real := 0.0
  const AccMinimum: real := 0.0
  const AccMaximum: real := 10.0
  const FlySpeedMinimum: real := 120.0
  const FlySpeedMaximum: real := 180.0
  const SpinMaximum: real := 0.5 * Tau

  /** The simulation rectangle and the bee radius (the gutter of the wrap);
    * the two headers the source includes disagree on these, so they are parameters. */
  datatype World = World(width: real, height: real, radius: real)
  {
    predicate Valid() { width > 0.0 && height > 0.0 && radius >= 0.0 }
  }

  /** One tick's `rand() / RAND_MAX` fractions, in the order the source draws them. */
  datatype Draws = Draws(timer: real, speed: real, rotation: real)
  {
    predicate Valid() {
      0.0 <= timer <= 1.0 && 0.0 <= speed <= 1.0 && 0.0 <= rotation <= 1.0
    }
  }

  /** The fields a transition rewrites. */
  datatype Motion = Motion(state: BeeState, timer: real, speed: real, rotation: real)

  /** An edge mask: a non-empty rectangular grid of bytes (rows, then columns). */
  predicate IsFrame(frame: seq<seq<int>>) {
    |frame| > 0 && |frame[0]| > 0 && forall i :: 0 <= i < |frame| ==> |frame[i]| == |frame[0]|
  }

  /** `static_cast<int>(v / extent * count)`: the cell of a coordinate in `[0, extent)`. */
  function CellIndex(v: real, extent: real, count: int): (k: int)
    requires extent > 0.0 && count > 0 && 0.0 <= v < extent
    ensures 0 <= k < count
  {
    ScaleBetween(v, v / extent, 0.0, 1.0, extent);
    ScaleBetween(v / extent * count as real, v / extent, 0.0, 1.0, count as real);
    CTrunc(v / extent * count as real)
  }

  /** The edge-mask test of `bee_t::update`: the pixel is read only when the bee
    * is inside the simulation rectangle. */
  function OnEdge(w: World, x: real, y: real, frame: seq<seq<int>>): (b: bool)
    requires w.Valid() && IsFrame(frame)
    ensures b ==> 0.0 <= x < w.width && 0.0 <= y < w.height
    ensures b <==> 0.0 <= x < w.width && 0.0 <= y < w.height
                   && frame[CellIndex(y, w.height, |frame|)][CellIndex(x, w.width, |frame[0]|)] != 0
  {
    if 0.0 <= x < w.width && 0.0 <= y < w.height then
      frame[CellIndex(y, w.height, |frame|)][CellIndex(x, w.width, |frame[0]|)] != 0
    else false
  }

  /** The state, timer, speed and rotation update of `bee_t::update`. */
  function Transition(m: Motion, onEdge: bool, d: Draws): (r: Motion)
    requires d.Valid()
    // on an edge pixel, a moving or expired crawling bee settles
    ensures onEdge && (m.state == Flying || (m.state == Crawling && m.timer < 0.0) || m.state == Accelerating) ==>
      r.state == Idle && r.speed == 0.0 && r.rotation == 0.0 && TimerMinimum <= r.timer <= TimerMaximum
    // on an edge pixel, an expired idle bee starts crawling
    ensures onEdge && m.state == Idle && m.timer < 0.0 ==>
      r.state == Crawling && TimerMinimum <= r.timer <= TimerMaximum
      && WalkSpeedMinimum <= r.speed <= WalkSpeedMaximum && -SpinMaximum <= r.rotation <= SpinMaximum
    // on an edge pixel, otherwise only the timer runs down
    ensures onEdge && !(m.state == Flying || m.state == Accelerating || m.timer < 0.0) ==>
      r == m.(timer := m.timer - Dt)
    // off the edge, a flying bee keeps flying and redraws its speed when its timer expired
    ensures !onEdge && m.state == Flying ==>
      && r.state == Flying
      && (m.timer < 0.0 ==> FlySpeedMinimum <= r.speed <= FlySpeedMaximum && -SpinMaximum <= r.rotation <= SpinMaximum
                            && TimerMinimum - Dt <= r.timer <= TimerMaximum - Dt)
      && (m.timer >= 0.0 ==> r == m.(timer := m.timer - Dt))
    // off the edge, any other bee accelerates, and flies once it was already fast enough
    ensures !onEdge && m.state != Flying ==>
      (r.state == Flying <==> m.speed >= FlySpeedMinimum) && (r.state == Flying || r.state == Accelerating)
      && m.speed + AccMinimum <= r.speed <= m.speed + AccMaximum
      && -SpinMaximum <= r.rotation <= SpinMaximum && TimerMinimum - Dt <= r.timer <= TimerMaximum - Dt
  {
    if onEdge then
      if m.state == Flying || (m.state == Crawling && m.timer < 0.0) || m.state == Accelerating then
        Motion(Idle, Uniform(TimerMinimum, TimerMaximum, d.timer), 0.0, 0.0)
      else if m.state == Idle && m.timer < 0.0 then
        Motion(Crawling, Uniform(TimerMinimum, TimerMaximum, d.timer),
               Uniform(WalkSpeedMinimum, WalkSpeedMaximum, d.speed), Uniform(-SpinMaximum, SpinMaximum, d.rotation))
      else
        m.(timer := m.timer - Dt)
    else
      var m' :=
        if m.state == Flying && m.timer < 0.0 then
          Motion(Flying, Uniform(TimerMinimum, TimerMaximum, d.timer),
                 Uniform(FlySpeedMinimum, FlySpeedMaximum, d.speed), Uniform(-SpinMaximum, SpinMaximum, d.rotation))
        else if m.state != Flying then
          Motion(if m.speed >= FlySpeedMinimum then Flying else Accelerating,
                 Uniform(TimerMinimum, TimerMaximum, d.timer),
                 m.speed + Uniform(AccMinimum, AccMaximum, d.speed), Uniform(-SpinMaximum, SpinMaximum, d.rotation))
        else m;
      m'.(timer := m'.timer - Dt)
  }

  /** Speed never becomes negative: every branch either keeps it, zeroes it,
    * redraws it from a non-negative range or adds a non-negative increment. */
  lemma TransitionKeepsSpeedNonNegative(m: Motion, onEdge: bool, d: Draws)
    requires d.Valid() && m.speed >= 0.0
    ensures Transition(m, onEdge, d).speed >= 0.0
  {
  }

  /** A sprite offset is the left edge of one frame of its sheet. */
  predicate SpriteOffsetOk(x: int, textureW: int) {
    0 <= x < textureW && x % FrameW == 0
  }

  /** Advance a sprite offset by one frame, back to 0 past the end of the sheet. */
  function NextSpriteOffset(x: int, textureW: int): (r: int)
    requires SpriteOffsetOk(x, textureW)
    ensures SpriteOffsetOk(r, textureW)
    ensures r == 0 || r == x + FrameW
  {
    if x + FrameW >= textureW then 0 else x + FrameW
  }

  /** On a sheet of `count` frames, the offset of frame `k` advances to frame `k + 1` modulo `count`. */
  lemma NextSpriteOffsetCycles(k: int, count: int)
    requires count > 0 && 0 <= k < count
    ensures NextSpriteOffset(k * FrameW, count * FrameW) == ((k + 1) % count) * FrameW
  {
  }

  /** The initial offset `(rand() % count) * b_frame_w` on a sheet exactly `count` frames wide. */
  function InitialSpriteOffset(draw: nat, count: int): (x: int)
    requires count > 0
    ensures SpriteOffsetOk(x, count * FrameW)
  {
    (draw % count) * FrameW
  }

  /** The strip length along the top and left borders the spawn point is drawn from. */
  function SpawnSpan(w: World): real {
    w.width + w.height + 4.0 * w.radius
  }

  /** `bee_t::bee_t` places a bee at `edge` along the top border (going right)
    * or, past its end, along the left border (going down). */
  function EdgePlacement(w: World, edge: real): (p: (real, real))
    requires w.Valid() && 0.0 <= edge <= SpawnSpan(w)
    ensures p.0 == -w.radius || p.1 == -w.radius
    ensures edge < SpawnSpan(w) ==>
      -w.radius <= p.0 < w.width + w.radius && -w.radius <= p.1 < w.height + w.radius
  {
    if edge < w.width + 2.0 * w.radius then (edge - w.radius, -w.radius)
    else (-w.radius, edge - w.width - 3.0 * w.radius)
  }

  /** As written, `uniform_random` can return its maximum (when `rand()` returns
    * `RAND_MAX`); the spawn point is then one radius below the strip and the
    * assertion `y < k_simulation_height + k_bee_radius` fails. */
  lemma RandMaxSpawnFailsAssertion(w: World)
    requires w.Valid()
    ensures EdgePlacement(w, Uniform(0.0, SpawnSpan(w), 1.0)).1 == w.height + w.radius
  {
  }

  /** A snapshot of all fields `bee_t::update` reads or writes. */
  datatype BeeRec = BeeRec(motion: Motion, x: real, y: real, facing: real, lastFacing: real,
                           flyX: int, crawlX: int, idleX: int)

  /** What every bee keeps true between ticks. */
  predicate RecValid(w: World, s: BeeRec)
    requires w.Valid()
  {
    -w.radius <= s.x < w.width + w.radius && -w.radius <= s.y < w.height + w.radius
    && 0.0 <= s.facing <= Tau && s.motion.speed >= 0.0
    && SpriteOffsetOk(s.flyX, FlyTextureW) && SpriteOffsetOk(s.crawlX, CrawlTextureW)
    && SpriteOffsetOk(s.idleX, IdleTextureW)
  }

  /** How far a rate moves a coordinate in one tick: `rate * component * k_dt`. */
  function Travel(rate: real, component: real): (r: real)
    ensures rate >= 0.0 && -1.0 <= component <= 1.0 ==> -rate * Dt <= r <= rate * Dt
  {
    if rate >= 0.0 && -1.0 <= component <= 1.0 then
      ScaleBySigned(rate, component);
      rate * component * Dt
    else
      rate * component * Dt
  }

  /** The second half of `bee_t::update`, after the transition: move along the
    * facing, turn, and advance the sprites. `cosF` and `sinF` are the cosine
    * and sine of the facing before the tick. */
  function Advance(w: World, s: BeeRec, cosF: real, sinF: real): (r: BeeRec)
    requires w.Valid() && RecValid(w, s)
    ensures RecValid(w, r) && r.facing < Tau
    ensures r.motion == s.motion && r.lastFacing == s.lastFacing
  {
    BeeRec(s.motion,
           WrapOf(s.x + Travel(s.motion.speed, cosF), w.width, w.radius),
           WrapOf(s.y + Travel(s.motion.speed, sinF), w.height, w.radius),
           WrapOf(s.facing + Travel(s.motion.rotation, 1.0), Tau, 0.0),
           s.lastFacing,
           NextSpriteOffset(s.flyX, FlyTextureW),
           NextSpriteOffset(s.crawlX, CrawlTextureW),
           NextSpriteOffset(s.idleX, IdleTextureW))
  }

  /** One tick of `bee_t::update`: the transition decided by the pixel under the
    * bee, then `Advance`. */
  function Step(w: World, s: BeeRec, frame: seq<seq<int>>, d: Draws, cosF: real, sinF: real): (r: BeeRec)
    requires w.Valid() && IsFrame(frame) && d.Valid() && RecValid(w, s)
    ensures RecValid(w, r) && r.facing < Tau
    ensures r.motion == Transition(s.motion, OnEdge(w, s.x, s.y, frame), d)
  {
    var m := Transition(s.motion, OnEdge(w, s.x, s.y, frame), d);
    TransitionKeepsSpeedNonNegative(s.motion, OnEdge(w, s.x, s.y, frame), d);
    Advance(w, s.(motion := m), cosF, sinF)
  }

  /** A bee standing still on an edge pixel, with a running timer, stays where it is. */
  lemma IdleBeeOnEdgeStaysPut(w: World, s: BeeRec, frame: seq<seq<int>>, d: Draws, cosF: real, sinF: real)
    requires w.Valid() && IsFrame(frame) && d.Valid() && RecValid(w, s)
    requires OnEdge(w, s.x, s.y, frame) && s.motion.state == Idle && s.motion.timer >= 0.0
    requires s.motion.speed == 0.0 && s.motion.rotation == 0.0 && s.facing < Tau
    ensures var r := Step(w, s, frame, d, cosF, sinF);
      r.x == s.x && r.y == s.y && r.facing == s.facing && r.motion.state == Idle
  {
    WrapOfFixesRange(s.x, w.width, w.radius);
    WrapOfFixesRange(s.y, w.height, w.radius);
    WrapOfFixesRange(s.facing, Tau, 0.0);
  }

  class Bee {
    var state: BeeState
    var timer: real
    var x: real
    var y: real
    var facing: real
    var speed: real
    var rotation: real
    var lastFacing: real
    var flyX: int
    var crawlX: int
    var idleX: int

    function Snapshot(): BeeRec
      reads this
    {
      BeeRec(Motion(state, timer, speed, rotation), x, y, facing, lastFacing, flyX, crawlX, idleX)
    }

    predicate Valid(w: World)
      requires w.Valid()
      reads this
    {
      RecValid(w, Snapshot())
    }

    /** `bee_t::bee_t`, with the spawn draw taken from `[0, 1)` (see
      * `RandMaxSpawnFailsAssertion` for the closed draw of the source). */
    constructor (w: World, edgeDraw: real, facingDraw: real, flyDraw: nat, crawlDraw: nat, idleDraw: nat)
      requires w.Valid() && 0.0 <= edgeDraw < 1.0 && 0.0 <= facingDraw <= 1.0
      ensures Valid(w)
      ensures state == Idle && timer == 0.0 && speed == 0.0 && rotation == 0.0
      ensures (x, y) == EdgePlacement(w, Uniform(0.0, SpawnSpan(w), edgeDraw))
      ensures x == -w.radius || y == -w.radius
      ensures facing == Uniform(0.0, Tau, facingDraw)
      ensures 0.0 <= facing <= Tau && lastFacing == facing
      ensures flyX == InitialSpriteOffset(flyDraw, FlyFrameCount)
      ensures crawlX == InitialSpriteOffset(crawlDraw, CrawlFrameCount)
      ensures idleX == InitialSpriteOffset(idleDraw, IdleFrameCount)
    {
      var edge := Uniform(0.0, SpawnSpan(w), edgeDraw);
      assert edge < SpawnSpan(w) by {
        ScaleBetween(edge, edgeDraw, 0.0, 1.0, SpawnSpan(w));
      }
      var p := EdgePlacement(w, edge);
      state := Idle;
      timer := 0.0;
      x := p.0;
      y := p.1;
      facing := Uniform(0.0, Tau, facingDraw);
      lastFacing := facing;
      speed := 0.0;
      rotation := 0.0;
      flyX := InitialSpriteOffset(flyDraw, FlyFrameCount);
      crawlX := InitialSpriteOffset(crawlDraw, CrawlFrameCount);
      idleX := InitialSpriteOffset(idleDraw, IdleFrameCount);
    }

    /** The state, timer, speed and rotation part of `bee_t::update`. */
    method ApplyTransition(edge: bool, d: Draws)
      requires d.Valid()
      modifies this
      ensures Motion(state, timer, speed, rotation) == Transition(old(Motion(state, timer, speed, rotation)), edge, d)
      ensures x == old(x) && y == old(y) && facing == old(facing) && lastFacing == old(lastFacing)
      ensures flyX == old(flyX) && crawlX == old(crawlX) && idleX == old(idleX)
    {
      if edge {
        if state == Flying || (state == Crawling && timer < 0.0) || state == Accelerating {
          state := Idle;
          timer := Uniform(TimerMinimum, TimerMaximum, d.timer);
          speed := 0.0;
          rotation := 0.0;
        } else if state == Idle && timer < 0.0 {
          state := Crawling;
          timer := Uniform(TimerMinimum, TimerMaximum, d.timer);
          speed := Uniform(WalkSpeedMinimum, WalkSpeedMaximum, d.speed);
          rotation := Uniform(-SpinMaximum, SpinMaximum, d.rotation);
        } else {
          timer := timer - Dt;
        }
      } else {
        if state == Flying && timer < 0.0 {
          state := Flying;
          timer := Uniform(TimerMinimum, TimerMaximum, d.timer);
          speed := Uniform(FlySpeedMinimum, FlySpeedMaximum, d.speed);
          rotation := Uniform(-SpinMaximum, SpinMaximum, d.rotation);
        } else if state != Flying {
          state := Accelerating;
          if speed >= FlySpeedMinimum {
            state := Flying;
          }
          timer := Uniform(TimerMinimum, TimerMaximum, d.timer);
          speed := speed + Uniform(AccMinimum, AccMaximum, d.speed);
          rotation := Uniform(-SpinMaximum, SpinMaximum, d.rotation);
        }
        timer := timer - Dt;
      }
    }

    /** `bee_t::update`: one transition, then move, turn and advance the sprites. */
    method Update(w: World, frame: seq<seq<int>>, d: Draws, cosF: real, sinF: real)
      requires w.Valid() && IsFrame(frame) && d.Valid() && Valid(w)
      modifies this
      ensures Snapshot() == Step(w, old(Snapshot()), frame, d, cosF, sinF)
      ensures Valid(w)
    {
      ghost var s := Snapshot();
      var edge := 0.0 <= x < w.width && 0.0 <= y < w.height &&
                  frame[CellIndex(y, w.height, |frame|)][CellIndex(x, w.width, |frame[0]|)] != 0;
      assert edge == OnEdge(w, s.x, s.y, frame);
      ApplyTransition(edge, d);
      TransitionKeepsSpeedNonNegative(s.motion, edge, d);
      assert Snapshot() == s.(motion := Transition(s.motion, edge, d));
      MoveAndAnimate(w, cosF, sinF);
    }

    /** The position, facing and sprite part of `bee_t::update`. */
    method MoveAndAnimate(w: World, cosF: real, sinF: real)
      requires w.Valid() && Valid(w)
      modifies this
      ensures Snapshot() == Advance(w, old(Snapshot()), cosF, sinF)
    {
      x := WrapValue(x + Travel(speed, cosF), w.width, w.radius);
      y := WrapValue(y + Travel(speed, sinF), w.height, w.radius);
      facing := WrapValue(facing + Travel(rotation, 1.0), Tau, 0.0);

      flyX := flyX + FrameW;
      crawlX := crawlX + FrameW;
      idleX := idleX + FrameW;
      if flyX >= FlyTextureW {
        flyX := 0;
      }
      if crawlX >= CrawlTextureW {
        crawlX := 0;
      }
      if idleX >= IdleTextureW {
        idleX := 0;
      }
    }
  }

  /** Bee `b` is as `bee_t::bee_t` leaves it for spawn draw `s`: idle at
    * rest on the edge point the first draw picks, facing the angle the
    * second picks, with its sprite offsets taken from the last three. */
  predicate Spawned(w: World, b: Bee, s: (real, real, nat, nat, nat))
    requires w.Valid() && 0.0 <= s.0 < 1.0 && 0.0 <= s.1 <= 1.0
    reads b
  {
    b.state == Idle && b.timer == 0.0 && b.speed == 0.0 && b.rotation == 0.0
    && (b.x, b.y) == EdgePlacement(w, Uniform(0.0, SpawnSpan(w), s.0))
    && b.facing == Uniform(0.0, Tau, s.1) && b.lastFacing == b.facing
    && b.flyX == InitialSpriteOffset(s.2, FlyFrameCount)
    && b.crawlX == InitialSpriteOffset(s.3, CrawlFrameCount)
    && b.idleX == InitialSpriteOffset(s.4, IdleFrameCount)
  }

  /** `swarm_t`: a fixed array of distinct bees. */
  class Swarm {
    const bees: array<Bee>

    predicate Valid(w: World)
      requires w.Valid()
      reads this, bees, set i | 0 <= i < bees.Length :: bees[i]
    {
      (forall i, j :: 0 <= i < j < bees.Length ==> bees[i] != bees[j])
      && forall i :: 0 <= i < bees.Length ==> bees[i].Valid(w)
    }

    /** `swarm_t::swarm_t`: one default-constructed bee per spawn draw. */
    constructor (w: World, spawns: seq<(real, real, nat, nat, nat)>)
      requires w.Valid()
      requires forall k :: 0 <= k < |spawns| ==> 0.0 <= spawns[k].0 < 1.0 && 0.0 <= spawns[k].1 <= 1.0
      ensures bees.Length == |spawns| && Valid(w) && fresh(bees)
      ensures forall i :: 0 <= i < bees.Length ==> fresh(bees[i]) && Spawned(w, bees[i], spawns[i])
    {
      var made: seq<Bee> := [];
      while |made| < |spawns|
        invariant |made| <= |spawns|
        invariant forall i, j :: 0 <= i < j < |made| ==> made[i] != made[j]
        invariant forall i :: 0 <= i < |made| ==> fresh(made[i])
        invariant forall i :: 0 <= i < |made| ==> made[i].Valid(w)
        invariant forall i :: 0 <= i < |made| ==> Spawned(w, made[i], spawns[i])
      {
        var s := spawns[|made|];
        var b := new Bee(w, s.0, s.1, s.2, s.3, s.4);
        made := made + [b];
      }
      bees := new Bee[|made|](i requires 0 <= i < |made| => made[i]);
    }

    /** `swarm_t::update`: every bee takes one tick, in array order; bee `i`
      * uses `draws[i]` and the cosine and sine of its own facing. */
    method Update(w: World, frame: seq<seq<int>>, draws: seq<Draws>, cosines: seq<real>, sines: seq<real>)
      requires w.Valid() && IsFrame(frame) && Valid(w)
      requires |draws| == |cosines| == |sines| == bees.Length
      requires forall i :: 0 <= i < |draws| ==> draws[i].Valid()
      modifies set i | 0 <= i < bees.Length :: bees[i]
      ensures Valid(w)
      ensures forall i :: 0 <= i < bees.Length ==>
        bees[i].Snapshot() == Step(w, old(bees[i].Snapshot()), frame, draws[i], cosines[i], sines[i])
    {
      for k := 0 to bees.Length
        invariant Valid(w)
        invariant forall i :: 0 <= i < k ==>
          bees[i].Snapshot() == Step(w, old(bees[i].Snapshot()), frame, draws[i], cosines[i], sines[i])
        invariant forall i :: k <= i < bees.Length ==> bees[i].Snapshot() == old(bees[i].Snapshot())
      {
        var b := bees[k];
        assert forall i :: 0 <= i < bees.Length && i != k ==> bees[i] != b;
        b.Update(w, frame, draws[k], cosines[k], sines[k]);
      }
    }
  }
}
