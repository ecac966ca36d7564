/** The integer-grid bee mover of swarm/src/Swarm.cpp: bees with integer
  * positions and velocities on the camera frame, stopped by edge pixels,
  * kicked at random off the edges and reflected at the frame border. */
module IntSwarm {
  import opened Common

  /** `k_camera_width`, `k_camera_height` and `BEE_VELOCITY`. */
  datatype Grid = Grid(width: int, height: int, velocity: int)
  {
    predicate Valid() { width > 0 && height > 0 && velocity > 0 }
  }

  /** Position and velocity of one bee. */
  datatype BeeState = BeeState(x: int, y: int, vx: int, vy: int)

  /** The `rand()` results one `bee_init` consumes. */
  datatype Spawn = Spawn(rx: nat, ry: nat, rvx: nat, rvy: nat)

  /** The `rand()` results one `bee_update` may consume: the 2% roll and
    * the two velocity kicks (used only when the roll succeeds). */
  datatype Kick = Kick(roll: nat, kx: nat, ky: nat)

  /** `rand() % BEE_VELOCITY - BEE_VELOCITY / 2`. */
  function VelocityDraw(r: nat, v: int): (d: int)
    requires v > 0
    ensures -(v / 2) <= d <= v - 1 - v / 2
  {
    r % v - v / 2
  }

  predicate InFrame(g: Grid, x: int, y: int) {
    0 <= x < g.width && 0 <= y < g.height
  }

  /** `y * k_camera_width + x`, the row-major index of a pixel. */
  function FrameIndex(g: Grid, x: int, y: int): (k: int)
    requires g.Valid() && InFrame(g, x, y)
    ensures 0 <= k < g.width * g.height
  {
    RowMajorBelow(x, y, g.width, g.height);
    y * g.width + x
  }

  predicate IsFrame(g: Grid, frame: seq<int>) {
    |frame| == g.width * g.height
  }

  /** The pixel under the bee is non-zero. */
  predicate OnEdge(g: Grid, frame: seq<int>, b: BeeState)
    requires g.Valid() && IsFrame(g, frame) && InFrame(g, b.x, b.y)
  {
    frame[FrameIndex(g, b.x, b.y)] != 0
  }

  /** `bee_init`: a position anywhere in the frame and a velocity draw per axis. */
  function Spawned(g: Grid, s: Spawn): (b: BeeState)
    requires g.Valid()
    ensures InFrame(g, b.x, b.y)
    ensures -(g.velocity / 2) <= b.vx <= g.velocity - 1 - g.velocity / 2
    ensures -(g.velocity / 2) <= b.vy <= g.velocity - 1 - g.velocity / 2
  {
    BeeState(s.rx % g.width, s.ry % g.height, VelocityDraw(s.rvx, g.velocity), VelocityDraw(s.rvy, g.velocity))
  }

  /** The velocity after the edge test of `bee_update`, before reflection. */
  function Kicked(g: Grid, frame: seq<int>, b: BeeState, k: Kick): (v: (int, int))
    requires g.Valid() && IsFrame(g, frame) && InFrame(g, b.x, b.y)
    ensures OnEdge(g, frame, b) ==> v == (0, 0)
    ensures v != (b.vx, b.vy) ==> OnEdge(g, frame, b) || k.roll % 100 < 2
    ensures !OnEdge(g, frame, b) ==>
      -(g.velocity / 2) <= v.0 - b.vx <= g.velocity - 1 - g.velocity / 2
      && -(g.velocity / 2) <= v.1 - b.vy <= g.velocity - 1 - g.velocity / 2
  {
    if OnEdge(g, frame, b) then (0, 0)
    else if k.roll % 100 < 2 then (b.vx + VelocityDraw(k.kx, g.velocity), b.vy + VelocityDraw(k.ky, g.velocity))
    else (b.vx, b.vy)
  }

  /** The velocity component after the border test on one axis. */
  function Reflected(p: int, v: int, size: int): (r: int)
    ensures r == v || r == -v
    ensures 0 <= p + v < size ==> r == v
    ensures p + v < 0 || p + v >= size ==> r == -v
  {
    if p + v < 0 || p + v >= size then -v else v
  }

  /** One `bee_update` on values. */
  function Step(g: Grid, frame: seq<int>, b: BeeState, k: Kick): (r: BeeState)
    requires g.Valid() && IsFrame(g, frame) && InFrame(g, b.x, b.y)
  {
    var v := Kicked(g, frame, b, k);
    var vx := Reflected(b.x, v.0, g.width);
    var vy := Reflected(b.y, v.1, g.height);
    BeeState(b.x + vx, b.y + vy, vx, vy)
  }

  /** Reflection keeps a coordinate inside `[0, size)` as long as the
    * velocity is at most half the size. */
  lemma ReflectedStaysInside(p: int, v: int, size: int)
    requires 0 <= p < size
    requires 2 * v <= size && 2 * -v <= size
    ensures 0 <= p + Reflected(p, v, size) < size
  {
  }

  /** A velocity larger than half the frame can carry a bee out of it even
    * after reflection: from x = 0 with velocity -700 on a 640-wide frame the
    * bee lands at x = 700. */
  lemma ReflectionCanLeaveFrame()
    ensures Reflected(0, -700, 640) == 700
    ensures !(0 <= 0 + Reflected(0, -700, 640) < 640)
  {
  }

  /** A bee on an edge pixel stops where it is. */
  lemma EdgeStops(g: Grid, frame: seq<int>, b: BeeState, k: Kick)
    requires g.Valid() && IsFrame(g, frame) && InFrame(g, b.x, b.y)
    requires OnEdge(g, frame, b)
    ensures Step(g, frame, b, k) == BeeState(b.x, b.y, 0, 0)
  {
  }

  /** Off the edges and without a kick, a bee keeps its speed on each axis and
    * moves by its velocity or bounces back by it. */
  lemma QuietStep(g: Grid, frame: seq<int>, b: BeeState, k: Kick)
    requires g.Valid() && IsFrame(g, frame) && InFrame(g, b.x, b.y)
    requires !OnEdge(g, frame, b) && k.roll % 100 >= 2
    ensures var r := Step(g, frame, b, k);
      (r.vx == b.vx || r.vx == -b.vx) && (r.vy == b.vy || r.vy == -b.vy)
      && r.x == b.x + r.vx && r.y == b.y + r.vy
  {
  }

  /** A step stays in the frame whenever the velocity it moves with is at
    * most half the frame on each axis. */
  lemma StepStaysInFrame(g: Grid, frame: seq<int>, b: BeeState, k: Kick)
    requires g.Valid() && IsFrame(g, frame) && InFrame(g, b.x, b.y)
    requires var v := Kicked(g, frame, b, k);
      2 * v.0 <= g.width && 2 * -v.0 <= g.width && 2 * v.1 <= g.height && 2 * -v.1 <= g.height
    ensures var r := Step(g, frame, b, k); InFrame(g, r.x, r.y)
  {
    var v := Kicked(g, frame, b, k);
    ReflectedStaysInside(b.x, v.0, g.width);
    ReflectedStaysInside(b.y, v.1, g.height);
  }

  /** `Bee`: integer position and velocity, and the `pos` point handed out. */
  class Bee {
    var x: int
    var y: int
    var vx: int
    var vy: int
    var pos: Point

    function State(): BeeState
      reads this
    {
      BeeState(x, y, vx, vy)
    }

    /** `pos` mirrors the position. */
    predicate Valid()
      reads this
    {
      pos == Point(x, y)
    }

    /** `Bee::Bee`, which leaves every field to `bee_init`. */
    constructor ()
    {
    }

    /** `Bee::bee_init`. */
    method Init(g: Grid, s: Spawn)
      requires g.Valid()
      modifies this
      ensures State() == Spawned(g, s) && Valid()
    {
      x := s.rx % g.width;
      y := s.ry % g.height;
      vx := s.rvx % g.velocity - g.velocity / 2;
      vy := s.rvy % g.velocity - g.velocity / 2;
      pos := Point(x, y);
    }

    /** `Bee::bee_update`; the frame is read at the bee's pixel, so the bee
      * must be inside the frame. */
    method Update(g: Grid, frame: seq<int>, k: Kick)
      requires g.Valid() && IsFrame(g, frame) && InFrame(g, x, y)
      modifies this
      ensures State() == Step(g, frame, old(State()), k) && Valid()
    {
      ghost var b := State();
      if frame[FrameIndex(g, x, y)] != 0 {
        vx := 0;
        vy := 0;
      } else {
        if k.roll % 100 < 2 {
          vx := vx + (k.kx % g.velocity - g.velocity / 2);
          vy := vy + (k.ky % g.velocity - g.velocity / 2);
        }
      }
      assert (vx, vy) == Kicked(g, frame, b, k);
      if x + vx < 0 || x + vx >= g.width {
        vx := -vx;
      }
      if y + vy < 0 || y + vy >= g.height {
        vy := -vy;
      }
      x := x + vx;
      y := y + vy;
      pos := Point(x, y);
    }
  }

  /** `Swarm`: the bee array and the point array handed to the renderer. */
  class Swarm {
    var bees: array<Bee>
    var points: array<Point>

    /** The bees are distinct and `points[i]` is bee `i`'s position. */
    predicate Valid()
      reads this, bees, points, set i | 0 <= i < bees.Length :: bees[i]
    {
      bees.Length == points.Length
      && (forall i, j :: 0 <= i < j < bees.Length ==> bees[i] != bees[j])
      && (forall i :: 0 <= i < bees.Length ==> bees[i].Valid())
      && (forall i :: 0 <= i < bees.Length ==> points[i] == bees[i].pos)
    }

    constructor ()
    {
      bees := new Bee[0];
      points := new Point[0];
    }

    /** `Swarm::swarm_init`: `|spawns|` new bees, each initialised with its
      * own draws, and their positions copied into `points`. */
    method Init(g: Grid, spawns: seq<Spawn>)
      requires g.Valid()
      modifies this
      ensures fresh(bees) && fresh(points) && bees.Length == |spawns| && Valid()
      ensures forall i :: 0 <= i < bees.Length ==> bees[i].State() == Spawned(g, spawns[i])
    {
      var made: seq<Bee> := [];
      var ps: seq<Point> := [];
      while |made| < |spawns|
        invariant |made| == |ps| <= |spawns|
        invariant forall i, j :: 0 <= i < j < |made| ==> made[i] != made[j]
        invariant forall i :: 0 <= i < |made| ==> fresh(made[i])
        invariant forall i :: 0 <= i < |made| ==> made[i].Valid() && ps[i] == made[i].pos
        invariant forall i :: 0 <= i < |made| ==> made[i].State() == Spawned(g, spawns[i])
      {
        var b := new Bee();
        b.Init(g, spawns[|made|]);
        made := made + [b];
        ps := ps + [b.pos];
      }
      bees := new Bee[|made|](i requires 0 <= i < |made| => made[i]);
      points := new Point[|ps|](i requires 0 <= i < |ps| => ps[i]);
    }

    /** `Swarm::swarm_update`: every bee takes one step in array order with
      * its own draws, and its new position is copied into `points`. */
    method Update(g: Grid, frame: seq<int>, kicks: seq<Kick>)
      requires g.Valid() && IsFrame(g, frame) && Valid()
      requires |kicks| == bees.Length
      requires forall i :: 0 <= i < bees.Length ==> InFrame(g, bees[i].x, bees[i].y)
      modifies points, set i | 0 <= i < bees.Length :: bees[i]
      ensures Valid()
      ensures forall i :: 0 <= i < bees.Length ==>
        bees[i].State() == Step(g, frame, old(bees[i].State()), kicks[i])
    {
      for k := 0 to bees.Length
        invariant Valid()
        invariant forall i :: 0 <= i < k ==>
          bees[i].State() == Step(g, frame, old(bees[i].State()), kicks[i])
        invariant forall i :: k <= i < bees.Length ==> bees[i].State() == old(bees[i].State())
      {
        var b := bees[k];
        assert forall i :: 0 <= i < bees.Length && i != k ==> bees[i] != b;
        b.Update(g, frame, kicks[k]);
        points[k] := bees[k].pos;
      }
    }
  }
}
