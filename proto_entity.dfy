/** protoswarm/entity.py: the 2-D vector with its arithmetic operators and
  * the entity that moves by its velocity and wraps around the screen. */
module ProtoEntity {
  import opened Common
  import opened Toroidal
  import PySwarm

  /** `FRAMES_PER_SECOND` and `DT` of protoswarm/constants.py. */
  const FramesPerSecond: int := 30
  const Dt: real := 1.0 / 30.0

  /** `SIMULATION_BOUNDS` of protoswarm/constants.py. */
  const Width: real := 1280.0
  const Height: real := 720.0

  // ---------------------------------------------------------------------------
  // The operators that return a new vector

  datatype Vector2 = Vector2(x: real, y: real)

  /** `__add__`. */
  function Add(v: Vector2, w: Vector2): Vector2 {
    Vector2(v.x + w.x, v.y + w.y)
  }

  /** `__radd__`: `other + self` agrees with `__add__` with the operands swapped. */
  function RAdd(v: Vector2, other: Vector2): (r: Vector2)
    ensures r == Add(other, v) && r == Add(v, other)
  {
    Vector2(other.x + v.x, other.y + v.y)
  }

  /** `__sub__`. */
  function Sub(v: Vector2, w: Vector2): Vector2 {
    Vector2(v.x - w.x, v.y - w.y)
  }

  /** `__rsub__`: `other - self`. */
  function RSub(v: Vector2, other: Vector2): (r: Vector2)
    ensures r == Sub(other, v)
  {
    Vector2(other.x - v.x, other.y - v.y)
  }

  /** `__mul__` by a scalar. */
  function Mul(v: Vector2, k: real): Vector2 {
    Vector2(v.x * k, v.y * k)
  }

  /** `__rmul__`: `k * self` agrees with `self * k`. */
  function RMul(v: Vector2, k: real): (r: Vector2)
    ensures r == Mul(v, k)
  {
    Vector2(k * v.x, k * v.y)
  }

  /** `__truediv__` by a non-zero scalar (Python raises on zero). */
  function TrueDiv(v: Vector2, k: real): Vector2
    requires k != 0.0
  {
    Vector2(v.x / k, v.y / k)
  }

  /** Subtraction undoes addition. */
  lemma AddThenSub(v: Vector2, w: Vector2)
    ensures Sub(Add(v, w), w) == v
    ensures Add(Sub(v, w), w) == v
  {
  }

  /** Division undoes multiplication by the same non-zero scalar. */
  lemma MulThenDiv(v: Vector2, k: real)
    requires k != 0.0
    ensures TrueDiv(Mul(v, k), k) == v
    ensures Mul(TrueDiv(v, k), k) == v
  {
  }

  /** The square of `magnitude()`. */
  function MagnitudeSquared(v: Vector2): (r: real)
    ensures r >= 0.0
  {
    SquareNonNegative(v.x);
    SquareNonNegative(v.y);
    v.x * v.x + v.y * v.y
  }

  lemma SquareNonNegative(a: real)
    ensures a * a >= 0.0
  {
    if a < 0.0 {
      assert a * a == (-a) * (-a);
    }
  }

  /** Squaring is monotone on the non-negative reals. */
  lemma SquareMonotone(a: real, b: real)
    requires 0.0 <= a <= b
    ensures a * a <= b * b
  {
    assert a * a <= a * b;
    assert a * b <= b * b;
  }

  /** `m` is `magnitude()`, the non-negative square root of `x² + y²`. */
  predicate IsMagnitude(v: Vector2, m: real) {
    m >= 0.0 && m * m == MagnitudeSquared(v)
  }

  /** Scaling by `k` scales the squared magnitude by `k²`. */
  lemma MulMagnitude(v: Vector2, k: real)
    ensures MagnitudeSquared(Mul(v, k)) == k * k * MagnitudeSquared(v)
  {
    assert (v.x * k) * (v.x * k) == k * k * (v.x * v.x);
    assert (v.y * k) * (v.y * k) == k * k * (v.y * v.y);
  }

  /** `normalized()` given the magnitude `m`: a vector of magnitude one. */
  function Normalized(v: Vector2, m: real): (r: Vector2)
    requires IsMagnitude(v, m) && m != 0.0
    ensures MagnitudeSquared(r) == 1.0
    ensures Mul(r, m) == v
  {
    var inverse := 1.0 / m;
    assert TrueDiv(v, m) == Mul(v, inverse);
    MulMagnitude(v, inverse);
    assert inverse * inverse * (m * m) == 1.0;
    TrueDiv(v, m)
  }

  /** `pinned(limit)` given the magnitude `m`: the vector itself when it is no
    * longer than `limit`, otherwise `limit * normalized()`; `None` is the
    * division by zero Python raises for a zero vector and a negative limit. */
  function Pinned(v: Vector2, limit: real, m: real): (r: Option<Vector2>)
    requires IsMagnitude(v, m)
    ensures m <= limit ==> r == Some(v)
    ensures r == None <==> m > limit && m == 0.0
  {
    if m > limit then
      if m == 0.0 then None else Some(RMul(Normalized(v, m), limit))
    else Some(v)
  }

  /** A vector longer than the limit is cut down to exactly the limit's length. */
  lemma PinnedLength(v: Vector2, limit: real, m: real)
    requires IsMagnitude(v, m) && m > limit && m != 0.0
    ensures Pinned(v, limit, m).Some?
    ensures MagnitudeSquared(Pinned(v, limit, m).value) == limit * limit
  {
    var n := Normalized(v, m);
    MulMagnitude(n, limit);
    assert Pinned(v, limit, m).value == Mul(n, limit);
  }

  /** With a non-negative limit, `pinned` always succeeds and returns a vector
    * no longer than the limit. */
  lemma PinnedBounded(v: Vector2, limit: real, m: real)
    requires IsMagnitude(v, m) && limit >= 0.0
    ensures Pinned(v, limit, m).Some?
    ensures MagnitudeSquared(Pinned(v, limit, m).value) <= limit * limit
  {
    if m <= limit {
      SquareMonotone(m, limit);
    } else {
      PinnedLength(v, limit, m);
    }
  }

  /** `rotated(angle)` with `cosA == cos(angle)` and `sinA == sin(angle)`. */
  function Rotated(v: Vector2, cosA: real, sinA: real): Vector2 {
    Vector2(v.x * cosA - v.y * sinA, v.y * cosA + v.x * sinA)
  }

  /** A rotation keeps the magnitude. */
  lemma RotatedMagnitude(v: Vector2, cosA: real, sinA: real)
    requires cosA * cosA + sinA * sinA == 1.0
    ensures MagnitudeSquared(Rotated(v, cosA, sinA)) == MagnitudeSquared(v)
  {
    var x, y := v.x, v.y;
    assert (x * cosA - y * sinA) * (x * cosA - y * sinA)
        == x * x * (cosA * cosA) - 2.0 * (x * cosA) * (y * sinA) + y * y * (sinA * sinA);
    assert (y * cosA + x * sinA) * (y * cosA + x * sinA)
        == y * y * (cosA * cosA) + 2.0 * (x * cosA) * (y * sinA) + x * x * (sinA * sinA);
    assert x * x * (cosA * cosA) + x * x * (sinA * sinA) == x * x * (cosA * cosA + sinA * sinA);
    assert y * y * (cosA * cosA) + y * y * (sinA * sinA) == y * y * (cosA * cosA + sinA * sinA);
  }

  /** Rotating by `a` and then by `-a` gives the vector back. */
  lemma RotatedBack(v: Vector2, cosA: real, sinA: real)
    requires cosA * cosA + sinA * sinA == 1.0
    ensures Rotated(Rotated(v, cosA, sinA), cosA, -sinA) == v
  {
    var x, y := v.x, v.y;
    assert (x * cosA - y * sinA) * cosA + (y * cosA + x * sinA) * sinA == x * (cosA * cosA + sinA * sinA);
    assert (y * cosA + x * sinA) * cosA - (x * cosA - y * sinA) * sinA == y * (cosA * cosA + sinA * sinA);
  }

  // ---------------------------------------------------------------------------
  // The vector object and its in-place operators

  /** `c_vector2d`, whose in-place operators change its fields. */
  class Vector {
    var x: real
    var y: real

    function Value(): Vector2
      reads this
    {
      Vector2(x, y)
    }

    /** `c_vector2d(other)`: a copy. */
    constructor (other: Vector2)
      ensures Value() == other
    {
      x, y := other.x, other.y;
    }

    /** `c_vector2d()`: the zero vector. */
    constructor Zero()
      ensures Value() == Vector2(0.0, 0.0)
    {
      x, y := 0.0, 0.0;
    }

    /** `c_vector2d(facing=a, magnitude=m)` with `cosF == cos(a)` and
      * `sinF == sin(a)`; without a magnitude the unit vector along `a`. */
    constructor Facing(cosF: real, sinF: real, magnitude: Option<real>)
      ensures magnitude.None? ==> Value() == Vector2(cosF, sinF)
      ensures magnitude.Some? ==> Value() == Mul(Vector2(cosF, sinF), magnitude.value)
    {
      x, y := cosF, sinF;
      new;
      if magnitude.Some? {
        IMul(magnitude.value);
      }
    }

    /** `__iadd__`. */
    method IAdd(other: Vector2)
      modifies this
      ensures Value() == Add(old(Value()), other)
    {
      x := x + other.x;
      y := y + other.y;
    }

    /** `__isub__`. */
    method ISub(other: Vector2)
      modifies this
      ensures Value() == Sub(old(Value()), other)
    {
      x := x - other.x;
      y := y - other.y;
    }

    /** `__imul__`. */
    method IMul(k: real)
      modifies this
      ensures Value() == Mul(old(Value()), k)
    {
      x := x * k;
      y := y * k;
    }

    /** `__itruediv__`. */
    method ITrueDiv(k: real)
      requires k != 0.0
      modifies this
      ensures Value() == TrueDiv(old(Value()), k)
    {
      x := x / k;
      y := y / k;
    }
  }

  // ---------------------------------------------------------------------------
  // The entity

  /** `c_entity`: its position and velocity are vector objects of their own. */
  class Entity {
    const size: real
    const position: Vector
    var velocity: Vector
    var angle: real
    var angVel: real

    /** The two vectors are distinct objects and the size is positive. */
    predicate Valid()
      reads this
    {
      position != velocity && size > 0.0
    }

    function Body(): PySwarm.Body
      reads this, position, velocity
    {
      PySwarm.Body(position.x, position.y, velocity.x, velocity.y, angle, angVel)
    }

    /** `c_entity.__init__`, which asserts a positive size and copies both vectors. */
    constructor (size: real, linearPosition: Vector2, linearVelocity: Vector2, angularPosition: real, angularVelocity: real)
      requires size > 0.0
      ensures Valid() && fresh(position) && fresh(velocity) && this.size == size
      ensures Body() == PySwarm.Body(linearPosition.x, linearPosition.y, linearVelocity.x, linearVelocity.y, angularPosition, angularVelocity)
    {
      this.size := size;
      position := new Vector(linearPosition);
      velocity := new Vector(linearVelocity);
      angle := angularPosition;
      angVel := angularVelocity;
    }

    /** `c_entity.update`. */
    method Update()
      requires Valid()
      modifies this, position
      ensures Valid() && velocity == old(velocity)
      ensures Body() == PySwarm.Moved(old(Body()), Dt, size, Width, Height)
    {
      position.IAdd(Mul(velocity.Value(), Dt));
      position.x := WrapClosed(position.x, Width, size);
      position.y := WrapClosed(position.y, Height, size);
      angle := angle + angVel * Dt;
      angle := WrapValue(angle, PySwarm.TwoPi, 0.0);
    }
  }
}
