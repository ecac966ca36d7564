/** protoswarm/life.py: Conway's Game of Life on a torus the size of the
  * screen, seeded each tick by the lit pixels of the camera frame. */
module ProtoLife {
  import opened Common

  /** The board's shape: `(SIMULATION_BOUNDS[1], SIMULATION_BOUNDS[0])`. */
  const Rows: int := 720
  const Columns: int := 1280

  /** A grid of `rows` rows of `cols` cells. */
  predicate IsGrid<T>(g: seq<seq<T>>, rows: int, cols: int) {
    |g| == rows && forall r :: 0 <= r < |g| ==> |g[r]| == cols
  }

  /** A non-empty rectangular board. */
  predicate IsBoard(b: seq<seq<bool>>) {
    |b| > 0 && |b[0]| > 0 && IsGrid(b, |b|, |b[0]|)
  }

  /** `np.roll(np.roll(board, i, 0), j, 1)`: the board shifted down by `i`
    * rows and right by `j` columns, wrapping around. */
  function Roll(b: seq<seq<bool>>, i: int, j: int): (r: seq<seq<bool>>)
    requires IsBoard(b)
    ensures IsBoard(r) && IsGrid(r, |b|, |b[0]|)
    ensures forall x, y :: 0 <= x < |b| && 0 <= y < |b[0]| ==> r[x][y] == b[(x - i) % |b|][(y - j) % |b[0]|]
  {
    seq(|b|, x requires 0 <= x < |b| => seq(|b[0]|, y requires 0 <= y < |b[0]| => b[(x - i) % |b|][(y - j) % |b[0]|]))
  }

  /** The eight `(i, j)` shifts of the neighbour sum, in generator order. */
  const Offsets: seq<(int, int)> := [(-1, -1), (-1, 0), (-1, 1), (0, -1), (0, 1), (1, -1), (1, 0), (1, 1)]

  /** The cell the shift `(i, j)` brings to `(x, y)`, as 0 or 1. */
  function Shifted(b: seq<seq<bool>>, i: int, j: int, x: int, y: int): int
    requires IsBoard(b)
  {
    if b[(x - i) % |b|][(y - j) % |b[0]|] then 1 else 0
  }

  /** The sum at `(x, y)` of the boards shifted by `offsets`. */
  function ShiftSum(b: seq<seq<bool>>, offsets: seq<(int, int)>, x: int, y: int): (n: int)
    requires IsBoard(b)
    ensures 0 <= n <= |offsets|
  {
    if offsets == [] then 0
    else Shifted(b, offsets[0].0, offsets[0].1, x, y) + ShiftSum(b, offsets[1..], x, y)
  }

  /** `count` at `(x, y)`: the live cells among the eight around it, wrapping around. */
  function Neighbours(b: seq<seq<bool>>, x: int, y: int): (n: int)
    requires IsBoard(b)
    ensures 0 <= n <= 8
  {
    ShiftSum(b, Offsets, x, y)
  }

  /** `(count==3)|(board&(count==2))` for one cell. */
  predicate Rule(alive: bool, count: int) {
    count == 3 || (alive && count == 2)
  }

  /** `board|= frame>0`: every lit pixel becomes a live cell. */
  function Seeded(b: seq<seq<bool>>, frame: seq<seq<int>>): (r: seq<seq<bool>>)
    requires IsBoard(b) && IsGrid(frame, |b|, |b[0]|)
    ensures IsGrid(r, |b|, |b[0]|) && IsBoard(r)
    ensures forall x, y :: 0 <= x < |b| && 0 <= y < |b[0]| ==> (r[x][y] <==> b[x][y] || frame[x][y] > 0)
  {
    seq(|b|, x requires 0 <= x < |b| => seq(|b[0]|, y requires 0 <= y < |b[0]| => b[x][y] || frame[x][y] > 0))
  }

  /** One generation: the rule applied to every cell and its neighbour count. */
  function Next(b: seq<seq<bool>>): (r: seq<seq<bool>>)
    requires IsBoard(b)
    ensures IsGrid(r, |b|, |b[0]|) && IsBoard(r)
  {
    seq(|b|, x requires 0 <= x < |b| => seq(|b[0]|, y requires 0 <= y < |b[0]| => Rule(b[x][y], Neighbours(b, x, y))))
  }

  /** Birth on exactly three neighbours, survival on two or three, death otherwise. */
  lemma LifeRule(b: seq<seq<bool>>, x: int, y: int)
    requires IsBoard(b) && 0 <= x < |b| && 0 <= y < |b[0]|
    ensures !b[x][y] ==> (Next(b)[x][y] <==> Neighbours(b, x, y) == 3)
    ensures b[x][y] ==> (Next(b)[x][y] <==> Neighbours(b, x, y) == 2 || Neighbours(b, x, y) == 3)
  {
  }

  /** An all-dead board. */
  function Empty(rows: int, cols: int): (r: seq<seq<bool>>)
    requires rows > 0 && cols > 0
    ensures IsBoard(r) && IsGrid(r, rows, cols)
    ensures forall x, y :: 0 <= x < rows && 0 <= y < cols ==> !r[x][y]
  {
    seq(rows, _ => seq(cols, _ => false))
  }

  lemma {:induction false} EmptySum(rows: int, cols: int, offsets: seq<(int, int)>, x: int, y: int)
    requires rows > 0 && cols > 0
    ensures ShiftSum(Empty(rows, cols), offsets, x, y) == 0
  {
    if offsets != [] {
      EmptySum(rows, cols, offsets[1..], x, y);
    }
  }

  /** Nothing is born on an empty board. */
  lemma EmptyStaysEmpty(rows: int, cols: int)
    requires rows > 0 && cols > 0
    ensures Next(Empty(rows, cols)) == Empty(rows, cols)
  {
    var e := Empty(rows, cols);
    forall x, y | 0 <= x < rows && 0 <= y < cols
      ensures Next(e)[x][y] == e[x][y]
    {
      EmptySum(rows, cols, Offsets, x, y);
    }
    assert forall x :: 0 <= x < rows ==> Next(e)[x] == e[x];
  }

  /** Reducing before a shift does not change the reduced result. */
  lemma ModShift(a: int, i: int, n: int)
    requires n > 0
    ensures (a % n - i) % n == (a - i) % n
  {
    var q, r := (a % n - i) / n, (a % n - i) % n;
    assert a % n - i == q * n + r;
    assert a - i == (q + a / n) * n + r;
    DivModUnique(a - i, n, q + a / n, r);
  }

  /** Two wrapped shifts of an index commute. */
  lemma ShiftsCommute(x: int, a: int, i: int, n: int)
    requires n > 0
    ensures ((x - i) % n - a) % n == ((x - a) % n - i) % n
  {
    var u, v := x - i, x - a;
    ModShift(u, a, n);
    ModShift(v, i, n);
    assert u - a == v - i;
  }

  /** One shifted cell of a rolled board is the same shifted cell of the
    * original board, read at the rolled-back position. */
  lemma ShiftedRoll(b: seq<seq<bool>>, a: int, d: int, i: int, j: int, x: int, y: int)
    requires IsBoard(b)
    ensures Shifted(Roll(b, a, d), i, j, x, y) == Shifted(b, i, j, (x - a) % |b|, (y - d) % |b[0]|)
  {
    ShiftsCommute(x, a, i, |b|);
    ShiftsCommute(y, d, j, |b[0]|);
  }

  lemma {:induction false} ShiftSumRoll(b: seq<seq<bool>>, a: int, d: int, offsets: seq<(int, int)>, x: int, y: int)
    requires IsBoard(b)
    ensures ShiftSum(Roll(b, a, d), offsets, x, y) == ShiftSum(b, offsets, (x - a) % |b|, (y - d) % |b[0]|)
  {
    if offsets != [] {
      ShiftedRoll(b, a, d, offsets[0].0, offsets[0].1, x, y);
      ShiftSumRoll(b, a, d, offsets[1..], x, y);
    }
  }

  /** The neighbour count of a rolled board is the count at the rolled-back position. */
  lemma NeighboursRoll(b: seq<seq<bool>>, a: int, d: int, x: int, y: int)
    requires IsBoard(b)
    ensures Neighbours(Roll(b, a, d), x, y) == Neighbours(b, (x - a) % |b|, (y - d) % |b[0]|)
  {
    ShiftSumRoll(b, a, d, Offsets, x, y);
  }

  /** One cell of `NextCommutesWithRoll`. */
  lemma NextRollCell(b: seq<seq<bool>>, a: int, d: int, x: int, y: int)
    requires IsBoard(b) && 0 <= x < |b| && 0 <= y < |b[0]|
    ensures Next(Roll(b, a, d))[x][y] == Roll(Next(b), a, d)[x][y]
  {
    var rb := Roll(b, a, d);
    var x0, y0 := (x - a) % |b|, (y - d) % |b[0]|;
    NeighboursRoll(b, a, d, x, y);
    LifeRule(rb, x, y);
    LifeRule(b, x0, y0);
  }

  /** The torus has no preferred position: a generation of a rolled board is
    * the rolled generation of the board. */
  lemma NextCommutesWithRoll(b: seq<seq<bool>>, a: int, d: int)
    requires IsBoard(b)
    ensures Next(Roll(b, a, d)) == Roll(Next(b), a, d)
  {
    var rows, cols := |b|, |b[0]|;
    var left, right := Next(Roll(b, a, d)), Roll(Next(b), a, d);
    forall x | 0 <= x < rows
      ensures left[x] == right[x]
    {
      forall y | 0 <= y < cols
        ensures left[x][y] == right[x][y]
      {
        NextRollCell(b, a, d, x, y);
      }
    }
  }

  /** `c_life`. */
  class Life {
    var board: seq<seq<bool>>

    predicate Valid()
      reads this
    {
      IsGrid(board, Rows, Columns)
    }

    /** `c_life.__init__`: an all-dead board of the screen's shape. */
    constructor ()
      ensures Valid() && board == Empty(Rows, Columns)
    {
      board := Empty(Rows, Columns);
    }

    /** `c_life.update(frame)`: seed the board from the frame, then one generation. */
    method Update(frame: seq<seq<int>>)
      requires Valid() && IsGrid(frame, Rows, Columns)
      modifies this
      ensures Valid()
      ensures board == Next(Seeded(old(board), frame))
    {
      board := Seeded(board, frame);
      board := Next(board);
    }
  }
}
