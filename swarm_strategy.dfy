/** oldsrc/SwarmStrategy.h: the base of the attractor-driven movers, holding a
  * list of bee points and a list of attractor points on an `xWidth` by
  * `yWidth` grid. */
module SwarmStrategy {
  import opened Common

  /** `rand() % extent` for a requested coordinate of -1, otherwise the coordinate itself. */
  function ChooseCoordinate(requested: int, draw: nat, extent: int): (c: int)
    requires requested == -1 ==> extent > 0
    ensures requested != -1 ==> c == requested
    ensures requested == -1 ==> 0 <= c < extent
  {
    if requested == -1 then draw % extent else requested
  }

  class Strategy {
    var points: seq<Point>
    var attractors: seq<Point>
    const xWidth: int
    const yWidth: int
    const stepSize: int

    /** The state a derived constructor leaves the base part in: empty lists
      * and the grid dimensions. */
    constructor (xWidth: int, yWidth: int, stepSize: int)
      ensures points == [] && attractors == []
      ensures this.xWidth == xWidth && this.yWidth == yWidth && this.stepSize == stepSize
    {
      points := [];
      attractors := [];
      this.xWidth := xWidth;
      this.yWidth := yWidth;
      this.stepSize := stepSize;
    }

    /** `getPoints`: a copy of the point list. */
    method GetPoints() returns (r: seq<Point>)
      ensures r == points
    {
      r := points;
    }

    /** `addP(cv::Point)`. */
    method AddPoint(p: Point)
      modifies this
      ensures points == old(points) + [p] && attractors == old(attractors)
    {
      points := points + [p];
    }

    /** `addA(cv::Point)`. */
    method AddAttractor(p: Point)
      modifies this
      ensures attractors == old(attractors) + [p] && points == old(points)
    {
      attractors := attractors + [p];
    }

    /** `addP(int x, int y)`: a -1 coordinate is replaced by a random one. */
    method AddPointAt(x: int, y: int, drawX: nat, drawY: nat)
      requires x == -1 ==> xWidth > 0
      requires y == -1 ==> yWidth > 0
      modifies this
      ensures points == old(points) + [Point(ChooseCoordinate(x, drawX, xWidth), ChooseCoordinate(y, drawY, yWidth))]
      ensures attractors == old(attractors)
    {
      var px := x;
      var py := y;
      if px == -1 {
        px := drawX % xWidth;
      }
      if py == -1 {
        py := drawY % yWidth;
      }
      points := points + [Point(px, py)];
    }

    /** `addA(int x, int y)`: a -1 coordinate is replaced by a random one. */
    method AddAttractorAt(x: int, y: int, drawX: nat, drawY: nat)
      requires x == -1 ==> xWidth > 0
      requires y == -1 ==> yWidth > 0
      modifies this
      ensures attractors == old(attractors) + [Point(ChooseCoordinate(x, drawX, xWidth), ChooseCoordinate(y, drawY, yWidth))]
      ensures points == old(points)
    {
      var px := x;
      var py := y;
      if px == -1 {
        px := drawX % xWidth;
      }
      if py == -1 {
        py := drawY % yWidth;
      }
      attractors := attractors + [Point(px, py)];
    }

    /** `replaceAArray`: the attractor list is replaced wholesale. */
    method ReplaceAttractors(a: seq<Point>)
      modifies this
      ensures attractors == a && points == old(points)
    {
      attractors := a;
    }
  }
}
