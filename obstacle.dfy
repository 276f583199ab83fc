/**
 * Adaptive-grid obstacles: a list of points, an offset around their
 * bounding box, a perimeter flag and an optional frame. The factories lay
 * out the points of columns, walls, boxes, extruded 2D polygons and lines.
 *
 * A line's unit direction and the tolerance-based parallel test are
 * parameters (`direction`, `isParallelTo`); so is the corner list of a box
 * (`cornersOf`). Cross products are exact on reals.
 */
module Obstacles {
  import opened Exceptions
  import opened Geometry

  /** A column: its location, its height and its profile's perimeter. */
  datatype Column = Column(location: Vector3, height: real, profilePerimeter: Polygon)

  datatype StandardWall = StandardWall(centerLine: Line, thickness: real, height: real)

  datatype BBox3 = BBox3(min: Vector3, max: Vector3)

  class Obstacle {
    var points: seq<Vector3>
    var offset: real
    var perimeter: bool
    var transform: Option<Transform>

    /** Stores the four properties as given. */
    constructor (points: seq<Vector3>, offset: real, perimeter: bool, transformation: Option<Transform>)
      ensures this.points == points && this.offset == offset
      ensures this.perimeter == perimeter && transform == transformation
    {
      this.points := points;
      this.offset := offset;
      this.perimeter := perimeter;
      this.transform := transformation;
    }
  }

  /** The projection `Select(v => new Vector3(v.X, v.Y, v.Z + h))`. */
  function RaisedAll(vs: seq<Vector3>, h: real): (r: seq<Vector3>)
    ensures |r| == |vs|
  {
    seq(|vs|, i requires 0 <= i < |vs| => Raised(vs[i], h))
  }

  /** The projection `Select(p => new Vector3(p.X, p.Y))`: Z becomes 0. */
  function Flattened(vs: seq<Vector3>): (r: seq<Vector3>)
    ensures |r| == |vs|
  {
    seq(|vs|, i requires 0 <= i < |vs| => Vector3(vs[i].x, vs[i].y, 0.0))
  }

  /** The projection `Select(p => new Vector3(p.X, p.Y, height))`. */
  function AtHeight(vs: seq<Vector3>, height: real): (r: seq<Vector3>)
    ensures |r| == |vs|
  {
    seq(|vs|, i requires 0 <= i < |vs| => Vector3(vs[i].x, vs[i].y, height))
  }

  /** The polygon moved by `new Transform(location)`, a translation. */
  function Translated(vs: seq<Vector3>, location: Vector3): (r: seq<Vector3>)
    ensures |r| == |vs|
  {
    seq(|vs|, i requires 0 <= i < |vs| => Plus(vs[i], location))
  }

  /**
   * FromColumn: the column's translated perimeter, then the same points
   * raised by the column's height; no frame.
   */
  method FromColumn(column: Column, offset: real := 0.0, perimeter: bool := false) returns (o: Obstacle)
    ensures fresh(o)
    ensures var n := |column.profilePerimeter.vertices|;
      && |o.points| == 2 * n
      && (forall i :: 0 <= i < n ==> o.points[i] == Plus(column.profilePerimeter.vertices[i], column.location))
      && (forall i :: 0 <= i < n ==> o.points[n + i] == Raised(o.points[i], column.height))
    ensures o.offset == offset && o.perimeter == perimeter && o.transform == None
  {
    var p := Translated(column.profilePerimeter.vertices, column.location);
    var points: seq<Vector3> := [];
    points := points + p;
    points := points + RaisedAll(p, column.height);
    o := new Obstacle(points, offset, perimeter, None);
  }

  /** The four bottom corners of a wall: both ends shifted by half the thickness to each side. */
  function WallBase(wall: StandardWall, ortho: Vector3): (base: seq<Vector3>)
    ensures |base| == 4
    ensures Minus(base[1], base[0]) == Minus(wall.centerLine.end, wall.centerLine.start)
    ensures Minus(base[3], base[2]) == Minus(wall.centerLine.end, wall.centerLine.start)
    ensures Minus(base[0], base[2]) == Scale(ortho, wall.thickness)
    ensures Divide(Plus(base[0], base[2]), 2.0) == wall.centerLine.start
    ensures Divide(Plus(base[1], base[3]), 2.0) == wall.centerLine.end
  {
    var line := wall.centerLine;
    [ Plus(line.start, Divide(Scale(ortho, wall.thickness), 2.0)),
      Plus(line.end, Divide(Scale(ortho, wall.thickness), 2.0)),
      Minus(line.start, Divide(Scale(ortho, wall.thickness), 2.0)),
      Minus(line.end, Divide(Scale(ortho, wall.thickness), 2.0)) ]
  }

  /**
   * FromWall: the four bottom corners, then those four (and only those,
   * since the projection is materialised before it is appended) raised by
   * the wall's height; the frame is the centre line's direction, its
   * horizontal perpendicular and Z.
   */
  method FromWall(wall: StandardWall, offset: real := 0.0, perimeter: bool := false, direction: Line -> Vector3) returns (o: Obstacle)
    ensures fresh(o)
    ensures var ortho := Cross(direction(wall.centerLine), ZAxis);
      && |o.points| == 8
      && o.points[..4] == WallBase(wall, ortho)
      && (forall i :: 0 <= i < 4 ==> o.points[4 + i] == Raised(o.points[i], wall.height))
      && o.transform == Some(Transform(Origin, direction(wall.centerLine), ortho, ZAxis))
    ensures o.offset == offset && o.perimeter == perimeter
  {
    var ortho := Cross(direction(wall.centerLine), ZAxis);
    var points: seq<Vector3> := [];
    points := points + [Plus(wall.centerLine.start, Divide(Scale(ortho, wall.thickness), 2.0))];
    points := points + [Plus(wall.centerLine.end, Divide(Scale(ortho, wall.thickness), 2.0))];
    points := points + [Minus(wall.centerLine.start, Divide(Scale(ortho, wall.thickness), 2.0))];
    points := points + [Minus(wall.centerLine.end, Divide(Scale(ortho, wall.thickness), 2.0))];
    var raised := RaisedAll(points, wall.height);
    points := points + raised;
    var frame := Transform(Origin, direction(wall.centerLine), ortho, ZAxis);
    o := new Obstacle(points, offset, perimeter, Some(frame));
  }

  /**
   * The wall's footprint lies across its centre line: the perpendicular
   * FromWall uses is horizontal and orthogonal to the direction, and so is
   * the offset between the two long sides.
   */
  lemma WallFootprint(wall: StandardWall, dir: Vector3)
    ensures var ortho := Cross(dir, ZAxis); var base := WallBase(wall, ortho);
      && ortho.z == 0.0 && Dot(ortho, dir) == 0.0
      && Minus(base[0], base[2]).z == 0.0 && Dot(Minus(base[0], base[2]), dir) == 0.0
  {
    var ortho := Cross(dir, ZAxis);
    assert Minus(WallBase(wall, ortho)[0], WallBase(wall, ortho)[2]) == Scale(ortho, wall.thickness);
    assert Dot(Scale(ortho, wall.thickness), dir) == wall.thickness * Dot(ortho, dir);
  }

  /** FromBBox: the box's corners, no frame. */
  method FromBBox(box: BBox3, offset: real := 0.0, perimeter: bool := false, cornersOf: BBox3 -> seq<Vector3>) returns (o: Obstacle)
    ensures fresh(o)
    ensures o.points == cornersOf(box) && o.transform == None
    ensures o.offset == offset && o.perimeter == perimeter
  {
    o := new Obstacle(cornersOf(box), offset, perimeter, None);
  }

  /**
   * From2DPolygon: the polygon's vertices at Z = 0, then the same vertices
   * at Z = height; the vertices' own Z is dropped; no frame.
   */
  method From2DPolygon(polygon: Polygon, height: real, offset: real := 0.0, perimeter: bool := false) returns (o: Obstacle)
    ensures fresh(o)
    ensures var vs := polygon.vertices; var n := |vs|;
      && |o.points| == 2 * n
      && (forall i :: 0 <= i < n ==> o.points[i] == Vector3(vs[i].x, vs[i].y, 0.0))
      && (forall i :: 0 <= i < n ==> o.points[n + i] == Vector3(vs[i].x, vs[i].y, height))
    ensures o.offset == offset && o.perimeter == perimeter && o.transform == None
  {
    var points: seq<Vector3> := [];
    points := points + Flattened(polygon.vertices);
    points := points + AtHeight(polygon.vertices, height);
    o := new Obstacle(points, offset, perimeter, None);
  }

  /**
   * The frame FromLine builds around a direction that is not parallel to Z:
   * the direction, its horizontal perpendicular and their cross product,
   * pairwise orthogonal; the perpendicular is zero only for a vertical (or
   * zero) direction.
   */
  function LineFrame(forward: Vector3): (t: Transform)
    ensures t.origin == Origin
    ensures Dot(t.xAxis, t.yAxis) == 0.0 && Dot(t.yAxis, t.zAxis) == 0.0 && Dot(t.xAxis, t.zAxis) == 0.0
    ensures t.yAxis.z == 0.0
    ensures t.yAxis == Origin <==> forward.x == 0.0 && forward.y == 0.0
  {
    var right := Cross(forward, ZAxis);
    assert right == Vector3(forward.y, -forward.x, 0.0);
    var up := Cross(forward, right);
    assert up == Vector3(forward.z * forward.x, forward.z * forward.y, -(forward.x * forward.x + forward.y * forward.y));
    Transform(Origin, forward, right, up)
  }

  /**
   * FromLine: an offset below EPSILON is rejected; otherwise the points are
   * the line's two ends, and the frame is left null exactly when the line
   * runs parallel to Z.
   */
  method FromLine(line: Line, offset: real := 0.1, perimeter: bool := false,
                  direction: Line -> Vector3, isParallelTo: (Vector3, Vector3) -> bool)
    returns (r: Result<Obstacle>)
    ensures offset < EPSILON <==> r == Failure(ArgumentException)
    ensures offset >= EPSILON ==> r.Success?
    ensures r.Success? ==>
      && fresh(r.value)
      && r.value.points == [line.start, line.end]
      && r.value.offset == offset && r.value.perimeter == perimeter
      && r.value.transform == if isParallelTo(direction(line), ZAxis) then None else Some(LineFrame(direction(line)))
  {
    if offset < EPSILON {
      return Failure(ArgumentException);
    }
    var points: seq<Vector3> := [];
    points := points + [line.start];
    points := points + [line.end];
    var frame: Option<Transform> := None;
    var forward := direction(line);
    if !isParallelTo(forward, ZAxis) {
      var right := Cross(forward, ZAxis);
      var up := Cross(forward, right);
      frame := Some(Transform(Origin, forward, right, up));
    }
    var o := new Obstacle(points, offset, perimeter, frame);
    return Success(o);
  }
}
