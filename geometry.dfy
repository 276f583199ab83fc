/**
 * The value types the modelled code passes around: vectors, texture
 * coordinates, colours, lines, polygons and transforms. Doubles are
 * modelled as exact reals; rounding is not part of this model.
 */
module Geometry {

  datatype Vector3 = Vector3(x: real, y: real, z: real)

  /** A texture coordinate. */
  datatype UV = UV(u: real, v: real)

  datatype Color = Color(red: real, green: real, blue: real, alpha: real)

  datatype Line = Line(start: Vector3, end: Vector3)

  datatype Polygon = Polygon(vertices: seq<Vector3>)

  /** A coordinate frame: an origin and its three axes. */
  datatype Transform = Transform(origin: Vector3, xAxis: Vector3, yAxis: Vector3, zAxis: Vector3)

  const Origin: Vector3 := Vector3(0.0, 0.0, 0.0)
  const ZAxis: Vector3 := Vector3(0.0, 0.0, 1.0)

  /** Vector3.EPSILON, the library-wide tolerance. */
  const EPSILON: real := 0.00001

  function Plus(a: Vector3, b: Vector3): Vector3 {
    Vector3(a.x + b.x, a.y + b.y, a.z + b.z)
  }

  function Minus(a: Vector3, b: Vector3): Vector3 {
    Vector3(a.x - b.x, a.y - b.y, a.z - b.z)
  }

  function Scale(a: Vector3, k: real): Vector3 {
    Vector3(a.x * k, a.y * k, a.z * k)
  }

  function Divide(a: Vector3, k: real): Vector3
    requires k != 0.0
  {
    Vector3(a.x / k, a.y / k, a.z / k)
  }

  function Dot(a: Vector3, b: Vector3): real {
    a.x * b.x + a.y * b.y + a.z * b.z
  }

  function Cross(a: Vector3, b: Vector3): Vector3 {
    Vector3(a.y * b.z - a.z * b.y, a.z * b.x - a.x * b.z, a.x * b.y - a.y * b.x)
  }

  /** The vector `v` raised by `h` along Z: `new Vector3(v.X, v.Y, v.Z + h)`. */
  function Raised(v: Vector3, h: real): Vector3 {
    Vector3(v.x, v.y, v.z + h)
  }
}
