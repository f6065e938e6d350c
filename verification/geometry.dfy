/** Points, directions and angle units shared by the turbine builder and the
    camera synchronisation. Arithmetic is exact: no floating-point rounding. */
module Geometry {

  /** A point or direction in the shared world frame of both engines. */
  datatype Vec3 = Vec3(x: real, y: real, z: real) {

    function Plus(o: Vec3): Vec3 {
      Vec3(x + o.x, y + o.y, z + o.z)
    }

    function Minus(o: Vec3): Vec3 {
      Vec3(x - o.x, y - o.y, z - o.z)
    }
  }

  const Origin: Vec3 := Vec3(0.0, 0.0, 0.0)

  /** `Math.PI`: the double nearest to pi, 884279719003555 / 2^48, taken as an
      exact rational. */
  const Pi: real := 884279719003555.0 / 281474976710656.0

  /** The radian-to-degree conversion `a * 180 / Math.PI`. */
  function RadiansToDegrees(a: real): (d: real)
    ensures DegreesToRadians(d) == a
    ensures 0.0 <= a <==> 0.0 <= d
  {
    a * 180.0 / Pi
  }

  /** The inverse conversion, degrees to radians. */
  function DegreesToRadians(d: real): real {
    d * Pi / 180.0
  }

  /** Converting degrees to radians and back is the identity. */
  lemma DegreesRoundTrip(d: real)
    ensures RadiansToDegrees(DegreesToRadians(d)) == d
  {
  }

  /** A right angle, `Math.PI / 2` radians, is 90 degrees. */
  lemma RightAngleIsNinety()
    ensures RadiansToDegrees(Pi / 2.0) == 90.0
  {
  }
}
