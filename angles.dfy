/**
 * The angle arithmetic of the backend's `calculate_angle`.
 *
 * The bearing difference `arctan2(c - b) - arctan2(a - b)`, converted to degrees, is
 * floating-point trigonometry and is not modelled: it is passed in as a function of the
 * three landmarks (`Bearing`). What is modelled is the fold that turns that signed
 * difference into the reported joint angle.
 */
module Angles {

  /** A landmark's normalised image coordinates, as MediaPipe reports them. */
  datatype Point = Point(x: real, y: real)

  /**
   * The signed difference of the two arctan2 bearings seen from the middle point, in
   * degrees. Since each bearing lies in [-180, 180], the difference lies in [-360, 360].
   */
  type Bearing = f: (Point, Point, Point) -> real | forall a, b, c :: -360.0 <= f(a, b, c) <= 360.0
    witness (a: Point, b: Point, c: Point) => 0.0

  function Abs(v: real): (r: real)
    ensures 0.0 <= r
    ensures r == v || r == -v
  {
    if v < 0.0 then -v else v
  }

  /**
   * Folds a signed degree value into the joint angle the backend reports: the magnitude,
   * reflected through 360 when it exceeds a half turn.
   */
  function CalculateAngle(raw: real): (angle: real)
    ensures angle <= 180.0
    ensures 0.0 <= angle <==> Abs(raw) <= 360.0
    ensures Abs(raw) <= 180.0 ==> angle == Abs(raw)
    ensures angle == Abs(raw) || angle + Abs(raw) == 360.0
  {
    var angle := Abs(raw);
    if angle > 180.0 then 360.0 - angle else angle
  }

  /** The angle at `b` between the rays to `a` and to `c`. */
  function JointAngle(bearing: Bearing, a: Point, b: Point, c: Point): (angle: real)
    ensures 0.0 <= angle <= 180.0
  {
    CalculateAngle(bearing(a, b, c))
  }
}
