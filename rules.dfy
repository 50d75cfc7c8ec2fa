/**
 * The backend's rule table: the landmarks each analysis reads, the two angles it measures,
 * the two threshold rules and the messages each route reports for them.
 */
module Rules {

  import opened Angles

  /** The pose landmarks the backend reads (MediaPipe's LEFT_/RIGHT_ indices). */
  datatype Landmarks = Landmarks(
    leftShoulder: Point, rightShoulder: Point,
    leftEar: Point, rightEar: Point,
    rightHip: Point, rightKnee: Point, rightAnkle: Point)

  /** The two detection modes. */
  datatype Mode = Squat | Desk

  /** The four analysis routes of the backend. */
  datatype Route = SquatImage | SquatVideo | DeskImage | DeskVideo

  function ImageRoute(mode: Mode): Route
  {
    match mode
    case Squat => SquatImage
    case Desk => DeskImage
  }

  function VideoRoute(mode: Mode): Route
  {
    match mode
    case Squat => SquatVideo
    case Desk => DeskVideo
  }

  /**
   * The feedback messages the routes report. The reply lists each one by its text; the rules
   * below work on the messages themselves, and `Text` gives the words sent.
   */
  datatype Message =
    | KneeBeyondToeImage | BackAngleImage | GoodSquatImage
    | KneeBeyondToe | BackAngleLow | GoodPosture
    | NeckBends | BackNotStraight | GoodDeskImage | GoodDeskVideo

  /**
   * The words of each message. A message with a "g" in it is written as pieces split at
   * spaces, so that the words around each "g" can be looked at on their own.
   */
  function Text(m: Message): string
  {
    match m
    case KneeBeyondToeImage => "Knee " + ("goes " + "beyond toe (bad squat posture)")
    case BackAngleImage => "Back " + ("angle " + "< 150° (bad squat posture)")
    case GoodSquatImage => "Good squat posture detected"
    case KneeBeyondToe => "Knee " + ("goes " + "beyond toe")
    case BackAngleLow => "Back " + ("angle " + "< 150°")
    case GoodPosture => "Good posture"
    case NeckBends => "Neck bends > 30° (bad desk posture)"
    case BackNotStraight => "Back isn’t " + ("straight " + "(bad desk posture)")
    case GoodDeskImage => "Good desk posture detected"
    case GoodDeskVideo => "Good desk posture"
  }

  /** The message of each of a route's two rules, and the message reported when neither fires. */
  datatype RuleTable = RuleTable(first: Message, second: Message, fallback: Message)

  function Table(route: Route): RuleTable
  {
    match route
    case SquatImage => RuleTable(KneeBeyondToeImage, BackAngleImage, GoodSquatImage)
    case SquatVideo => RuleTable(KneeBeyondToe, BackAngleLow, GoodPosture)
    case DeskImage => RuleTable(NeckBends, BackNotStraight, GoodDeskImage)
    case DeskVideo => RuleTable(NeckBends, BackNotStraight, GoodDeskVideo)
  }

  /** The back angle (squat) below which the back rule fires. */
  const BackAngleLimit: real := 150.0
  /** The neck angle (desk) below which the neck rule fires. */
  const NeckAngleLimit: real := 30.0
  /** The shoulder angle (desk) below which the straight-back rule fires. */
  const ShoulderAngleLimit: real := 150.0

  /**
   * What one analysis measures on one set of landmarks: the two angles in the order the
   * reply lists them (knee and back for a squat, shoulder and neck at a desk), and whether
   * each of the two rules fires, in rule order (knee then back, neck then shoulder).
   */
  datatype Measurement = Measurement(firstAngle: real, secondAngle: real, firstFires: bool, secondFires: bool)

  /** The squat analysis: knee and back angles, the knee-beyond-toe rule, then the back-angle rule. */
  function SquatMeasure(lm: Landmarks, bearing: Bearing): (m: Measurement)
    ensures 0.0 <= m.firstAngle <= 180.0 && 0.0 <= m.secondAngle <= 180.0
    ensures m.firstAngle == JointAngle(bearing, lm.rightHip, lm.rightKnee, lm.rightAnkle)
    ensures m.secondAngle == JointAngle(bearing, lm.rightShoulder, lm.rightHip, lm.rightKnee)
    ensures m.firstFires <==> lm.rightKnee.x > lm.rightAnkle.x
    ensures m.secondFires <==> m.secondAngle < BackAngleLimit
  {
    var knee := JointAngle(bearing, lm.rightHip, lm.rightKnee, lm.rightAnkle);
    var back := JointAngle(bearing, lm.rightShoulder, lm.rightHip, lm.rightKnee);
    Measurement(knee, back, lm.rightKnee.x > lm.rightAnkle.x, back < BackAngleLimit)
  }

  /**
   * The desk analysis: shoulder and neck angles, each measured against the vertical through
   * a shoulder, then the neck rule and the straight-back rule.
   */
  function DeskMeasure(lm: Landmarks, bearing: Bearing): (m: Measurement)
    ensures 0.0 <= m.firstAngle <= 180.0 && 0.0 <= m.secondAngle <= 180.0
    ensures m.firstAngle == JointAngle(bearing, lm.leftShoulder, lm.rightShoulder, Point(lm.rightShoulder.x, 0.0))
    ensures m.secondAngle == JointAngle(bearing, lm.leftEar, lm.leftShoulder, Point(lm.leftShoulder.x, 0.0))
    ensures m.firstFires <==> m.secondAngle < NeckAngleLimit
    ensures m.secondFires <==> m.firstAngle < ShoulderAngleLimit
  {
    var shoulder := JointAngle(bearing, lm.leftShoulder, lm.rightShoulder, Point(lm.rightShoulder.x, 0.0));
    var neck := JointAngle(bearing, lm.leftEar, lm.leftShoulder, Point(lm.leftShoulder.x, 0.0));
    Measurement(shoulder, neck, neck < NeckAngleLimit, shoulder < ShoulderAngleLimit)
  }

  /** The analysis of a mode. */
  function Measure(mode: Mode, lm: Landmarks, bearing: Bearing): Measurement
  {
    match mode
    case Squat => SquatMeasure(lm, bearing)
    case Desk => DeskMeasure(lm, bearing)
  }

  /** The messages of the rules that fired, in rule order: the list a handler has built before its fallback. */
  function Fired(t: RuleTable, firstFires: bool, secondFires: bool): seq<Message>
  {
    (if firstFires then [t.first] else []) + (if secondFires then [t.second] else [])
  }

  /** The list a table's handler reports: the messages of the rules that fired, or its fallback alone. */
  function Respond(t: RuleTable, firstFires: bool, secondFires: bool): (r: seq<Message>)
    ensures !firstFires && !secondFires ==> r == [t.fallback]
    ensures !(!firstFires && !secondFires) ==> forall m :: m in r ==> m == t.first || m == t.second
    ensures firstFires && !secondFires ==> r == [t.first]
    ensures !firstFires && secondFires ==> r == [t.second]
    ensures firstFires && secondFires ==> r == [t.first, t.second]
    ensures 1 <= |r| <= 2
  {
    var fired := Fired(t, firstFires, secondFires);
    if fired == [] then [t.fallback] else fired
  }

  /**
   * The feedback list a route reports: the messages of the rules that fired, or the
   * fallback message alone when none did.
   */
  function Feedback(route: Route, firstFires: bool, secondFires: bool): (r: seq<Message>)
    ensures Table(route).first in r <==> firstFires
    ensures Table(route).second in r <==> secondFires
    ensures Table(route).fallback in r <==> !firstFires && !secondFires
    ensures r == [Table(route).fallback] <==> !firstFires && !secondFires
    ensures firstFires && !secondFires ==> r == [Table(route).first]
    ensures !firstFires && secondFires ==> r == [Table(route).second]
    ensures firstFires && secondFires ==> r == [Table(route).first, Table(route).second]
    ensures 1 <= |r| <= 2
    ensures forall m :: m in r ==> m in {Table(route).first, Table(route).second, Table(route).fallback}
  {
    Respond(Table(route), firstFires, secondFires)
  }
}
