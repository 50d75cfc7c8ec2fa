/**
 * The backend's two still-image routes, `/analyze` (squat) and `/analyze_desk` (desk).
 *
 * The upload is what the route gets out of the request's `image` field: absent, a file the
 * image decoder rejects, or a decoded picture in which pose estimation found a person or not.
 */
module ImageRoutes {

  import opened Wrappers
  import opened Angles
  import opened Rules
  import opened Replies

  /** What decoding an uploaded image file and running pose estimation on it yields. */
  datatype Picture = Unreadable | Decoded(person: Option<Landmarks>)

  /** True when the upload reaches the rule table: present, decodable and showing a person. */
  predicate HasPerson(upload: Option<Picture>)
  {
    upload.Some? && upload.value.Decoded? && upload.value.person.Some?
  }

  /** The route `/analyze`. */
  function Analyze(upload: Option<Picture>, bearing: Bearing): (reply: Reply)
    ensures upload.None? ==> reply == Reply(BadRequest, ErrorBody(NoImageUploaded))
    ensures upload == Some(Unreadable) ==> reply == Reply(BadRequest, ErrorBody(InvalidImage))
    ensures upload == Some(Decoded(None)) ==> reply == Reply(Ok, ErrorBody(NoPersonDetected))
    ensures reply.body.ErrorBody? <==> !HasPerson(upload)
    ensures reply.status == Ok <==> upload.Some? && upload.value.Decoded?
    ensures HasPerson(upload) ==>
      var lm := upload.value.person.value;
      && reply.body.SquatBody?
      && reply.body.feedback == Feedback(SquatImage, SquatMeasure(lm, bearing).firstFires, SquatMeasure(lm, bearing).secondFires)
      && reply.body.kneeAngle == JointAngle(bearing, lm.rightHip, lm.rightKnee, lm.rightAnkle)
      && reply.body.backAngle == JointAngle(bearing, lm.rightShoulder, lm.rightHip, lm.rightKnee)
      && (Table(SquatImage).first in reply.body.feedback <==> lm.rightKnee.x > lm.rightAnkle.x)
      && (Table(SquatImage).second in reply.body.feedback <==> reply.body.backAngle < BackAngleLimit)
      && (reply.body.feedback == [Table(SquatImage).fallback] <==>
            lm.rightKnee.x <= lm.rightAnkle.x && BackAngleLimit <= reply.body.backAngle)
  {
    match upload
    case None => Reply(BadRequest, ErrorBody(NoImageUploaded))
    case Some(Unreadable) => Reply(BadRequest, ErrorBody(InvalidImage))
    case Some(Decoded(None)) => Reply(Ok, ErrorBody(NoPersonDetected))
    case Some(Decoded(Some(lm))) =>
      var m := Measure(Squat, lm, bearing);
      Reply(Ok, SquatBody(m.firstAngle, m.secondAngle, Feedback(SquatImage, m.firstFires, m.secondFires)))
  }

  /** The route `/analyze_desk`. */
  function AnalyzeDesk(upload: Option<Picture>, bearing: Bearing): (reply: Reply)
    ensures upload.None? ==> reply == Reply(BadRequest, ErrorBody(NoImageUploaded))
    ensures upload == Some(Unreadable) ==> reply == Reply(BadRequest, ErrorBody(InvalidImage))
    ensures upload == Some(Decoded(None)) ==> reply == Reply(Ok, ErrorBody(NoPersonDetected))
    ensures reply.body.ErrorBody? <==> !HasPerson(upload)
    ensures reply.status == Ok <==> upload.Some? && upload.value.Decoded?
    ensures HasPerson(upload) ==>
      var lm := upload.value.person.value;
      && reply.body.DeskBody?
      && reply.body.feedback == Feedback(DeskImage, DeskMeasure(lm, bearing).firstFires, DeskMeasure(lm, bearing).secondFires)
      && reply.body.shoulderAngle == JointAngle(bearing, lm.leftShoulder, lm.rightShoulder, Point(lm.rightShoulder.x, 0.0))
      && reply.body.neckAngle == JointAngle(bearing, lm.leftEar, lm.leftShoulder, Point(lm.leftShoulder.x, 0.0))
      && (Table(DeskImage).first in reply.body.feedback <==> reply.body.neckAngle < NeckAngleLimit)
      && (Table(DeskImage).second in reply.body.feedback <==> reply.body.shoulderAngle < ShoulderAngleLimit)
      && (reply.body.feedback == [Table(DeskImage).fallback] <==>
            NeckAngleLimit <= reply.body.neckAngle && ShoulderAngleLimit <= reply.body.shoulderAngle)
  {
    match upload
    case None => Reply(BadRequest, ErrorBody(NoImageUploaded))
    case Some(Unreadable) => Reply(BadRequest, ErrorBody(InvalidImage))
    case Some(Decoded(None)) => Reply(Ok, ErrorBody(NoPersonDetected))
    case Some(Decoded(Some(lm))) =>
      var m := Measure(Desk, lm, bearing);
      Reply(Ok, DeskBody(m.firstAngle, m.secondAngle, Feedback(DeskImage, m.firstFires, m.secondFires)))
  }
}
