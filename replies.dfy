/** The JSON bodies and HTTP statuses the backend's routes answer with. */
module Replies {

  import opened Rules

  /** One analysed video frame: its 1-based frame number, the two angles and the feedback list. */
  datatype FrameRecord =
    | SquatFrame(frame: nat, kneeAngle: real, backAngle: real, feedback: seq<Message>)
    | DeskFrame(frame: nat, shoulderAngle: real, neckAngle: real, feedback: seq<Message>)

  /** The `summary` object of a video reply. */
  datatype Summary = Summary(totalFrames: nat, analyzedFrames: nat, badPostureFrames: nat, badPosturePercentage: real)

  /** A reply body, as the frontend receives it once the JSON is parsed. */
  datatype Body =
    | ErrorBody(error: string)
    | SquatBody(kneeAngle: real, backAngle: real, feedback: seq<Message>)
    | DeskBody(shoulderAngle: real, neckAngle: real, feedback: seq<Message>)
    | VideoBody(summary: Summary, frames: seq<FrameRecord>)

  datatype Reply = Reply(status: nat, body: Body)

  /** A feedback list as the JSON reply carries it: the text of each message, in order. */
  function Texts(msgs: seq<Message>): (texts: seq<string>)
    ensures |texts| == |msgs|
    ensures forall i :: 0 <= i < |msgs| ==> texts[i] == Text(msgs[i])
  {
    if msgs == [] then [] else [Text(msgs[0])] + Texts(msgs[1..])
  }

  const BadRequest: nat := 400
  const Ok: nat := 200

  const NoImageUploaded := "No image uploaded"
  const InvalidImage := "Invalid image"
  const NoPersonDetected := "No person detected"
  const NoVideoUploaded := "No video uploaded"
}
