/**
 * What a detection screen shows for a form's held result: nothing, the error text alone,
 * or the measurements with their badges (image form) or the summary and per-frame rows
 * (video form). JavaScript reads fields by name, so a field the body lacks is `undefined`,
 * modelled as `None`.
 */
module ResultView {

  import opened Wrappers
  import opened Rules
  import opened Replies
  import opened FeedbackBadges

  /** One per-frame row of a video result. */
  datatype FrameRow = FrameRow(frame: nat, first: Option<real>, second: Option<real>, badges: seq<Badge>)

  datatype View =
    | Hidden
    | ErrorText(text: string)
    | Measurements(first: Option<real>, second: Option<real>, badges: seq<Badge>)
    | VideoView(summary: Summary, rows: seq<FrameRow>)
    /** Rendering throws: a video result without `summary` or `frames`. */
    | Broken

  /** `result.error` is truthy: present and not the empty string. */
  predicate ShowsError(b: Body)
  {
    b.ErrorBody? && b.error != ""
  }

  /** The two angle fields a screen reads from an image body: knee and back, or shoulder and neck. */
  function AngleFields(mode: Mode, b: Body): (Option<real>, Option<real>)
  {
    match (mode, b)
    case (Squat, SquatBody(knee, back, _)) => (Some(knee), Some(back))
    case (Desk, DeskBody(shoulder, neck, _)) => (Some(shoulder), Some(neck))
    case _ => (None, None)
  }

  /** The `feedback` field of a body. */
  function FeedbackField(b: Body): Option<seq<string>>
  {
    match b
    case SquatBody(_, _, feedback) => Some(Texts(feedback))
    case DeskBody(_, _, feedback) => Some(Texts(feedback))
    case _ => None
  }

  /** The result panel of an image form. */
  function RenderImageResult(mode: Mode, slot: Option<Body>): (v: View)
    ensures slot.None? <==> v == Hidden
    ensures v.ErrorText? <==> slot.Some? && ShowsError(slot.value)
    ensures v.ErrorText? ==> v.text == slot.value.error
    ensures slot.Some? && !ShowsError(slot.value) ==>
      && v.Measurements?
      && (v.first, v.second) == AngleFields(mode, slot.value)
      && v.badges == Badges(FeedbackField(slot.value))
  {
    match slot
    case None => Hidden
    case Some(b) =>
      if ShowsError(b) then ErrorText(b.error)
      else
        var (first, second) := AngleFields(mode, b);
        Measurements(first, second, Badges(FeedbackField(b)))
  }

  /** The angle fields a screen reads from one frame record. */
  function FrameAngles(mode: Mode, r: FrameRecord): (Option<real>, Option<real>)
  {
    match (mode, r)
    case (Squat, SquatFrame(_, knee, back, _)) => (Some(knee), Some(back))
    case (Desk, DeskFrame(_, shoulder, neck, _)) => (Some(shoulder), Some(neck))
    case _ => (None, None)
  }

  /** The per-frame rows: one per record, in order. */
  function FrameRows(mode: Mode, frames: seq<FrameRecord>): (rows: seq<FrameRow>)
    ensures |rows| == |frames|
    ensures forall i :: 0 <= i < |frames| ==>
      && rows[i].frame == frames[i].frame
      && (rows[i].first, rows[i].second) == FrameAngles(mode, frames[i])
      && rows[i].badges == Badges(Some(Texts(frames[i].feedback)))
  {
    if frames == [] then []
    else
      var (first, second) := FrameAngles(mode, frames[0]);
      [FrameRow(frames[0].frame, first, second, Badges(Some(Texts(frames[0].feedback))))] + FrameRows(mode, frames[1..])
  }

  /** The result panel of a video form. */
  function RenderVideoResult(mode: Mode, slot: Option<Body>): (v: View)
    ensures slot.None? <==> v == Hidden
    ensures v.ErrorText? <==> slot.Some? && ShowsError(slot.value)
    ensures v.ErrorText? ==> v.text == slot.value.error
    ensures v.VideoView? <==> slot.Some? && slot.value.VideoBody?
    ensures v.VideoView? ==> v.summary == slot.value.summary && v.rows == FrameRows(mode, slot.value.frames)
    ensures v == Broken <==> slot.Some? && !ShowsError(slot.value) && !slot.value.VideoBody?
  {
    match slot
    case None => Hidden
    case Some(b) =>
      if ShowsError(b) then ErrorText(b.error)
      else if b.VideoBody? then VideoView(b.summary, FrameRows(mode, b.frames))
      else Broken
  }
}
