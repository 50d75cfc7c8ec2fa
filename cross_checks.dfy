/**
 * Properties that join the backend to the frontend: what the frontend shows for the
 * replies the backend produces.
 */
module CrossChecks {

  import opened Wrappers
  import opened Angles
  import opened Rules
  import opened Replies
  import opened ImageRoutes
  import opened VideoRoutes
  import opened JsText
  import opened FeedbackBadges
  import opened UploadForms
  import opened ResultView
  import opened MessageClasses

  /** The image reply of a screen's backend route. */
  function ImageReplyOf(mode: Mode, upload: Option<Picture>, bearing: Bearing): Reply
  {
    match mode
    case Squat => Analyze(upload, bearing)
    case Desk => AnalyzeDesk(upload, bearing)
  }

  /**
   * An image reply from the backend is shown intact: the error text alone when the backend
   * reported one, otherwise both angles and one badge per message, green only for the fallback.
   */
  lemma ImageReplyRendersIntact(mode: Mode, upload: Option<Picture>, bearing: Bearing)
    ensures var reply := ImageReplyOf(mode, upload, bearing);
      var v := RenderImageResult(mode, Some(reply.body));
      && (v.ErrorText? <==> !HasPerson(upload))
      && (HasPerson(upload) ==>
            var m := Measure(mode, upload.value.person.value, bearing);
            var feedback := Feedback(ImageRoute(mode), m.firstFires, m.secondFires);
            && v == Measurements(Some(m.firstAngle), Some(m.secondAngle), BadgeList(Texts(feedback)))
            && forall i :: 0 <= i < |v.badges| ==> (v.badges[i].good <==> !m.firstFires && !m.secondFires))
  {
    if HasPerson(upload) {
      var m := Measure(mode, upload.value.person.value, bearing);
      BadgesAgreeWithRules(ImageRoute(mode), m.firstFires, m.secondFires);
    }
  }

  /**
   * A video reply from the backend is shown with one row per analysed frame, carrying the
   * frame numbers in increasing order, each a multiple of 10.
   */
  lemma VideoReplyRendersIntact(mode: Mode, video: Video, bearing: Bearing)
    ensures var reply := VideoReplyOf(mode, Some(video), bearing);
      var v := RenderVideoResult(mode, Some(reply.body));
      && v.VideoView?
      && |v.rows| == v.summary.analyzedFrames
      && (forall i :: 0 <= i < |v.rows| ==> v.rows[i].frame % SampleEvery == 0 && v.rows[i].first.Some?)
      && (forall i, j :: 0 <= i < j < |v.rows| ==> v.rows[i].frame < v.rows[j].frame)
  {
    var frames := Sampled(mode, video, bearing);
    SampledAreRecordedFrames(mode, video, bearing);
    SampledFramesIncrease(mode, video, bearing);
    var v := RenderVideoResult(mode, Some(VideoReplyOf(mode, Some(video), bearing).body));
    forall i | 0 <= i < |v.rows| ensures v.rows[i].frame % SampleEvery == 0 && v.rows[i].first.Some? {
      assert frames[i] in frames;
      assert RecordsFrame(mode, video, bearing, frames[i]);
    }
  }

  /** A failed submission shows the connection error alone, on either form. */
  lemma FailureShowsErrorOnly(mode: Mode)
    ensures RenderImageResult(mode, Some(Settled(Failed))) == ErrorText(ConnectionError)
    ensures RenderVideoResult(mode, Some(Settled(Failed))) == ErrorText(ConnectionError)
  {
  }
}
