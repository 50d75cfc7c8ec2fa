/**
 * The backend's two video routes, `/analyze_video` (squat) and `/analyze_desk_video` (desk).
 *
 * A video is the sequence of frames the capture yields before its first failed read; each
 * frame is what pose estimation would find in it (`None` when no person is detected). Both
 * routes run the same loop: count every frame, analyse every 10th one, skip analysed frames
 * without a person, record the rest, count those on which a rule fired, and summarise.
 */
module VideoRoutes {

  import opened Wrappers
  import opened Angles
  import opened Rules
  import opened Replies

  type Video = seq<Option<Landmarks>>

  /** Only frames whose 1-based number is a multiple of this are analysed. */
  const SampleEvery: nat := 10

  /** The record a video route appends for the analysed frame numbered `frame`. */
  function FrameRecordOf(mode: Mode, lm: Landmarks, bearing: Bearing, frame: nat): (r: FrameRecord)
    ensures r.frame == frame
    ensures mode == Squat <==> r.SquatFrame?
    ensures var m := Measure(mode, lm, bearing);
      && r.feedback == Feedback(VideoRoute(mode), m.firstFires, m.secondFires)
      && (r.SquatFrame? ==> r.kneeAngle == m.firstAngle && r.backAngle == m.secondAngle)
      && (r.DeskFrame? ==> r.shoulderAngle == m.firstAngle && r.neckAngle == m.secondAngle)
    ensures IsBad(mode, r) <==> Measure(mode, lm, bearing).firstFires || Measure(mode, lm, bearing).secondFires
  {
    var m := Measure(mode, lm, bearing);
    var feedback := Feedback(VideoRoute(mode), m.firstFires, m.secondFires);
    match mode
    case Squat => SquatFrame(frame, m.firstAngle, m.secondAngle, feedback)
    case Desk => DeskFrame(frame, m.firstAngle, m.secondAngle, feedback)
  }

  /** A record counts as bad posture when its feedback is not the mode's fallback alone. */
  predicate IsBad(mode: Mode, r: FrameRecord)
  {
    r.feedback != [Table(VideoRoute(mode)).fallback]
  }

  /** True when the frame numbered `frame` (1-based) is analysed and recorded. */
  predicate Recorded(video: Video, frame: int)
  {
    1 <= frame <= |video| && frame % SampleEvery == 0 && video[frame - 1].Some?
  }

  /** The records a video route produces: the specification of the loop in `SampleFrames`. */
  function Sampled(mode: Mode, video: Video, bearing: Bearing): seq<FrameRecord>
  {
    if video == [] then []
    else
      var n := |video|;
      var earlier := Sampled(mode, video[..n - 1], bearing);
      if n % SampleEvery == 0 && video[n - 1].Some? then
        earlier + [FrameRecordOf(mode, video[n - 1].value, bearing, n)]
      else
        earlier
  }

  /** The number of bad-posture records. */
  function CountBad(mode: Mode, records: seq<FrameRecord>): nat
  {
    if records == [] then 0
    else CountBad(mode, records[..|records| - 1]) + (if IsBad(mode, records[|records| - 1]) then 1 else 0)
  }

  /** `bad_posture_percentage` before rounding: 0 when nothing was analysed. */
  function Percentage(bad: nat, analyzed: nat): (p: real)
    ensures analyzed == 0 ==> p == 0.0
    ensures 0 < analyzed ==> p * analyzed as real == bad as real * 100.0
    ensures bad <= analyzed ==> 0.0 <= p <= 100.0
  {
    if analyzed == 0 then 0.0
    else
      var p := bad as real / analyzed as real * 100.0;
      assert p * analyzed as real == bad as real * 100.0;
      p
  }

  /** The summary a video route reports for a video. */
  function SummaryOf(mode: Mode, video: Video, bearing: Bearing): Summary
  {
    var records := Sampled(mode, video, bearing);
    var bad := CountBad(mode, records);
    Summary(|video|, |records|, bad, Percentage(bad, |records|))
  }

  /** The reply of the video route of `mode` to an upload (`None` when the `video` field is absent). */
  function VideoReplyOf(mode: Mode, upload: Option<Video>, bearing: Bearing): Reply
  {
    match upload
    case None => Reply(BadRequest, ErrorBody(NoVideoUploaded))
    case Some(video) => Reply(Ok, VideoBody(SummaryOf(mode, video, bearing), Sampled(mode, video, bearing)))
  }

  // ---- Properties of the specification ----

  /** Record `r` is the analysis of the frame it names, and that frame is recorded. */
  predicate RecordsFrame(mode: Mode, video: Video, bearing: Bearing, r: FrameRecord)
  {
    Recorded(video, r.frame) && r == FrameRecordOf(mode, video[r.frame - 1].value, bearing, r.frame)
  }

  /** Every record stands for a recorded frame and is the analysis of that frame. */
  lemma {:induction false} SampledAreRecordedFrames(mode: Mode, video: Video, bearing: Bearing)
    ensures forall r :: r in Sampled(mode, video, bearing) ==> RecordsFrame(mode, video, bearing, r)
  {
    if video != [] {
      var n := |video|;
      var prefix := video[..n - 1];
      SampledAreRecordedFrames(mode, prefix, bearing);
      forall r | r in Sampled(mode, prefix, bearing) ensures RecordsFrame(mode, video, bearing, r) {
        assert RecordsFrame(mode, prefix, bearing, r);
        assert video[r.frame - 1] == prefix[r.frame - 1];
      }
    }
  }

  /** Every recorded frame has a record: the records are exactly the sampled frames with a person. */
  lemma {:induction false} RecordedFramesAreSampled(mode: Mode, video: Video, bearing: Bearing)
    ensures forall f :: Recorded(video, f) ==> exists r :: r in Sampled(mode, video, bearing) && r.frame == f
  {
    if video != [] {
      var n := |video|;
      var prefix := video[..n - 1];
      RecordedFramesAreSampled(mode, prefix, bearing);
      var rs := Sampled(mode, video, bearing);
      forall f | Recorded(video, f) ensures exists r :: r in rs && r.frame == f {
        if f < n {
          assert Recorded(prefix, f);
          var r :| r in Sampled(mode, prefix, bearing) && r.frame == f;
          assert r in rs;
        } else {
          assert rs[|rs| - 1].frame == f;
        }
      }
    }
  }

  /** The frame numbers of `records` strictly increase. */
  predicate FramesIncrease(records: seq<FrameRecord>)
  {
    forall i, j :: 0 <= i < j < |records| ==> records[i].frame < records[j].frame
  }

  /** The recorded frame numbers are strictly increasing. */
  lemma {:induction false} SampledFramesIncrease(mode: Mode, video: Video, bearing: Bearing)
    ensures FramesIncrease(Sampled(mode, video, bearing))
  {
    if video != [] {
      var n := |video|;
      var prefix := video[..n - 1];
      var earlier := Sampled(mode, prefix, bearing);
      SampledFramesIncrease(mode, prefix, bearing);
      if n % SampleEvery == 0 && video[n - 1].Some? {
        SampledAreRecordedFrames(mode, prefix, bearing);
        var rs := earlier + [FrameRecordOf(mode, video[n - 1].value, bearing, n)];
        forall i, j | 0 <= i < j < |rs| ensures rs[i].frame < rs[j].frame {
          assert rs[i] == earlier[i] && earlier[i] in earlier;
          assert RecordsFrame(mode, prefix, bearing, earlier[i]);
          if j < |earlier| {
            assert rs[j] == earlier[j];
          }
        }
      }
    }
  }

  /** At most one frame in ten is analysed. */
  lemma {:induction false} SampledAtMostATenth(mode: Mode, video: Video, bearing: Bearing)
    ensures |Sampled(mode, video, bearing)| <= |video| / SampleEvery
  {
    if video != [] {
      var n := |video|;
      SampledAtMostATenth(mode, video[..n - 1], bearing);
      if n % SampleEvery == 0 {
        assert (n - 1) / SampleEvery + 1 == n / SampleEvery;
      } else {
        assert (n - 1) / SampleEvery == n / SampleEvery;
      }
    }
  }

  /** No more frames are bad than were analysed. */
  lemma {:induction false} BadAtMostAnalyzed(mode: Mode, records: seq<FrameRecord>)
    ensures CountBad(mode, records) <= |records|
  {
    if records != [] {
      BadAtMostAnalyzed(mode, records[..|records| - 1]);
    }
  }

  /** The summary's invariants: the frame counts nest, and the percentage lies in [0, 100]. */
  lemma SummaryBounds(mode: Mode, video: Video, bearing: Bearing)
    ensures var s := SummaryOf(mode, video, bearing);
      && s.totalFrames == |video|
      && s.analyzedFrames == |Sampled(mode, video, bearing)|
      && s.badPostureFrames <= s.analyzedFrames <= s.totalFrames / SampleEvery
      && 0.0 <= s.badPosturePercentage <= 100.0
      && (s.analyzedFrames == 0 ==> s.badPosturePercentage == 0.0)
  {
    SampledAtMostATenth(mode, video, bearing);
    BadAtMostAnalyzed(mode, Sampled(mode, video, bearing));
  }

  // ---- The loop ----

  /** One step of the specification: reading frame `n` appends its record, if it has one. */
  lemma SampledStep(mode: Mode, video: Video, bearing: Bearing, n: nat)
    requires 0 < n <= |video|
    ensures Sampled(mode, video[..n], bearing) ==
      Sampled(mode, video[..n - 1], bearing) +
      (if n % SampleEvery == 0 && video[n - 1].Some? then [FrameRecordOf(mode, video[n - 1].value, bearing, n)] else [])
  {
    assert video[..n][..n - 1] == video[..n - 1];
  }

  /** Appending one record adds one to the bad count exactly when that record is bad. */
  lemma CountBadStep(mode: Mode, records: seq<FrameRecord>, r: FrameRecord)
    ensures CountBad(mode, records + [r]) == CountBad(mode, records) + (if IsBad(mode, r) then 1 else 0)
  {
    assert (records + [r])[..|records|] == records;
  }

  /**
   * The body of the frame loop for an analysed frame with a person: apply the two rules,
   * say whether either fired, and build the frame's record.
   */
  method AnalyzeFrame(mode: Mode, lm: Landmarks, bearing: Bearing, frame: nat) returns (record: FrameRecord, bad: bool)
    ensures record == FrameRecordOf(mode, lm, bearing, frame)
    ensures bad <==> Measure(mode, lm, bearing).firstFires || Measure(mode, lm, bearing).secondFires
    ensures bad <==> IsBad(mode, record)
  {
    var m := Measure(mode, lm, bearing);
    var t := Table(VideoRoute(mode));
    var frameFeedback := [];
    if m.firstFires {
      frameFeedback := frameFeedback + [t.first];
    }
    if m.secondFires {
      frameFeedback := frameFeedback + [t.second];
    }
    assert frameFeedback == Fired(t, m.firstFires, m.secondFires);
    bad := frameFeedback != [];
    var feedback := if frameFeedback != [] then frameFeedback else [t.fallback];
    record := match mode
      case Squat => SquatFrame(frame, m.firstAngle, m.secondAngle, feedback)
      case Desk => DeskFrame(frame, m.firstAngle, m.secondAngle, feedback);
  }

  /**
   * The frame loop of both video routes: read frames until the capture is exhausted,
   * counting them all, analysing every 10th, skipping those without a person.
   */
  method SampleFrames(mode: Mode, video: Video, bearing: Bearing) returns (summary: Summary, frames: seq<FrameRecord>)
    ensures frames == Sampled(mode, video, bearing)
    ensures summary == SummaryOf(mode, video, bearing)
    ensures summary.totalFrames == |video|
    ensures summary.analyzedFrames == |frames| <= summary.totalFrames / SampleEvery
    ensures summary.badPostureFrames <= summary.analyzedFrames
    ensures 0.0 <= summary.badPosturePercentage <= 100.0
  {
    var totalFrames: nat := 0;
    var badPostureFrames: nat := 0;
    frames := [];
    while totalFrames < |video|
      invariant totalFrames <= |video|
      invariant frames == Sampled(mode, video[..totalFrames], bearing)
      invariant badPostureFrames == CountBad(mode, frames)
    {
      var frame := video[totalFrames];
      totalFrames := totalFrames + 1;
      SampledStep(mode, video, bearing, totalFrames);
      if totalFrames % SampleEvery != 0 {
        continue;
      }
      if frame.None? {
        continue;
      }
      var record, bad := AnalyzeFrame(mode, frame.value, bearing, totalFrames);
      if bad {
        badPostureFrames := badPostureFrames + 1;
      }
      CountBadStep(mode, frames, record);
      frames := frames + [record];
    }
    assert video[..totalFrames] == video;
    SummaryBounds(mode, video, bearing);
    summary := Summary(totalFrames, |frames|, badPostureFrames, Percentage(badPostureFrames, |frames|));
  }

  /** The route `/analyze_video`: an error without a `video` field, otherwise the summary and the records. */
  method AnalyzeVideo(upload: Option<Video>, bearing: Bearing) returns (reply: Reply)
    ensures reply == VideoReplyOf(Squat, upload, bearing)
    ensures upload.None? <==> reply == Reply(BadRequest, ErrorBody(NoVideoUploaded))
    ensures upload.Some? ==> reply.body.VideoBody? && |reply.body.frames| == reply.body.summary.analyzedFrames
  {
    if upload.None? {
      return Reply(BadRequest, ErrorBody(NoVideoUploaded));
    }
    var summary, frames := SampleFrames(Squat, upload.value, bearing);
    reply := Reply(Ok, VideoBody(summary, frames));
  }

  /** The route `/analyze_desk_video`: the same loop with the desk rules and messages. */
  method AnalyzeDeskVideo(upload: Option<Video>, bearing: Bearing) returns (reply: Reply)
    ensures reply == VideoReplyOf(Desk, upload, bearing)
    ensures upload.None? <==> reply == Reply(BadRequest, ErrorBody(NoVideoUploaded))
    ensures upload.Some? ==> reply.body.VideoBody? && |reply.body.frames| == reply.body.summary.analyzedFrames
  {
    if upload.None? {
      return Reply(BadRequest, ErrorBody(NoVideoUploaded));
    }
    var summary, frames := SampleFrames(Desk, upload.value, bearing);
    reply := Reply(Ok, VideoBody(summary, frames));
  }
}
