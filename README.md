# Posture detection: rule table, video sampling and result screens

A Dafny model of the decision logic of a small posture-detection web application.

The Flask backend (`backend/app.py`) has four analysis routes:
- `/analyze` and `/analyze_desk` take one image;
- `/analyze_video` and `/analyze_desk_video` take one video.

An image route finds the body's landmarks and measures two joint angles. It applies two threshold rules and replies with the angles and a feedback list: the messages of the rules that fired, or a fallback message when none did. A video route reads frames until the capture is exhausted:
- it counts every frame and analyses every 10th one;
- it skips analysed frames in which no person is found;
- it records one entry per analysed frame and counts the bad ones;
- it replies with a summary and the per-frame records.

The React frontend (`frontend/src/App.js`) has two detection screens, squat and desk. Each screen has an image form and a video form. A form holds:
- the selected file;
- the last result;
- a loading flag.

Submitting a form posts the file and holds the parsed reply, or a connection error. The screen shows the error text alone, or the angles with one badge per feedback message. A badge is green when the message's lower-cased text contains "good", red otherwise.

Modules:
- `Angles`: the fold of a raw angle into [0, 180].
- `Rules`: landmarks, the two measurements per mode, the feedback messages and the rule tables.
- `Replies`: the JSON bodies and statuses.
- `ImageRoutes`: the two image routes, including their error returns.
- `VideoRoutes`: the frame loop as a method, proved against a recursive specification, and the lemmas about that specification.
- `JsText`: `toLowerCase` and `includes`.
- `FeedbackBadges`: `FeedbackBadge`.
- `UploadForms`: the form state, as classes whose handlers update their fields.
- `ResultView`: the render choice.
- `MessageClasses`: how the badge rule classifies the backend's fixed messages.
- `CrossChecks`: what the frontend shows for each backend reply.

## Modelling choices
- **Angles.** The angle difference `np.arctan2(...) - np.arctan2(...)` in degrees is a function parameter, `Bearing`, whose values lie in [-360, 360] as a difference of two bearings in [-180, 180] must. Only the fold that follows it is modelled.
- **Rounding.** `round(…, 2)` is not modelled. Angles and the percentage are exact reals.
- **Videos.** A video is the sequence of frames read before the first failed read. Each frame is `None` when pose estimation finds no person in it, otherwise its landmarks.
- **Missing fields.** A missing `image` or `video` form field is `None`.
- **Image uploads.** An uploaded image is either `Unreadable` or a decoded picture, with or without a person in it.
- **Messages.** Feedback messages are the datatype `Message`. `Text` gives each message's words exactly as the backend writes them. A text containing a "g" is written as pieces joined at spaces; the string is the same.
- **Network.** A request's outcome is an input: either the parsed body, or a failure (a fetch or JSON error).
- **Missing JavaScript fields.** A field the body lacks reads as `undefined`, modelled as `None`.
- **Error text.** A result shows its error only when `error` is a non-empty string, as JavaScript truthiness demands.
- **Video form with a non-video body.** The video form throws while rendering when it holds a body without `summary`. That case is the view `Broken`.
- **HTTP status.** The frontend never reads the status. A 200 "No person detected" reply renders exactly like a 400 error.
- **Desk neck rule.** The rule fires when `neck_angle < 30`, although its message reads "Neck bends > 30°". The model follows the code.

## Model

| member | source | states |
|---|---|---|
| Angles.JointAngle | backend/app.py:12-21 | given a bearing difference in [-360, 360], the joint angle lies in [0, 180] |
| Angles.CalculateAngle | backend/app.py:18-21 | the result is at most 180; it is non-negative exactly when the raw magnitude is at most 360; it equals the magnitude when that is at most 180, and 360 minus the magnitude otherwise |
| Rules.SquatMeasure | backend/app.py:44-55 | both angles are folded joint angles in [0, 180], the knee angle at the right knee and the back angle at the right hip; the knee rule fires iff knee.x > ankle.x, the back rule iff back < 150 |
| Rules.DeskMeasure | backend/app.py:132-143 | both angles are folded joint angles in [0, 180], the shoulder angle at the right shoulder towards (right_shoulder.x, 0) and the neck angle at the left shoulder towards (left_shoulder.x, 0); the neck rule fires iff neck < 30, the straight-back rule iff shoulder < 150 |
| Rules.Respond | backend/app.py:52-58 | the fallback alone when no rule fired; exactly the one message of the rule that fired when only one did; both in rule order when both fired; one or two entries |
| Rules.Feedback | backend/app.py:52-58 | the first rule's message is present iff that rule fired, likewise the second; the list is exactly [fallback] iff neither fired; exactly [first] or [second] when only that rule fired; both fired gives [first, second]; 1 to 2 entries, all from the route's table |
| Replies.Texts | backend/app.py:59 | the JSON list has one text per message, in order, each the message's words |
| ImageRoutes.Analyze | backend/app.py:27-58 | no `image` field gives 400 "No image uploaded"; an undecodable image gives 400 "Invalid image"; no person gives 200 "No person detected"; the body is an error iff there is no person; the status is 200 iff the image decoded; otherwise the knee and back angles, and a feedback list equal to the squat image table's `Feedback` for the squat rules (so knee before back, the fallback alone iff neither fired) |
| ImageRoutes.AnalyzeDesk | backend/app.py:115-147 | the same three error replies; otherwise the shoulder and neck angles, and a feedback list equal to the desk image table's `Feedback` for the desk rules: neck message iff neck < 30, then straight-back message iff shoulder < 150, the fallback alone iff neither |
| VideoRoutes.FrameRecordOf | backend/app.py:93-105 | the record carries the frame number given and the mode's two measured angles; its feedback is the video table's `Feedback` for the mode's rules; it is a squat record iff the mode is squat; it counts as bad iff a rule fired |
| VideoRoutes.Percentage | backend/app.py:111 | 0 when nothing was analysed; otherwise p * analysed == bad * 100; within [0, 100] when bad <= analysed |
| VideoRoutes.SampledAreRecordedFrames | backend/app.py:79-105 | every record names a 1-based frame number that is a multiple of 10, within the video, with a person, and is that frame's analysis |
| VideoRoutes.RecordedFramesAreSampled | backend/app.py:79-105 | every frame numbered a multiple of 10 that has a person has a record |
| VideoRoutes.SampledFramesIncrease | backend/app.py:79-101 | the recorded frame numbers strictly increase |
| VideoRoutes.SampledAtMostATenth | backend/app.py:80-81 | at most one frame in ten is recorded: records <= total / 10 |
| VideoRoutes.BadAtMostAnalyzed | backend/app.py:98-99 | the bad count never exceeds the number of records |
| VideoRoutes.SummaryBounds | backend/app.py:107-112 | total = frame count, analysed = record count, bad <= analysed <= total / 10, percentage in [0, 100] and 0 when nothing was analysed |
| VideoRoutes.SampledStep | backend/app.py:76-105 | reading frame n appends that frame's record exactly when n is a multiple of 10 and the frame has a person |
| VideoRoutes.CountBadStep | backend/app.py:98-99 | appending a record adds one to the bad count exactly when the record is bad |
| VideoRoutes.AnalyzeFrame | backend/app.py:87-105 | the record built is the frame's analysis; the bad flag is set iff a rule fired, iff the record is bad |
| VideoRoutes.SampleFrames | backend/app.py:75-112 | the records are the specification's records and the summary its summary; total = frames read; analysed = records <= total / 10; bad <= analysed; percentage in [0, 100] |
| VideoRoutes.AnalyzeVideo | backend/app.py:61-113 | no `video` field iff the reply is 400 "No video uploaded"; otherwise a video body whose record count equals analysed frames, equal to the specification's reply |
| VideoRoutes.AnalyzeDeskVideo | backend/app.py:149-200 | the same, with the desk rules and messages |
| JsText.LowerChar | frontend/src/App.js:10 | A-Z map to a-z (code + 32); every other character is unchanged |
| JsText.ToLowerCase | frontend/src/App.js:10 | same length; each character lower-cased |
| JsText.IncludesFrom | frontend/src/App.js:10 | true iff the needle occurs at some index at or after `from` |
| JsText.Includes | frontend/src/App.js:10 | true iff the needle occurs at some index |
| FeedbackBadges.IsGoodIff | frontend/src/App.js:10 | a message is good iff "good" occurs in it at some index, ignoring ASCII case |
| FeedbackBadges.GoodAtSpells | frontend/src/App.js:10 | where "good" occurs, its letters start "g", "o", "o" |
| FeedbackBadges.GoodNeedsGoo | frontend/src/App.js:10 | a good message has a "g" followed by two "o"s somewhere |
| FeedbackBadges.BadgeList | frontend/src/App.js:9-27 | one badge per message, in list order, carrying the message; green iff the message is good |
| FeedbackBadges.Badges | frontend/src/App.js:5-9 | no badges when the list is absent; otherwise the badge list of the messages |
| UploadForms.Settled | frontend/src/App.js:124-128 | a delivered reply is held as is; a failure holds {error: "Failed to connect to backend."} |
| UploadForms.UploadPanel.constructor | frontend/src/App.js:91-97 | nothing selected, no result, not loading |
| UploadForms.UploadPanel.Select | frontend/src/App.js:105-108 | the picked file replaces the selection; the result is cleared; loading is untouched |
| UploadForms.UploadPanel.Begin | frontend/src/App.js:110-118 | with nothing selected the result and loading are untouched and no request is sent; otherwise loading is set, the result cleared and the file posted under the form's field to its URL |
| UploadForms.UploadPanel.Settle | frontend/src/App.js:119-129 | the result becomes the settled outcome; loading ends false; the selection is untouched |
| UploadForms.UploadPanel.Submit | frontend/src/App.js:110-130 | a whole round: nothing changes without a selection; otherwise one request, then the result is the reply or the connection error, and loading is false |
| UploadForms.DetectionScreen.constructor | frontend/src/App.js:90-97 | both forms start empty, wired to the mode's image and video endpoints and fields |
| UploadForms.DetectionScreen.HandleImageChange | frontend/src/App.js:391-394 | the image form's selection is replaced and its result cleared; the video form is unchanged |
| UploadForms.DetectionScreen.HandleSubmit | frontend/src/App.js:396-416 | a submit round on the image form against the mode's image endpoint (`/analyze` or `/analyze_desk`); the video form is unchanged |
| UploadForms.DetectionScreen.HandleVideoChange | frontend/src/App.js:133-136 | the video form's selection is replaced and its result cleared; the image form is unchanged |
| UploadForms.DetectionScreen.HandleVideoSubmit | frontend/src/App.js:138-158 | a submit round on the video form against the mode's video endpoint; the image form is unchanged |
| ResultView.RenderImageResult | frontend/src/App.js:222-236 | nothing shown without a result; the error text alone iff the result has a truthy error; otherwise the mode's two angle fields and the badges of its feedback field |
| ResultView.FrameRows | frontend/src/App.js:286-291 | one row per record, in order, with its frame number, its two angle fields and its badges |
| ResultView.RenderVideoResult | frontend/src/App.js:270-297 | nothing without a result; the error alone iff a truthy error; the summary and rows iff a video body; `Broken` iff a body that is neither |
| MessageClasses.StartsWithGoodIsGood | frontend/src/App.js:10 | a message starting with "Good" is classified good |
| MessageClasses.FallbackIsGood | backend/app.py:57-58 | every route's fallback message is classified good by the badge rule |
| MessageClasses.NoGooIsBad | frontend/src/App.js:10 | a message with no "g", "o", "o" in it, in any case, is classified bad |
| MessageClasses.NoGooWithoutG | frontend/src/App.js:10 | a message with no "g" or "G" has no "g", "o", "o" |
| MessageClasses.NoGooJoin | frontend/src/App.js:10 | joining two such pieces after a space creates no "g", "o", "o" |
| MessageClasses.ThreePiecesAreBad | frontend/src/App.js:10 | three such pieces joined at spaces make a message classified bad |
| MessageClasses.KneeBeyondToeImageIsBad | backend/app.py:54 | "Knee goes beyond toe (bad squat posture)" is classified bad |
| MessageClasses.BackAngleImageIsBad | backend/app.py:56 | "Back angle < 150° (bad squat posture)" is classified bad |
| MessageClasses.KneeBeyondToeIsBad | backend/app.py:95 | "Knee goes beyond toe" is classified bad |
| MessageClasses.BackAngleLowIsBad | backend/app.py:97 | "Back angle < 150°" is classified bad |
| MessageClasses.NeckBendsIsBad | backend/app.py:142 | "Neck bends > 30° (bad desk posture)" is classified bad |
| MessageClasses.BackNotStraightIsBad | backend/app.py:144 | "Back isn’t straight (bad desk posture)" is classified bad |
| MessageClasses.RuleMessagesAreBad | backend/app.py:52-56 | both rule messages of every route are classified bad |
| MessageClasses.BadgesOfFeedback | frontend/src/App.js:9-10 | a list that is a good message alone gives green badges; a list of bad messages gives red ones |
| MessageClasses.BadgesOfTable | frontend/src/App.js:9-10 | under a table with a good fallback and bad rule messages, every badge is green iff no rule fired |
| MessageClasses.BadgesAgreeWithRules | backend/app.py:52-58 | for every route, every badge of its feedback is green iff no rule fired, and red otherwise |
| CrossChecks.ImageReplyRendersIntact | frontend/src/App.js:222-236 | an image reply shows the error text iff the backend found no person; otherwise both angles and one badge per message, all green iff no rule fired |
| CrossChecks.VideoReplyRendersIntact | frontend/src/App.js:270-297 | a video reply shows the summary with one row per analysed frame; every frame number is a multiple of 10 with its first angle present, and the numbers increase |
| CrossChecks.FailureShowsErrorOnly | frontend/src/App.js:126-128 | after a failed request either form shows "Failed to connect to backend." alone |

## Left out
- Pose estimation, image decoding and colour conversion, `VideoCapture` and temporary files (backend/app.py:32-39, 66-76, 119-127, 153-157). These are foreign library calls. Their results are inputs: a `Picture` or a `Video`.
- `np.arctan2` and the radians-to-degrees scaling (backend/app.py:14-17). This is floating-point numerics. The angle difference is the `Bearing` parameter.
- `round(..., 2)` (backend/app.py:59, 102-103, 111, 147, 189-190, 198). This is floating-point rounding. Angles and the percentage are exact.
- An unreadable video file. The capture yields no frames, which is the empty `Video`.
- Flask routing, CORS and JSON encoding. The `/` route that reports the backend is running.
- `fetch`, `FormData` and multipart encoding. Response parsing and the request's timing: the outcome is a parameter.
- Async interleaving: a new selection made while a request is in flight. Each submit is modelled as one uninterrupted round.
- The webcam `setInterval` capture loop and its base64-to-blob conversion (frontend/src/App.js:161-188, 447-474). These are timer- and concurrency-driven.
- JSX markup, styling, icons, `URL.createObjectURL`, the home screen and screen switching. These are presentation only.
- The unused `right_ear` landmark (backend/app.py:135, 177) and the unused `frame_count` counter (backend/app.py:70). `right_ear` is a `Landmarks` field that no rule reads; the `frame_count` counter is never read and is not modelled.
- The frontend is modelled only on reply bodies this backend produces: feedback lists hold the backend's ten fixed messages (as `Message` values whose `Text` is sent), not arbitrary strings, although App.js renders any string list.
- JsText.LowerChar: maps only ASCII A-Z. JavaScript's `toLowerCase` also lower-cases other scripts. No backend message needs anything else.
