/**
 * The frontend's upload forms. Each detection screen (desk, and the squat screen of `App`)
 * holds one image form and one video form; a form's state is the selected file, the held
 * result (the parsed reply, or `null`) and the loading flag. The network round trip is not
 * modelled: its outcome is passed in.
 */
module UploadForms {

  import opened Wrappers
  import opened Rules
  import opened Replies

  const BackendOrigin := "https://internshipassignment-1.onrender.com"

  /** The endpoint the image form of a screen posts to. */
  function ImageUrl(mode: Mode): string
  {
    match mode
    case Squat => BackendOrigin + "/analyze"
    case Desk => BackendOrigin + "/analyze_desk"
  }

  /** The endpoint the video form of a screen posts to. */
  function VideoUrl(mode: Mode): string
  {
    match mode
    case Squat => BackendOrigin + "/analyze_video"
    case Desk => BackendOrigin + "/analyze_desk_video"
  }

  /** A file the user picked; its contents are not modelled. */
  datatype FileRef = FileRef(name: string)

  /** A multipart POST carrying one file under one form field. */
  datatype Request = Request(url: string, field: string, file: FileRef)

  /** How a request ended: a parsed JSON body, or a transport or parse failure. */
  datatype Outcome = Delivered(data: Body) | Failed

  const ConnectionError := "Failed to connect to backend."

  /** The result a form holds once its request has ended. */
  function Settled(outcome: Outcome): (result: Body)
    ensures outcome.Delivered? ==> result == outcome.data
    ensures outcome.Failed? ==> result == ErrorBody(ConnectionError)
  {
    match outcome
    case Delivered(data) => data
    case Failed => ErrorBody(ConnectionError)
  }

  /** One upload form: its file selection, held result and loading flag. */
  class UploadPanel {
    const url: string
    const field: string
    var selected: Option<FileRef>
    var result: Option<Body>
    var loading: bool

    constructor (url: string, field: string)
      ensures this.url == url && this.field == field
      ensures selected.None? && result.None? && !loading
    {
      this.url := url;
      this.field := field;
      selected := None;
      result := None;
      loading := false;
    }

    /** The change handler: the picked file (or none) replaces the selection and the held result is cleared. */
    method Select(file: Option<FileRef>)
      modifies this
      ensures selected == file && result.None? && loading == old(loading)
    {
      selected := file;
      result := None;
    }

    /**
     * The submit handler up to its request: with no file selected it returns at once and
     * changes nothing; otherwise it sets loading, clears the result and issues the request.
     */
    method Begin() returns (request: Option<Request>)
      modifies this
      ensures selected == old(selected)
      ensures old(selected).None? ==> request.None? && result == old(result) && loading == old(loading)
      ensures old(selected).Some? ==> request == Some(Request(url, field, old(selected).value)) && result.None? && loading
    {
      if selected.None? {
        return None;
      }
      loading := true;
      result := None;
      request := Some(Request(url, field, selected.value));
    }

    /** The submit handler after its request: it holds the reply, or the connection error, and clears loading. */
    method Settle(outcome: Outcome)
      modifies this
      ensures selected == old(selected)
      ensures result == Some(Settled(outcome)) && !loading
    {
      match outcome {
        case Delivered(data) =>
          result := Some(data);
        case Failed =>
          result := Some(ErrorBody(ConnectionError));
      }
      loading := false;
    }

    /** One whole submit round. */
    method Submit(outcome: Outcome) returns (request: Option<Request>)
      modifies this
      ensures selected == old(selected)
      ensures old(selected).None? ==> request.None? && result == old(result) && loading == old(loading)
      ensures old(selected).Some? ==>
        request == Some(Request(url, field, old(selected).value)) && result == Some(Settled(outcome)) && !loading
    {
      request := Begin();
      if request.Some? {
        Settle(outcome);
      }
    }
  }

  /** A detection screen's two forms, wired to the endpoints and field names of its mode. */
  class DetectionScreen {
    const mode: Mode
    const image: UploadPanel
    const video: UploadPanel

    ghost predicate Valid()
      reads this
    {
      && image != video
      && image.url == ImageUrl(mode) && image.field == "image"
      && video.url == VideoUrl(mode) && video.field == "video"
    }

    constructor (mode: Mode)
      ensures Valid() && this.mode == mode && fresh(image) && fresh(video)
      ensures image.selected.None? && image.result.None? && !image.loading
      ensures video.selected.None? && video.result.None? && !video.loading
    {
      this.mode := mode;
      image := new UploadPanel(ImageUrl(mode), "image");
      video := new UploadPanel(VideoUrl(mode), "video");
    }

    /** `handleImageChange`: only the image form changes. */
    method HandleImageChange(file: Option<FileRef>)
      requires Valid()
      modifies image
      ensures image.selected == file && image.result.None? && image.loading == old(image.loading)
      ensures Valid()
      ensures unchanged(video)
    {
      image.Select(file);
    }

    /** `handleSubmit`: posts the selected image under field `image` to the mode's image endpoint. */
    method HandleSubmit(outcome: Outcome) returns (request: Option<Request>)
      requires Valid()
      modifies image
      ensures image.selected == old(image.selected)
      ensures old(image.selected).None? ==> request.None? && image.result == old(image.result) && image.loading == old(image.loading)
      ensures old(image.selected).Some? ==>
        && request == Some(Request(ImageUrl(mode), "image", old(image.selected).value))
        && image.result == Some(Settled(outcome)) && !image.loading
      ensures Valid()
      ensures unchanged(video)
    {
      request := image.Submit(outcome);
    }

    /** `handleVideoChange`: only the video form changes. */
    method HandleVideoChange(file: Option<FileRef>)
      requires Valid()
      modifies video
      ensures video.selected == file && video.result.None? && video.loading == old(video.loading)
      ensures Valid()
      ensures unchanged(image)
    {
      video.Select(file);
    }

    /** `handleVideoSubmit`: posts the selected video under field `video` to the mode's video endpoint. */
    method HandleVideoSubmit(outcome: Outcome) returns (request: Option<Request>)
      requires Valid()
      modifies video
      ensures video.selected == old(video.selected)
      ensures old(video.selected).None? ==> request.None? && video.result == old(video.result) && video.loading == old(video.loading)
      ensures old(video.selected).Some? ==>
        && request == Some(Request(VideoUrl(mode), "video", old(video.selected).value))
        && video.result == Some(Settled(outcome)) && !video.loading
      ensures Valid()
      ensures unchanged(image)
    {
      request := video.Submit(outcome);
    }
  }
}
