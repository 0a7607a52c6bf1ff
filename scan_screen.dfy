/**
 * The Scan screen's `takeAndRecognize`: take one photo with the camera,
 * recognize its text, and either open the Result screen or report the
 * failure, guarded by the `busy` flag. The camera and the text recognizer
 * are external; their answers are inputs of the model.
 */
module ScanScreen {
  import opened Wrappers
  import opened Ui

  /** The options passed to `launchCamera`. */
  datatype CameraOptions = CameraOptions(mediaType: string, cameraType: string, includeBase64: bool, saveToPhotos: bool)

  const PhotoOptions := CameraOptions("photo", "back", false, false)

  /** The recognition script passed to `TextRecognition.recognize`. */
  datatype Script = Latin

  /** One entry of the camera response's `assets` list. */
  datatype Asset = Asset(uri: Option<string>)

  /** The camera response: `didCancel` (absent reads as false) and the optional `assets` list. */
  datatype CameraResponse = CameraResponse(didCancel: bool, assets: Option<seq<Asset>>)

  /**
   * How the awaited `launchCamera` call ends: it resolves with a response,
   * or it rejects with an error, of which only `e?.message` is observed.
   */
  datatype CameraOutcome = Resolved(response: CameraResponse) | Rejected(message: Option<string>)

  /**
   * How the awaited `TextRecognition.recognize` call ends: it resolves with
   * a result whose `result?.text` may be absent, or it rejects.
   */
  datatype OcrOutcome = Recognized(text: Option<string>) | OcrFailed(message: Option<string>)

  /** The calls the attempt makes into the outside world, in order. */
  datatype Effect =
    | LaunchCamera(options: CameraOptions)
    | Recognize(path: string, script: Script)
    | Navigate(screen: Screen)
    | ShowAlert(alert: Alert)

  const ScanFailed := "Scan failed"
  const NoImageCaptured := "No image captured"
  const UnknownError := "Unknown error"

  /** The alert of the `catch` block for an error with message `message`. */
  function FailureAlert(message: Option<string>): (r: Alert)
    ensures r.title == ScanFailed && r.buttons == []
    ensures message.Some? ==> r.message == message.value
    ensures message.None? ==> r.message == UnknownError
  {
    Alert(ScanFailed, message.GetOr(UnknownError), [])
  }

  /**
   * `asset?.uri` of `resp.assets && resp.assets[0]`, kept only when truthy:
   * a missing list, an empty list, a missing uri and the empty uri all give None.
   */
  function CapturedPath(resp: CameraResponse): (r: Option<string>)
    ensures r.Some? <==>
              resp.assets.Some? && |resp.assets.value| > 0 &&
              resp.assets.value[0].uri.Some? && resp.assets.value[0].uri.value != ""
    ensures r.Some? ==> r.value == resp.assets.value[0].uri.value
  {
    match resp.assets
    case None => None
    case Some(assets) =>
      if assets == [] then None
      else match assets[0].uri
        case None => None
        case Some(path) => if path == "" then None else Some(path)
  }

  /** The effects of one attempt and the value of `busy` it leaves. */
  datatype Attempt = Attempt(effects: seq<Effect>, busy: bool)

  /**
   * The reference definition of one call of `takeAndRecognize`, given the
   * flag on entry and the two external answers, by the five ways it can end.
   */
  function Attempted(busy: bool, camera: CameraOutcome, ocr: OcrOutcome): (r: Attempt)
    // a call while busy has no effect at all
    ensures busy ==> r == Attempt([], true)
    // every other call ends with busy false, after exactly one camera launch
    ensures !busy ==> !r.busy && 1 <= |r.effects| <= 3 && r.effects[0] == LaunchCamera(PhotoOptions)
    ensures forall k :: 1 <= k < |r.effects| ==> !r.effects[k].LaunchCamera?
    // a cancelled camera: nothing else happens
    ensures !busy && camera.Resolved? && camera.response.didCancel ==>
              r.effects == [LaunchCamera(PhotoOptions)]
    // no usable image: no recognition, no navigation, the "No image captured" alert
    ensures !busy && camera.Resolved? && !camera.response.didCancel && CapturedPath(camera.response).None? ==>
              r.effects == [LaunchCamera(PhotoOptions), ShowAlert(Alert(ScanFailed, NoImageCaptured, []))]
    // the camera itself failed: its message is reported
    ensures !busy && camera.Rejected? ==>
              r.effects == [LaunchCamera(PhotoOptions), ShowAlert(FailureAlert(camera.message))]
    // recognition runs only on the captured path, with the Latin script
    ensures forall k :: 0 <= k < |r.effects| && r.effects[k].Recognize? ==>
              k == 1 && camera.Resolved? && !camera.response.didCancel &&
              Some(r.effects[k].path) == CapturedPath(camera.response) && r.effects[k].script == Latin
    // a navigation happens only when recognition succeeded, once, to Result with its text or ''
    ensures forall k :: 0 <= k < |r.effects| && r.effects[k].Navigate? ==>
              k == 2 && ocr.Recognized? &&
              r.effects[k].screen == Result(Some(ResultParams(ocr.text.GetOr(""))))
    // an alert is always the last effect and never follows a navigation
    ensures forall k :: 0 <= k < |r.effects| && r.effects[k].ShowAlert? ==>
              k == |r.effects| - 1 && r.effects[k].alert.title == ScanFailed
    // a recognition that ran ends either in the navigation or in the error's alert
    ensures !busy && camera.Resolved? && !camera.response.didCancel && CapturedPath(camera.response).Some? ==>
              var path := CapturedPath(camera.response).value;
              r.effects == [LaunchCamera(PhotoOptions), Recognize(path, Latin),
                            if ocr.Recognized? then Navigate(Result(Some(ResultParams(ocr.text.GetOr("")))))
                            else ShowAlert(FailureAlert(ocr.message))]
  {
    if busy then Attempt([], true)
    else
      var launched := [LaunchCamera(PhotoOptions)];
      match camera
      case Rejected(message) => Attempt(launched + [ShowAlert(FailureAlert(message))], false)
      case Resolved(resp) =>
        if resp.didCancel then Attempt(launched, false)
        else match CapturedPath(resp)
          case None => Attempt(launched + [ShowAlert(FailureAlert(Some(NoImageCaptured)))], false)
          case Some(path) =>
            var recognized := launched + [Recognize(path, Latin)];
            match ocr
            case Recognized(text) => Attempt(recognized + [Navigate(Result(Some(ResultParams(text.GetOr("")))))], false)
            case OcrFailed(message) => Attempt(recognized + [ShowAlert(FailureAlert(message))], false)
  }

  /** The Scan screen's state: the `busy` flag, and the log of effects it has caused. */
  class ScanScreenState {
    var busy: bool
    var log: seq<Effect>

    /** `useState(false)`. */
    constructor ()
      ensures !busy && log == []
    {
      busy := false;
      log := [];
    }

    /**
     * `takeAndRecognize()` run to completion, with `camera` and `ocr` the
     * answers of the two awaited calls. The try/catch/finally is followed
     * step by step: `thrown` holds the message of a caught error.
     */
    method TakeAndRecognize(camera: CameraOutcome, ocr: OcrOutcome)
      modifies this
      ensures log == old(log) + Attempted(old(busy), camera, ocr).effects
      ensures busy == Attempted(old(busy), camera, ocr).busy
    {
      if busy {
        return;
      }
      var thrown: Option<Option<string>> := None;
      // try
      busy := true;
      log := log + [LaunchCamera(PhotoOptions)];
      match camera {
        case Rejected(message) =>
          thrown := Some(message);
        case Resolved(resp) =>
          if resp.didCancel {
            busy := false;
            // return: nothing more in the try block runs, the finally block still does
          } else {
            var path := CapturedPath(resp);
            if path.None? {
              thrown := Some(Some(NoImageCaptured));
            } else {
              log := log + [Recognize(path.value, Latin)];
              match ocr {
                case OcrFailed(message) =>
                  thrown := Some(message);
                case Recognized(result) =>
                  var text := result.GetOr("");
                  log := log + [Navigate(Result(Some(ResultParams(text))))];
              }
            }
          }
      }
      // catch
      if thrown.Some? {
        log := log + [ShowAlert(FailureAlert(thrown.value))];
      }
      // finally
      busy := false;
    }
  }
}
