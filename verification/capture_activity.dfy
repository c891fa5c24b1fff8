/**
 * CaptureActivity: what one decoded string becomes (`handleDecode`), the recognised ZXing URL
 * prefixes (`isZXingURL`), and the camera-lifecycle flags the activity keeps across the platform's
 * resume, pause and surface callbacks.
 *
 * The JSON library is external: the model receives its verdict on a string as `parse`, which gives
 * the top-level object's fields or `None` when `new JSONObject(text)` throws.
 */
module Capture {
  import opened Wrappers
  import QRCodeTypeDefine

  /** `ZXING_URLS`: the prefixes of a ZXing scan request. */
  const ZXING_URLS: seq<string> := ["http://zxing.appspot.com/scan", "zxing://scan/"]

  /** The delay, in milliseconds, before scanning resumes after an empty decode. */
  const RESTART_DELAY_MS: nat := 3000

  /**
   * A field value of a parsed JSON object: a string; a nested object, carried with the text its
   * `toString()` produces; or any other value (number, boolean, array, `JSONObject.NULL`), carried
   * with the text `String.valueOf` gives it.
   */
  datatype JsonValue = JString(s: string) | JObject(serialised: string) | JOther(rendering: string)

  type JsonObject = map<string, JsonValue>

  /** `JSONObject.getString` (Android's org.json): a string as it is, any other value as its text. */
  function GetString(v: JsonValue): string {
    match v
    case JString(s) => s
    case JObject(text) => text
    case JOther(text) => text
  }

  /** The decoder's `Result`, reduced to its text, which may be null. */
  datatype DecodedResult = DecodedResult(text: Option<string>)

  /** The `ParsedResultType` names this activity puts under `resultType`. */
  datatype ParsedResultType = MIC | TEXT

  /** The extras of the intent handed to `setResult(RESULT_OK, …)`; `action` is absent for TEXT. */
  datatype ActivityResult = ActivityResult(resultType: ParsedResultType, action: Option<string>, resultContent: string)

  /** What `handleDecode` does with one decoded result. */
  datatype Decision =
    | RetryAfterDelay(delayMs: nat)   // toast, then `restartPreviewAfterDelay(delayMs)`
    | Finish(result: ActivityResult)  // `setResult(RESULT_OK, …)`, then `finish()`
    | NoResult                        // nothing is set and the activity keeps running

  /** The extras `setResultForText` sets: type TEXT, the raw text as content. */
  function TextResult(text: string): ActivityResult
  {
    ActivityResult(TEXT, None, text)
  }

  /** The parsed object carries the three keys of a structured payload. */
  predicate HasPayloadKeys(obj: JsonObject) {
    "isMIC" in obj && "action" in obj && "param" in obj
  }

  /**
   * The decision of `handleDecode`. Every JSONException, from the constructor or from
   * `getJSONObject("param")`, lands in the catch block and yields the TEXT result.
   */
  function HandleDecodeDecision(text: Option<string>, parse: string -> Option<JsonObject>): (d: Decision)
    ensures d.RetryAfterDelay? <==> IsEmpty(text)
    ensures d.RetryAfterDelay? ==> d.delayMs == RESTART_DELAY_MS
    ensures d.Finish? ==> text.Some? && (d.result == TextResult(text.value) || d.result.resultType == MIC)
  {
    if IsEmpty(text) then RetryAfterDelay(RESTART_DELAY_MS)
    else
      var raw := text.value;
      match parse(raw)
      case None => Finish(TextResult(raw))
      case Some(obj) =>
        if HasPayloadKeys(obj) then
          if QRCodeTypeDefine.GetValue(QRCodeTypeDefine.IsMic) == GetString(obj["isMIC"]) then
            match obj["param"]
            case JObject(param) => Finish(ActivityResult(MIC, Some(GetString(obj["action"])), param))
            case _ => Finish(TextResult(raw))
          else NoResult
        else Finish(TextResult(raw))
  }

  /** Null or empty text is not classified: it schedules a retry after 3000 ms. */
  lemma EmptyTextRetries(text: Option<string>, parse: string -> Option<JsonObject>)
    requires IsEmpty(text)
    ensures HandleDecodeDecision(text, parse) == RetryAfterDelay(3000)
  {
  }

  /** Text that does not parse as a JSON object finishes with the TEXT result carrying the raw text. */
  lemma UnparsableTextIsText(raw: string, parse: string -> Option<JsonObject>)
    requires raw != "" && parse(raw).None?
    ensures HandleDecodeDecision(Some(raw), parse) == Finish(ActivityResult(TEXT, None, raw))
  {
  }

  /** An object missing any of `isMIC`, `action`, `param` finishes with the TEXT result. */
  lemma MissingKeyIsText(raw: string, parse: string -> Option<JsonObject>)
    requires raw != "" && parse(raw).Some? && !HasPayloadKeys(parse(raw).value)
    ensures HandleDecodeDecision(Some(raw), parse) == Finish(ActivityResult(TEXT, None, raw))
  {
  }

  /**
   * A payload whose marker is `getValue(isMIC)` and whose `param` is an object finishes with the MIC
   * result: the `action` field's text and the serialised `param` object.
   */
  lemma MarkedPayloadIsMic(raw: string, parse: string -> Option<JsonObject>)
    requires raw != "" && parse(raw).Some? && HasPayloadKeys(parse(raw).value)
    requires GetString(parse(raw).value["isMIC"]) == "1"
    requires parse(raw).value["param"].JObject?
    ensures HandleDecodeDecision(Some(raw), parse)
         == Finish(ActivityResult(MIC, Some(GetString(parse(raw).value["action"])),
                                  parse(raw).value["param"].serialised))
  {
  }

  /** All three keys present but a marker other than "1": no result, and the activity does not finish. */
  lemma UnmarkedPayloadIsIgnored(raw: string, parse: string -> Option<JsonObject>)
    requires raw != "" && parse(raw).Some? && HasPayloadKeys(parse(raw).value)
    requires GetString(parse(raw).value["isMIC"]) != "1"
    ensures HandleDecodeDecision(Some(raw), parse) == NoResult
  {
  }

  /** A matching marker with a `param` that is not an object: `getJSONObject` throws, the catch gives TEXT. */
  lemma ParamNotObjectIsText(raw: string, parse: string -> Option<JsonObject>)
    requires raw != "" && parse(raw).Some? && HasPayloadKeys(parse(raw).value)
    requires GetString(parse(raw).value["isMIC"]) == "1"
    requires !parse(raw).value["param"].JObject?
    ensures HandleDecodeDecision(Some(raw), parse) == Finish(ActivityResult(TEXT, None, raw))
  {
  }

  /**
   * The MIC result arises exactly when the text parses to an object with the three keys, whose
   * marker the tag enum maps to `isMIC`, and whose `param` is an object.
   */
  lemma MicExactlyWhenMarked(text: Option<string>, parse: string -> Option<JsonObject>)
    ensures (var d := HandleDecodeDecision(text, parse); d.Finish? && d.result.resultType == MIC)
        <==> (&& !IsEmpty(text)
              && parse(text.value).Some?
              && HasPayloadKeys(parse(text.value).value)
              && QRCodeTypeDefine.GetValueByTag(Some(GetString(parse(text.value).value["isMIC"])))
                 == QRCodeTypeDefine.IsMic
              && parse(text.value).value["param"].JObject?)
  {
    if !IsEmpty(text) && parse(text.value).Some? && HasPayloadKeys(parse(text.value).value) {
      var marker := GetString(parse(text.value).value["isMIC"]);
      assert QRCodeTypeDefine.GetValueByTag(Some(marker)) == QRCodeTypeDefine.IsMic <==> marker == "1";
    }
  }

  /**
   * The activity stays open without a result exactly when the object carries the three keys and
   * its marker is not "1".
   */
  lemma NoResultExactlyWhenUnmarked(text: Option<string>, parse: string -> Option<JsonObject>)
    ensures HandleDecodeDecision(text, parse).NoResult?
        <==> (&& !IsEmpty(text)
              && parse(text.value).Some?
              && HasPayloadKeys(parse(text.value).value)
              && GetString(parse(text.value).value["isMIC"]) != "1")
  {
  }

  /** Whether `url` is a prefix of `s` (`String.startsWith`). */
  predicate StartsWith(s: string, url: string) {
    url <= s
  }

  /** The loop of `isZXingURL`: whether some entry of `urls` is a prefix of `s`. */
  function AnyPrefix(urls: seq<string>, s: string): (b: bool)
    ensures b <==> exists i :: 0 <= i < |urls| && StartsWith(s, urls[i])
  {
    if urls == [] then false
    else if StartsWith(s, urls[0]) then true
    else
      var rest := AnyPrefix(urls[1..], s);
      assert forall i :: 1 <= i < |urls| ==> urls[i] == urls[1..][i - 1];
      rest
  }

  /** `isZXingURL`: false for null; otherwise whether the string starts with a ZXing scan prefix. */
  function IsZXingURL(dataString: Option<string>): (b: bool)
    ensures b <==> dataString.Some? && (StartsWith(dataString.value, "http://zxing.appspot.com/scan")
                                        || StartsWith(dataString.value, "zxing://scan/"))
  {
    dataString.Some? &&
      var found := AnyPrefix(ZXING_URLS, dataString.value);
      assert found <==> StartsWith(dataString.value, ZXING_URLS[0]) || StartsWith(dataString.value, ZXING_URLS[1]);
      found
  }

  /** What the external camera stack does when `initCamera` asks it to start. */
  datatype CameraResponse = CameraResponse(
    driverOpens: bool,     // `openDriver` returns rather than throwing IOException or RuntimeException
    previewStarts: bool)   // `new CaptureActivityHandler(…)` returns rather than throwing

  /**
   * The activity's lifecycle state. `hasCameraManager` records that `onResume` has run, which is
   * when the camera manager and the viewfinder view are set; the handler is present or null.
   */
  class CaptureActivity {
    var hasSurface: bool
    var hasCameraManager: bool
    var cameraOpen: bool
    var hasHandler: bool
    var lastResult: Option<DecodedResult>
    /** Whether this activity is registered as the preview surface's callback. */
    var callbackInstalled: bool
    /** Delays of the `restart_preview` messages sent to the handler, oldest first. */
    var restartMessages: seq<nat>
    /** What `setResult` last set, if anything. */
    var activityResult: Option<ActivityResult>
    var finishing: bool
    /** Whether the camera-failure dialog (`displayFrameworkBugMessageAndExit`) was shown. */
    var bugDialogShown: bool

    /** A handler only exists while the camera is open; both need the camera manager. */
    ghost predicate Valid()
      reads this
    {
      && (hasHandler ==> cameraOpen)
      && (cameraOpen ==> hasCameraManager)
      && (callbackInstalled ==> hasCameraManager)
    }

    /** `onCreate`: no surface yet; nothing else has been set up. */
    constructor ()
      ensures Valid()
      ensures !hasSurface && !hasCameraManager && !cameraOpen && !hasHandler && !callbackInstalled
      ensures lastResult == None && restartMessages == [] && activityResult == None
      ensures !finishing && !bugDialogShown
    {
      hasSurface := false;
      hasCameraManager := false;
      cameraOpen := false;
      hasHandler := false;
      lastResult := None;
      callbackInstalled := false;
      restartMessages := [];
      activityResult := None;
      finishing := false;
      bugDialogShown := false;
    }

    /** `resetStatusView`: the viewfinder is shown again and the last result is forgotten. */
    method ResetStatusView()
      requires hasCameraManager
      modifies this`lastResult
      ensures lastResult == None
    {
      lastResult := None;
    }

    /** `restartPreviewAfterDelay`: ask the handler, if any, to restart after `delayMs`; reset the status. */
    method RestartPreviewAfterDelay(delayMs: nat)
      requires hasCameraManager
      modifies this`restartMessages, this`lastResult
      ensures restartMessages == old(restartMessages) + (if hasHandler then [delayMs] else [])
      ensures lastResult == None
    {
      if hasHandler {
        restartMessages := restartMessages + [delayMs];
      }
      ResetStatusView();
    }

    /**
     * `initCamera`: throws IllegalStateException without a holder; does nothing when the camera is
     * already open; otherwise opens the driver and creates a handler if none exists, showing the
     * failure dialog when either step throws.
     */
    method InitCamera(holderPresent: bool, camera: CameraResponse) returns (thrown: bool)
      requires Valid() && hasCameraManager
      modifies this`cameraOpen, this`hasHandler, this`bugDialogShown
      ensures Valid()
      ensures thrown <==> !holderPresent
      ensures thrown || old(cameraOpen) ==>
                cameraOpen == old(cameraOpen) && hasHandler == old(hasHandler)
                && bugDialogShown == old(bugDialogShown)
      ensures !thrown && !old(cameraOpen) ==>
                && cameraOpen == camera.driverOpens
                && hasHandler == (camera.driverOpens && camera.previewStarts)
                && bugDialogShown == (old(bugDialogShown) || !camera.driverOpens || !camera.previewStarts)
    {
      if !holderPresent {
        return true;
      }
      thrown := false;
      if cameraOpen {
        return;
      }
      if !camera.driverOpens {
        bugDialogShown := true;
        return;
      }
      cameraOpen := true;
      if !hasHandler {
        if camera.previewStarts {
          hasHandler := true;
        } else {
          bugDialogShown := true;
        }
      }
    }

    /**
     * `onResume`: a fresh camera manager (closed), no handler, no last result; the camera is
     * started at once when the surface still exists, otherwise the activity waits for it.
     */
    method OnResume(camera: CameraResponse)
      modifies this
      ensures Valid()
      ensures hasCameraManager && lastResult == None
      ensures hasSurface == old(hasSurface) && restartMessages == old(restartMessages)
      ensures activityResult == old(activityResult) && finishing == old(finishing)
      ensures old(hasSurface) ==>
                && cameraOpen == camera.driverOpens
                && hasHandler == (camera.driverOpens && camera.previewStarts)
                && bugDialogShown == (old(bugDialogShown) || !camera.driverOpens || !camera.previewStarts)
                && callbackInstalled == old(callbackInstalled)
      ensures !old(hasSurface) ==>
                !cameraOpen && !hasHandler && callbackInstalled && bugDialogShown == old(bugDialogShown)
    {
      hasCameraManager := true;
      cameraOpen := false;
      hasHandler := false;
      lastResult := None;
      ResetStatusView();
      if hasSurface {
        var _ := InitCamera(true, camera);
      } else {
        callbackInstalled := true;
      }
    }

    /**
     * `onPause`: the handler quits and is dropped, the camera driver is closed, and the surface
     * callback is removed unless the surface still exists.
     */
    method OnPause()
      requires Valid() && hasCameraManager
      modifies this`hasHandler, this`cameraOpen, this`callbackInstalled
      ensures Valid()
      ensures !hasHandler && !cameraOpen
      ensures callbackInstalled == (old(callbackInstalled) && hasSurface)
    {
      if hasHandler {
        hasHandler := false;
      }
      cameraOpen := false;
      if !hasSurface {
        callbackInstalled := false;
      }
    }

    /** `surfaceCreated`: the first notification marks the surface present and starts the camera. */
    method SurfaceCreated(holderPresent: bool, camera: CameraResponse) returns (thrown: bool)
      requires Valid() && callbackInstalled
      modifies this`hasSurface, this`cameraOpen, this`hasHandler, this`bugDialogShown
      ensures Valid()
      ensures hasSurface
      ensures old(hasSurface) ==>
                && !thrown && cameraOpen == old(cameraOpen) && hasHandler == old(hasHandler)
                && bugDialogShown == old(bugDialogShown)
      ensures !old(hasSurface) ==> (thrown <==> !holderPresent)
      ensures !old(hasSurface) && (!holderPresent || old(cameraOpen)) ==>
                && cameraOpen == old(cameraOpen) && hasHandler == old(hasHandler)
                && bugDialogShown == old(bugDialogShown)
      ensures !old(hasSurface) && holderPresent && !old(cameraOpen) ==>
                && cameraOpen == camera.driverOpens
                && hasHandler == (camera.driverOpens && camera.previewStarts)
                && bugDialogShown == (old(bugDialogShown) || !camera.driverOpens || !camera.previewStarts)
    {
      thrown := false;
      if !hasSurface {
        hasSurface := true;
        thrown := InitCamera(holderPresent, camera);
      }
    }

    /** `surfaceDestroyed`: the surface is gone. */
    method SurfaceDestroyed()
      modifies this`hasSurface
      ensures !hasSurface
    {
      hasSurface := false;
    }

    /** `setResultForText`: the TEXT result carrying `text`, then `finish()`. */
    method SetResultForText(text: string)
      modifies this`activityResult, this`finishing
      ensures activityResult == Some(TextResult(text)) && finishing
    {
      activityResult := Some(TextResult(text));
      finishing := true;
    }

    /**
     * `handleDecode`: remember the result, then act on `HandleDecodeDecision`. The camera, the
     * surface and the handler are left alone.
     */
    method HandleDecode(raw: DecodedResult, parse: string -> Option<JsonObject>)
      requires Valid()
      requires IsEmpty(raw.text) ==> hasCameraManager
      modifies this`lastResult, this`restartMessages, this`activityResult, this`finishing
      ensures Valid()
      ensures match HandleDecodeDecision(raw.text, parse)
              case RetryAfterDelay(delayMs) =>
                && lastResult == None
                && restartMessages == old(restartMessages) + (if hasHandler then [delayMs] else [])
                && activityResult == old(activityResult) && finishing == old(finishing)
              case Finish(result) =>
                && lastResult == Some(raw) && activityResult == Some(result) && finishing
                && restartMessages == old(restartMessages)
              case NoResult =>
                && lastResult == Some(raw) && activityResult == old(activityResult)
                && finishing == old(finishing) && restartMessages == old(restartMessages)
    {
      lastResult := Some(raw);
      match HandleDecodeDecision(raw.text, parse)
      case RetryAfterDelay(delayMs) =>
        RestartPreviewAfterDelay(delayMs);
      case Finish(result) =>
        if result.resultType == TEXT {
          SetResultForText(raw.text.value);
        } else {
          activityResult := Some(result);
          finishing := true;
        }
      case NoResult =>
    }
  }

  /**
   * The usual start of a scan: `onCreate`, `onResume` before the surface exists, the surface
   * arriving, then a decode with empty text. With a working camera the handler exists, so exactly
   * one restart message with the 3000 ms delay is sent, and nothing is returned to the caller.
   */
  method ResumeThenEmptyScan(camera: CameraResponse, parse: string -> Option<JsonObject>)
      returns (restarts: seq<nat>, returned: Option<ActivityResult>, finished: bool)
    ensures restarts == (if camera.driverOpens && camera.previewStarts then [RESTART_DELAY_MS] else [])
    ensures returned == None && !finished
  {
    var activity := new CaptureActivity();
    activity.OnResume(camera);
    var _ := activity.SurfaceCreated(true, camera);
    activity.HandleDecode(DecodedResult(Some("")), parse);
    restarts, returned, finished := activity.restartMessages, activity.activityResult, activity.finishing;
  }
}
