# A verified model of the QR_codeAndroid capture logic

QR_codeAndroid is an Android demo around the ZXing barcode decoder. The activity opens the camera and
overlays a viewfinder. When the external decoder reports a string, the activity turns it into an
activity result for its caller. This project models the three pieces of that app that hold real
decision logic, and proves properties of them in Dafny:

- `capture_activity.dfy` (module `Capture`) models `CaptureActivity`. It has three parts:
  - what `handleDecode` does with one decoded string: retry, a `MIC` result, a `TEXT` result, or nothing;
  - the `isZXingURL` prefix test;
  - the lifecycle flags in the class `CaptureActivity`, updated by `onResume`, `onPause`,
    `surfaceCreated`, `surfaceDestroyed`, `initCamera`, `restartPreviewAfterDelay` and `resetStatusView`.
    These flags are the surface, the camera manager, the open camera, the handler, the last result,
    the surface callback, the restart messages, the activity result and the failure dialog.
- `qr_code_type_define.dfy` (module `QRCodeTypeDefine`) models the tag enum `{None("none"), isMIC("1")}`.
  It covers the first-match lookup `getValueByTag` and its inverse `getValue`.
- `viewfinder_view.dfy` (module `Viewfinder`) models `ViewfinderView`. It covers:
  - the bounded list of possible result points;
  - the result bitmap that `drawViewfinder` and `drawResultBitmap` set;
  - the integer geometry of `onDraw`: the four mask rectangles and the centre crosshair.
- `wrappers.dfy` holds `Option`, which stands for a Java reference that may be null.

The JSON library is external. `handleDecode` receives its verdict as a function `parse`. For a
string, `parse` gives the fields of the top-level object, or `None` when `new JSONObject(text)` throws.
A field value is one of three things:
- a string;
- a nested object, carried with its `toString()` text;
- any other value, carried with its text.

`getString` follows Android's org.json: it returns a string unchanged and the text of any other
value, and never throws for a key that is present. `getJSONObject` throws for a value that is not
an object. That exception, like the constructor's, is caught and yields the `TEXT` result.

Two behaviours of the code differ from what one might expect, and the model follows the code:
- `handleDecode` never calls `ResultHandlerFactory`, so no `URI` result is ever produced.
- An object that has all three keys (`isMIC`, `action`, `param`) but a marker other than `"1"` does
  not fall back to text. No result is set, the activity does not finish, and no preview restart is
  scheduled (`Decision.NoResult`).

## Model

| member | source | states |
|---|---|---|
| `Capture.HandleDecodeDecision` | src/com/google/zxing/demo/CaptureActivity.java:272-312 | A retry is scheduled exactly when the text is null or empty, and always with the 3000 ms delay. Any finished result is either the TEXT result carrying the raw text or a MIC result. |
| `Capture.EmptyTextRetries` | src/com/google/zxing/demo/CaptureActivity.java:276-280 | Null or empty text is not classified. It yields a restart after 3000 ms. |
| `Capture.UnparsableTextIsText` | src/com/google/zxing/demo/CaptureActivity.java:283-310 | Non-empty text that is not a JSON object finishes with type TEXT, no action, and the raw text as content. |
| `Capture.MissingKeyIsText` | src/com/google/zxing/demo/CaptureActivity.java:286-302 | An object missing any of `isMIC`, `action` or `param` finishes with the TEXT result for the raw text. |
| `Capture.MarkedPayloadIsMic` | src/com/google/zxing/demo/CaptureActivity.java:286-297 | Three keys, marker `"1"` and an object `param` finish with type MIC. The action is the `action` field's text and the content is the serialised `param`. |
| `Capture.UnmarkedPayloadIsIgnored` | src/com/google/zxing/demo/CaptureActivity.java:286-298 | Three keys with a marker other than `"1"`: no result is set and the activity does not finish. |
| `Capture.ParamNotObjectIsText` | src/com/google/zxing/demo/CaptureActivity.java:288-309 | A matching marker with a `param` that is not an object: `getJSONObject` throws, and the catch gives the TEXT result. No exception escapes. |
| `Capture.MicExactlyWhenMarked` | src/com/google/zxing/demo/CaptureActivity.java:285-297 | MIC results arise exactly when all of these hold: the text parses to an object with the three keys, the tag enum maps its marker to `isMIC`, and `param` is an object. Both directions are proved. |
| `Capture.NoResultExactlyWhenUnmarked` | src/com/google/zxing/demo/CaptureActivity.java:283-311 | The activity stays open without a result exactly when the object has the three keys and its marker is not `"1"`. |
| `Capture.AnyPrefix` | src/com/google/zxing/demo/CaptureActivity.java:183-190 | The loop is true exactly when some listed URL is a prefix of the string. |
| `Capture.IsZXingURL` | src/com/google/zxing/demo/CaptureActivity.java:177-191 | False for null. Otherwise true exactly when the string starts with `http://zxing.appspot.com/scan` or `zxing://scan/`. |
| `Capture.CaptureActivity.constructor` | src/com/google/zxing/demo/CaptureActivity.java:113-134 | After `onCreate` there is no surface, camera manager, open camera, handler, last result or activity result. |
| `Capture.CaptureActivity.ResetStatusView` | src/com/google/zxing/demo/CaptureActivity.java:377-384 | The last result is cleared. |
| `Capture.CaptureActivity.RestartPreviewAfterDelay` | src/com/google/zxing/demo/CaptureActivity.java:368-375 | A restart message with the delay is sent only when a handler exists. The last result is cleared. |
| `Capture.CaptureActivity.InitCamera` | src/com/google/zxing/demo/CaptureActivity.java:323-356 | A missing holder throws. An open camera makes the call a no-op. Otherwise the camera opens if the driver does, a handler is created only when the driver opened and none existed, and either failure shows the dialog. The invariant that a handler exists only while the camera is open is kept. |
| `Capture.CaptureActivity.OnResume` | src/com/google/zxing/demo/CaptureActivity.java:136-175 | A fresh, closed camera manager; no handler; no last result. The camera is started at once when the surface exists. Otherwise the surface callback is installed. |
| `Capture.CaptureActivity.OnPause` | src/com/google/zxing/demo/CaptureActivity.java:193-213 | Afterwards the handler is null and the camera closed. The callback stays installed only while the surface exists. |
| `Capture.CaptureActivity.SurfaceCreated` | src/com/google/zxing/demo/CaptureActivity.java:239-251 | The surface is marked present. A later callback changes nothing else. On the first one, a null holder throws and leaves the camera, handler and dialog as they were, as does a camera that is still open. Otherwise the camera opens when the driver does, the handler exists exactly when both steps succeed, and the failure dialog is shown when either fails. |
| `Capture.CaptureActivity.SurfaceDestroyed` | src/com/google/zxing/demo/CaptureActivity.java:253-257 | The surface is marked absent. |
| `Capture.CaptureActivity.SetResultForText` | src/com/google/zxing/demo/CaptureActivity.java:314-321 | Sets the TEXT result for the text and finishes. That result (`TextResult`) has type TEXT, no action, and the raw text as content; `UnparsableTextIsText`, `MissingKeyIsText` and `ParamNotObjectIsText` state it field by field. |
| `Capture.CaptureActivity.HandleDecode` | src/com/google/zxing/demo/CaptureActivity.java:272-312 | Updates the state as the decision says. A retry clears the last result and sends the restart message if a handler exists. A finish records the result and finishes. No result leaves the result and the finish flag alone. The camera, surface and handler are untouched. |
| `Capture.ResumeThenEmptyScan` | src/com/google/zxing/demo/CaptureActivity.java:272-280 | After create, resume, the surface arriving and an empty decode, exactly one 3000 ms restart is sent when the camera starts. Nothing is returned to the caller. |
| `QRCodeTypeDefine.GetValue` | src/com/google/zxing/demo/module/QRCodeTypeDefine.java:32-35 | Every constant's value is non-empty. |
| `QRCodeTypeDefine.ValuesDistinct` | src/com/google/zxing/demo/module/QRCodeTypeDefine.java:7 | No two constants share a value. |
| `QRCodeTypeDefine.FirstWithValue` | src/com/google/zxing/demo/module/QRCodeTypeDefine.java:22-29 | The search returns the position of the first constant in declaration order whose value equals the tag, or the end when none does. |
| `QRCodeTypeDefine.GetValueByTag` | src/com/google/zxing/demo/module/QRCodeTypeDefine.java:16-30 | A null or empty tag gives `None`. The result is `isMIC` exactly when the tag is `getValue(isMIC)`. |
| `QRCodeTypeDefine.GetValueByTagFinds` | src/com/google/zxing/demo/module/QRCodeTypeDefine.java:22-27 | A non-empty tag that some constant carries is found: the result carries that tag. |
| `QRCodeTypeDefine.TagOneIsMic` | src/com/google/zxing/demo/module/QRCodeTypeDefine.java:22-27 | `getValueByTag("1")` is `isMIC`. |
| `QRCodeTypeDefine.TagNoneIsNone` | src/com/google/zxing/demo/module/QRCodeTypeDefine.java:22-27 | `getValueByTag("none")` is `None`. |
| `QRCodeTypeDefine.UnknownTagIsNone` | src/com/google/zxing/demo/module/QRCodeTypeDefine.java:22-29 | A non-empty tag that no constant carries gives `None`. |
| `QRCodeTypeDefine.RoundTrip` | src/com/google/zxing/demo/module/QRCodeTypeDefine.java:16-35 | `getValueByTag(getValue(t)) == t` for every constant. |
| `QRCodeTypeDefine.InverseRoundTrip` | src/com/google/zxing/demo/module/QRCodeTypeDefine.java:16-35 | `getValue(getValueByTag(s)) == s` exactly when `s` is a declared value. |
| `Viewfinder.AddPoint` | src/com/google/zxing/demo/view/ViewfinderView.java:237-250 | After adding, the point is last and the list holds at most 20 entries. It is a suffix of the old list plus the point. It equals old-plus-point while that fits, and otherwise holds exactly the newest 10. |
| `Viewfinder.AddPointsLength` | src/com/google/zxing/demo/view/ViewfinderView.java:237-250 | Across any run of additions from a list within the bound, the length stays at most 20. It never drops below the smaller of the points seen and 10. |
| `Viewfinder.AddPointsKeepsNewest` | src/com/google/zxing/demo/view/ViewfinderView.java:237-250 | Across any run of additions, the list is always the newest part, in order, of everything added. |
| `Viewfinder.AddPointsEndsWithNewest` | src/com/google/zxing/demo/view/ViewfinderView.java:237-250 | Across any non-empty run of additions, the last point added is the last entry. |
| `Viewfinder.MaskCoversOutsideFrame` | src/com/google/zxing/demo/view/ViewfinderView.java:116-122 | A canvas pixel is painted by some mask rectangle exactly when it lies outside the inclusive frame. This holds for any frame. |
| `Viewfinder.MaskTilesCanvasMinusFrame` | src/com/google/zxing/demo/view/ViewfinderView.java:116-122 | For a frame with ordered edges, the mask rectangles are disjoint. Each canvas pixel outside the inclusive frame is painted exactly once, and pixels inside are not painted. |
| `Viewfinder.JavaHalf` | src/com/google/zxing/demo/view/ViewfinderView.java:151-152 | Java's `/ 2`: the remainder is 0 or 1 for a non-negative dividend and 0 or -1 for a negative one. |
| `Viewfinder.CrosshairCentredInFrame` | src/com/google/zxing/demo/view/ViewfinderView.java:151-155 | For a frame with ordered edges, the crosshair centre lies in the frame and at most one pixel past the middle toward the right and bottom. Both bars cover it. |
| `Viewfinder.ViewfinderView.constructor` | src/com/google/zxing/demo/view/ViewfinderView.java:76-91 | The view starts with no camera manager, no result bitmap and an empty point list. |
| `Viewfinder.ViewfinderView.SetCameraManager` | src/com/google/zxing/demo/view/ViewfinderView.java:93-96 | The view holds a camera manager afterwards exactly when a non-null one was given. |
| `Viewfinder.ViewfinderView.AddPossibleResultPoint` | src/com/google/zxing/demo/view/ViewfinderView.java:237-250 | The list becomes `AddPoint` of the old list and the point. The bound of 20 holds afterwards. |
| `Viewfinder.ViewfinderView.DrawViewfinder` | src/com/google/zxing/demo/view/ViewfinderView.java:215-224 | The result bitmap is cleared, any previous one is recycled, and the view redraws. The mask paint (`MaskPaint`, line 118) is back to `maskColor`. |
| `Viewfinder.ViewfinderView.DrawResultBitmap` | src/com/google/zxing/demo/view/ViewfinderView.java:231-235 | The result bitmap becomes the argument, which may be null, and the view redraws. The mask paint (`MaskPaint`, line 118) is `resultColor` exactly when a non-null bitmap was given. |
| `Viewfinder.ViewfinderView.OnDraw` | src/com/google/zxing/demo/view/ViewfinderView.java:100-155 | Nothing is drawn when the camera manager or either framing rectangle is missing. Otherwise the four mask rectangles come first, painted `resultColor` exactly while a result bitmap is shown and `maskColor` otherwise. Then comes either the result bitmap drawn into the frame or the two white crosshair bars. |

## Left out

- `ResultHandlerFactory` (URI versus TEXT through ZXing's `ResultParser`): the capture flow never calls it.
- JSON parsing: `parse` is a parameter. Serialising a nested object is the text the library gives, carried in the value.
- `getString` follows Android's org.json. Under the json.org reference library, a non-string `isMIC` or `action` would throw and give TEXT. The model does not cover that library.
- Android plumbing is not modelled:
  - the toast, the intents beyond their three extras, `onKeyDown`, `onClick`, `onDestroy`, and `surfaceChanged` (which is empty);
  - the getters, the window and tint setup in `onCreate`, `InactivityTimer` and `BeepManager`;
  - `CaptureActivity.drawViewfinder`, which only forwards to the view;
  - the view visibility that `resetStatusView` sets.
- The camera driver is reduced to an open flag. What `openDriver` and the handler constructor do on each call is the `CameraResponse` parameter.
- The link between the activity's camera manager and the view's (`setCameraManager`) is not modelled: the two classes are separate.
- Threading is not modelled. Handler messages are recorded as a list of delays, `quitSynchronously` only drops the handler, and the `synchronized` block is taken as sequential.
- Rendering is not modelled:
  - floating-point work: density, `scaleX`/`scaleY`, the text layout and `canvas.translate`;
  - paint alpha, the eight corner-bracket rectangles and `postInvalidateDelayed`;
  - the commented-out result-point circles and scanner animation;
  - so `OnDraw` lists only the mask, bitmap and crosshair calls.
- Viewfinder.ViewfinderView.OnDraw: weaker than the source, because Java `int` overflow in `bottom + 1` and `right + 1` is not modelled (the coordinates are unbounded integers).
- Logging is not modelled: the `Log.e` and `Log.w` calls and `printStackTrace` have no effect on the state.
- Result points are pairs of reals and bitmaps are bare identities. The decoder's result metadata (format, thumbnail, scale factor) is not modelled.
- A null `Result` given to `handleDecode` and a null constant given to `getValue` both throw `NullPointerException` in the source. The model has no null there.
