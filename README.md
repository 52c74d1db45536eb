# PI-stream core, modelled in Dafny

PI-stream is a pair of small Flask + OpenCV apps that read a network camera,
process every frame according to a mode and colour controls that can be
changed at any time over HTTP, and re-emit the frames as an MJPEG stream
(`multipart/x-mixed-replace; boundary=frame`). `testing.py` tracks people:
YOLO runs on every third frame in mode `"yolo"`, and a SORT tracker numbers
the boxes. `cam.py` offers four rendering paths: person boxes, thermal, edge
and night.

This project models the logic those two scripts own:

- **Controls** (`controls.dfy`): the control globals and the two routes
  `set_mode` and `set_param`. They are a class `ControlStore` whose methods
  overwrite its fields, specified by pure functions over a `Settings` value.
  Python's `float(value)` is a parameter `parse : string -> Option<real>`.
- **Imaging** (`imaging.dfy`): frames as symbolic terms that record which
  OpenCV operation, with which constants, produced them. Boxes and captions
  drawn on a frame are a list of marks. `apply_color_controls` is one term.
- **Brightness** (`brightness.dfy`): the `convertScaleAbs` stage of
  `apply_color_controls` on 8-bit channel values: gain, offset, absolute
  value, `cvRound` (ties to even) and saturation to [0,255].
- **Saturation** (`saturation.dfy`): the saturation stage of
  `apply_color_controls` at pixel level, over reals. The S channel is scaled
  in place on an `array`, then every channel is clipped to [0,255] and
  truncated to 8 bits.
- **Detections** (`detections.dfy`): YOLO as an opaque prediction (a list of
  results, each a list of raw boxes) plus a class-name table, and the
  "person" filter both apps apply in their nested loops.
- **Framing** (`framing.dfy`): the body part wrapped around every JPEG
  (boundary `frame`, the framing of section 5.1.1 of RFC 2046), its parse
  back, and the skipping of failed capture reads.
- **TrackingApp** (`tracking_app.dfy`, for `testing.py`): the `Pipeline`
  class holds `frame_counter` and a `Tracker`. It models the detector cadence
  (every 3rd "yolo" frame), the tracker fed exactly once per "yolo" frame,
  the drawing of tracked rows, and `gen_frames`.
- **CamApp** (`cam_app.dfy`, for `cam.py`): the if/elif mode dispatch,
  person boxes drawn as "Human", and `gen_frames` at JPEG quality 75.

The SORT tracker is seen only from outside. It records the detection lists
given to `update`, and its reply is a fixed function of that history.

The model follows the code as written:
- any mode string is accepted and stored, and a mode the dispatch does not
  name passes the frame through;
- the detection mode is the string `"yolo"`;
- `testing.py` runs the detector on every 3rd "yolo" frame, a constant, and
  `cam.py` runs it on every "yolo" frame;
- every detection handed to the tracker gets the fixed score 0.9, whatever
  the detector's confidence;
- all rows the tracker returns are drawn;
- a capture failure is retried with no bound.

## Model

| member | source | states |
|---|---|---|
| Controls.ApplyParam | testing.py:127-138 | the mode never changes; each known parameter becomes the parsed value exactly when it is the one named and the parse succeeded, and keeps its value otherwise; a failed parse or an unknown name leaves the settings unchanged |
| Controls.ParamStatus | testing.py:130-138 | `set_param` answers 204 exactly when `float(value)` succeeds, whether or not the name is known; otherwise the ValueError escapes |
| Controls.ServeAllParam | cam.py:117-132 | after any sequence of control requests, each parameter holds the value of the last request that set it successfully, or its old value if there was none |
| Controls.ServeAllMode | cam.py:110-114 | after any sequence of control requests, the mode is the verbatim string of the last mode request, or the old mode if there was none |
| Controls.ControlStore.constructor | cam.py:15-19 | initial state: mode "normal", brightness, contrast and saturation all 1.0 |
| Controls.ControlStore.SetMode | testing.py:120-124 | stores any string verbatim as the mode, touches no parameter, answers 204 |
| Controls.ControlStore.SetParam | testing.py:126-138 | the new state is `ApplyParam` of the old state and the parse outcome: exactly the named known field changes; the reply is `ParamStatus` |
| Imaging.Truncate | testing.py:65 | Python `int()` on a float rounds toward zero: the result is within 1 of the input, on the zero side |
| Imaging.ColorAdjusted | testing.py:32-40 | `apply_color_controls` as a term: `convertScaleAbs` with the contrast as gain and the brightness offset, then the saturation stage; `Brightness` and `Saturation` state what the two stages do to pixels |
| Brightness.Offset | testing.py:35 | the offset `(brightness - 1) * 50` is zero at the default 1.0, positive above it and negative below it |
| Brightness.Round | cam.py:29 | `cvRound` gives an integer within 0.5 of its input, and an integer input back unchanged |
| Brightness.SaturateByte | cam.py:29 | `saturate_cast<uchar>` keeps values in [0,255] and sends the others to the nearer bound |
| Brightness.ScaleAbs | testing.py:35 | `convertScaleAbs` of a channel value is always a valid 8-bit value |
| Brightness.ScaleAbsAll | cam.py:29 | on a whole frame, every output channel is a valid 8-bit value and the frame keeps its size |
| Brightness.IdentityAtDefault | testing.py:35 | at contrast 1.0 and brightness 1.0 an 8-bit frame comes back unchanged |
| Brightness.RoundMonotone | cam.py:29 | rounding never reverses the order of two values |
| Brightness.BrightnessMonotone | testing.py:35 | with non-negative contrast and brightness of at least 1.0, raising the brightness never darkens a channel |
| Brightness.MirroredBrightnessOnBlack | cam.py:29 | on a black channel, brightness `1 + d` and `1 - d` give the same value, because of the absolute value |
| Brightness.ZeroContrastUniform | testing.py:35 | at contrast 0.0 every channel gets the same value, which depends on the brightness alone |
| Imaging.Stamped | testing.py:100-101 | the status line is drawn after everything else on the frame, and the image and earlier marks are unchanged |
| Detections.Flatten | testing.py:61-62 | the boxes of all results in the order the nested loops visit them; every box of every result is visited |
| Detections.PersonBoxes | cam.py:44-48 | the truncated boxes of the "person" entries, in order, at most one per box; `PersonBoxesSound` and `PersonBoxesComplete` characterise it |
| Detections.PersonBoxesAppend | testing.py:61-66 | the person filter distributes over concatenation, so boxes keep detector order |
| Detections.PersonBoxesSound | cam.py:44-48 | every kept box is the truncated corners of some box of the prediction whose class name is "person" |
| Detections.PersonBoxesComplete | cam.py:44-48 | every box whose class name is "person" is kept |
| Detections.PersonBoxesNone | testing.py:61-64 | a prediction without a person box yields no detection |
| Detections.FlattenAppend | testing.py:61-62 | the nested loop over results and their boxes visits the concatenated results in order |
| Framing.FrameChunk | testing.py:104-105 | the part yielded for one JPEG: `--frame`, the `Content-Type: image/jpeg` header, a blank line, the payload and CRLF; `ParseFrameChunk` and `ParsePartExact` make it the inverse of `ParsePart` |
| Framing.ParseFrameChunk | testing.py:104-105 | any payload is recovered from its chunk: the chunk is the fixed `--frame` header, the payload and CRLF |
| Framing.ParsePartExact | cam.py:92-93 | whatever parses as a part is exactly the header + payload + CRLF chunk of that payload |
| Framing.FrameChunkInjective | testing.py:104-105 | distinct JPEG payloads give distinct chunks |
| Framing.Delivered | testing.py:90-93 | the frames of the successful reads, in order, failed reads skipped; `DeliveredFrames` and `DeliveredBound` characterise it |
| Framing.DeliveredFrames | testing.py:90-93 | a frame reaches processing exactly when some read returned it with success |
| Framing.DeliveredBound | cam.py:74-77 | at most one frame per read is processed, and one per read exactly when no read fails |
| Saturation.Clip | cam.py:33 | `np.clip(x, 0, 255)`: the result lies in [0,255], equals x inside the range, and equals the nearer bound outside it |
| Saturation.ToUint8 | cam.py:33 | `astype("uint8")` of a clipped value is the integer part, in [0,255] |
| Saturation.ScaleSaturationChannel | cam.py:32 | the array is updated in place so that every pixel's S is multiplied by the factor and H and V are untouched |
| Saturation.AdjustSaturation | cam.py:31-34 | the array is scaled in place, and the output is the clipped 8-bit version of the scaled pixels |
| Saturation.ScaledAll | cam.py:32 | `hsv[:, :, 1] *= saturation` on every pixel: same number of pixels, hue and value untouched; `ScaleSaturationChannel` is proved equal to it |
| Saturation.ClippedAll | cam.py:33 | `np.clip(hsv, 0, 255).astype("uint8")` on every pixel, one output pixel per input pixel; `ClippedAllInRange` bounds the channels |
| Saturation.ClippedAllInRange | cam.py:31-34 | for any finite factor, negative or huge included, every output channel is in [0,255] |
| Saturation.HueAndValueKept | testing.py:37-39 | for pixels that came from 8-bit channels, hue and value come back unchanged |
| Saturation.IdentityAtDefault | cam.py:31-34 | at the default factor 1.0 the stage returns the 8-bit input exactly |
| Saturation.NonPositiveFactorGrays | cam.py:32-33 | a factor of zero or less drives every saturation to 0 |
| Saturation.SaturationMonotone | testing.py:38-39 | for non-negative saturation values, a larger factor never lowers any pixel's 8-bit saturation |
| TrackingApp.CollectDetections | testing.py:55-66 | the nested loops build exactly the person boxes of the prediction, in order, each scored 0.9 |
| TrackingApp.FrameDetections | testing.py:61-66 | the list the nested loops build, one row per person box in detector order; `FrameDetectionsSpec` proves each row is scored 0.9 and characterises the list |
| TrackingApp.FrameDetectionsSpec | testing.py:61-66 | each detection comes from a "person" box and has score 0.9; every "person" box is present; order follows the detector |
| TrackingApp.DetectorRuns | testing.py:54-59 | how many of n "yolo" frames after counter c run the detector, at most n; `DetectorRunsClosedForm` gives it in closed form |
| TrackingApp.Pipeline.FedOnce | testing.py:54-72 | the tracker input grows by exactly one list per "yolo" frame: the person detections when the detector ran, the empty list otherwise |
| TrackingApp.TrackMarks | testing.py:75-79 | the boxes drawn for the tracker rows, one per row; `TrackMarksAt` gives the k-th |
| TrackingApp.DetectorRunsClosedForm | testing.py:54-59 | over n consecutive "yolo" frames from counter c, the detector runs `(c+n)/3 - c/3` times (the multiples of 3 reached) |
| TrackingApp.DetectorRunsFromStart | testing.py:22-24 | from the initial counter 0, n "yolo" frames run the detector n/3 times, rounded down |
| TrackingApp.TrackMarksAt | testing.py:75-79 | one numbered box is drawn per tracker row, the k-th from the k-th row with its corners and id truncated |
| TrackingApp.Tracker.constructor | testing.py:27 | the tracker is built with max_age 5, min_hits 2, iou_threshold 0.3 and has seen no input |
| TrackingApp.Tracker.Update | testing.py:72 | one update appends the given detection list to the tracker's history and returns its reply to that history |
| TrackingApp.Pipeline.constructor | testing.py:23-27 | the frame counter starts at 0, the detector has never run, and the tracker is fresh |
| TrackingApp.Pipeline.ProcessFrame | testing.py:46-81 | the frame is always colour-adjusted; outside "yolo" nothing is drawn, the counter stays put, and neither the detector nor the tracker is called; in "yolo" the counter rises by 1, the detector runs iff the new counter is a multiple of 3, the tracker gets exactly one list (empty when the detector did not run), and its rows are drawn |
| TrackingApp.Pipeline.EmitFrame | testing.py:95-105 | one loop pass: the chunk frames the default-quality encoding of the processed frame, which has the status line drawn last; the per-mode state change is the one `ProcessFrame` states |
| TrackingApp.Pipeline.GenFrames | testing.py:87-105 | one chunk per successful read, in order, none for failed reads; in "yolo" the counter rises by the number of chunks, the detector runs per the closed form, and the tracker is fed once per chunk; otherwise no state changes |
| CamApp.PathOf | cam.py:39-65 | the branch of the if/elif chain a mode string selects; `PathOfModeName` and `PassthroughModes` characterise it |
| CamApp.Processed | cam.py:39-65 | the frame `process_frame` returns: the colour-adjusted frame rendered along the selected path; `DetectorOnlyInYolo`, `YoloDrawsPersons` and `RenderingPaths` characterise it |
| CamApp.PathOfModeName | cam.py:42-63 | "yolo", "thermal", "edge" and "night" each select exactly their own branch |
| CamApp.PassthroughModes | cam.py:39-65 | exactly the strings other than those four pass the adjusted frame through, "normal" included |
| CamApp.DrawPersons | cam.py:44-51 | the nested loops draw one "Human" box per person box of the prediction, in order, after the marks already there |
| CamApp.ProcessFrame | cam.py:39-65 | the method returns the rendering of the colour-adjusted frame along the path the mode selects |
| CamApp.DetectorOnlyInYolo | cam.py:42-43 | outside "yolo" the result does not depend on the detector, so the detector is not consulted |
| CamApp.YoloDrawsPersons | cam.py:42-51 | in "yolo" the adjusted frame keeps its image; every mark is a "Human" box from a person detection, and every person detection gets one |
| CamApp.RenderingPaths | cam.py:53-63 | "thermal" is the JET colormap of the grey frame, "edge" is Canny(60,150) expanded to 3 channels, "night" is the OCEAN colormap; nothing is drawn on these paths |
| CamApp.Chunks | cam.py:74-93 | the stream of `gen_frames` over the delivered frames: one chunk per frame; `ChunksAt` gives the k-th |
| CamApp.ChunksAt | cam.py:91-93 | one chunk per delivered frame, the k-th framing the quality-75 encoding of the k-th processed, stamped frame |
| CamApp.GenFrames | cam.py:71-93 | the loop yields exactly the chunks of the successfully read frames under the current controls, in order |
| CamApp.StreamParses | cam.py:91-93 | every chunk of the stream parses back to the JPEG bytes of its frame |

## Left out

- Python's `float(value)` is not modelled. The routes take its outcome from a parse function parameter that may fail.
- OpenCV pixel operations stay symbolic image terms in `Imaging`: `convertScaleAbs`, `cvtColor`, `applyColorMap`, `Canny` and `imencode` are terms or an `encode` function parameter. Only `convertScaleAbs` is also modelled on channel values, in `Brightness`. Drawing colours, thickness, font and the caption offsets (`y1 - 5`, `y1 - 8`) are not modelled either; JPEG bytes are opaque.
- Controls.ApplyParam: non-finite floats are outside the model. Python's `float` also accepts "nan", "inf", "-inf" and overflowing literals such as "1e999", and `set_param` stores them and answers 204; the parse parameter returns reals, which cannot hold them.
- Saturation.ClippedAllInRange, Saturation.NonPositiveFactorGrays, Saturation.SaturationMonotone, Brightness.ScaleAbs: these hold for finite factors only. With an infinite or NaN factor, float arithmetic can give NaN (`0 * inf`), which the real-valued model does not have.
- The BGR to HSV conversion and back is not modelled. `Brightness` and `Saturation` model the two stages of `apply_color_controls` separately, each on channel values.
- Brightness.ScaleAbs: float32 rounding of `alpha * x + beta` is not modelled; reals stand for it, so a value that float32 rounds onto a .5 tie (contrast 0.01 on channel value 50, say) can come out 1 off.
- Saturation: float32 rounding of the multiplication is not modelled; reals stand for float32.
- The SORT tracker's internals (Kalman prediction, IoU assignment, track lifecycle) live in the `sort` module, which is not part of this model. Its reply is a function of the detection history.
- YOLO's `model.predict` is an opaque function of the frame and its options (`imgsz`, `conf`); the confidence threshold is applied inside it.
- The FPS value on the status line is not modelled: it is wall-clock time and a float division that can divide by zero. `current_mode.upper()` is not modelled either; the status mark carries the mode string.
- `cv2.VideoCapture` I/O and the endless `while True` are modelled as a finite sequence of read results. A persistently failing camera therefore yields no chunks rather than a busy loop.
- Flask routing, `render_template`, the response mimetype and the unused `fps_limit` are not modelled. The races between `threaded=True` request handlers and the stream on the shared globals are also left out: the model is sequential, and each stream reads the controls once.
- TrackingApp.Pipeline.GenFrames: states only the number of tracker inputs and how the frames are stamped, not each frame's detections. `ProcessFrame` and `EmitFrame` state those per frame.
