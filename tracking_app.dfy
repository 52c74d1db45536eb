/**
 * The tracking app: colour controls, then in mode "yolo" a person detector
 * run on every third such frame and a SORT tracker fed on every such frame,
 * with the tracks drawn as numbered boxes; the processed frames are streamed
 * as MJPEG.
 *
 * The tracker's internals are not modelled: a tracker is the history of the
 * detection lists given to `update`, and its reply is a fixed function of
 * that history.
 */
module TrackingApp {
  import opened Common
  import opened Controls
  import opened Imaging
  import opened Detections
  import opened Framing

  /** `DETECT_EVERY`: the detector runs on every third "yolo" frame. */
  const DetectEvery: nat := 3

  /** `model.predict(frame, imgsz=320, conf=0.4, ...)`. */
  const PredictSettings := PredictOptions(Some(320), 0.4)

  /** The fixed score given to every person box handed to the tracker. */
  const PersonScore := 0.9

  /** The constructor arguments of `Sort`. */
  datatype SortConfig = SortConfig(maxAge: nat, minHits: nat, iouThreshold: real)

  /** `Sort(max_age=5, min_hits=2, iou_threshold=0.3)`. */
  const TrackerConfig := SortConfig(5, 2, 0.3)

  /** A row `[x1, y1, x2, y2, 0.9]` of the array handed to the tracker. */
  datatype Detection = Detection(box: Box, score: real)

  /** A row `[x1, y1, x2, y2, id]` of the tracker's float output. */
  datatype TrackRow = TrackRow(x1: real, y1: real, x2: real, y2: real, id: real)

  /** The detector runs on the frame whose incremented counter is `counter`. */
  predicate DetectsAt(counter: nat) {
    counter % DetectEvery == 0
  }

  /** Person boxes as tracker input rows, each scored `PersonScore`. */
  function Scored(boxes: seq<Box>): seq<Detection> {
    seq(|boxes|, i requires 0 <= i < |boxes| => Detection(boxes[i], PersonScore))
  }

  /** The detection list built from one prediction. */
  function FrameDetections(results: Results, names: int -> string): seq<Detection> {
    Scored(PersonBoxes(Flatten(results), names))
  }

  /** The two nested loops over `results` and `r.boxes` that append one row per person box. */
  method CollectDetections(results: Results, names: int -> string) returns (dets: seq<Detection>)
    ensures dets == FrameDetections(results, names)
  {
    dets := [];
    var i := 0;
    while i < |results|
      invariant 0 <= i <= |results|
      invariant dets == Scored(PersonBoxes(Flatten(results[..i]), names))
    {
      var boxes := results[i];
      var j := 0;
      assert Flatten(results[..i]) + boxes[..0] == Flatten(results[..i]);
      while j < |boxes|
        invariant 0 <= j <= |boxes|
        invariant dets == Scored(PersonBoxes(Flatten(results[..i]) + boxes[..j], names))
      {
        PersonBoxesStep(results, i, j, names);
        if names(boxes[j].cls) == "person" {
          dets := dets + [Detection(ToBox(boxes[j]), PersonScore)];
        }
        j := j + 1;
      }
      FlattenStep(results, i);
      i := i + 1;
    }
    assert results[..i] == results;
  }

  /**
   * What the tracker receives from one prediction: only person boxes, all
   * scored 0.9, all of them, in detector order.
   */
  lemma FrameDetectionsSpec(results: Results, names: int -> string)
    ensures forall d | d in FrameDetections(results, names) ::
      d.score == PersonScore && exists b :: b in Flatten(results) && IsPerson(b, names) && ToBox(b) == d.box
    ensures forall b | b in Flatten(results) && IsPerson(b, names) ::
      Detection(ToBox(b), PersonScore) in FrameDetections(results, names)
    ensures forall a, b :: FrameDetections(a + b, names) == FrameDetections(a, names) + FrameDetections(b, names)
  {
    var boxes := Flatten(results);
    PersonBoxesSound(boxes, names);
    PersonBoxesComplete(boxes, names);
    forall d | d in FrameDetections(results, names)
      ensures d.score == PersonScore && exists b :: b in boxes && IsPerson(b, names) && ToBox(b) == d.box
    {
      var k :| 0 <= k < |FrameDetections(results, names)| && FrameDetections(results, names)[k] == d;
      assert d.box in PersonBoxes(boxes, names);
    }
    forall b | b in boxes && IsPerson(b, names)
      ensures Detection(ToBox(b), PersonScore) in FrameDetections(results, names)
    {
      var k :| 0 <= k < |PersonBoxes(boxes, names)| && PersonBoxes(boxes, names)[k] == ToBox(b);
      assert FrameDetections(results, names)[k] == Detection(ToBox(b), PersonScore);
    }
    forall a: Results, b: Results
      ensures FrameDetections(a + b, names) == FrameDetections(a, names) + FrameDetections(b, names)
    {
      FlattenAppend(a, b);
      PersonBoxesAppend(Flatten(a), Flatten(b), names);
    }
  }

  /** Over the next `n` "yolo" frames after counter value `start`, how many run the detector. */
  function DetectorRuns(start: nat, n: nat): (runs: nat)
    ensures runs <= n
    decreases n
  {
    if n == 0 then 0
    else DetectorRuns(start, n - 1) + (if DetectsAt(start + n) then 1 else 0)
  }

  /** The detector runs once per `DetectEvery` counter values: the multiples of 3 in (start, start + n]. */
  lemma {:induction false} DetectorRunsClosedForm(start: nat, n: nat)
    ensures DetectorRuns(start, n) == (start + n) / DetectEvery - start / DetectEvery
    decreases n
  {
    if n > 0 {
      DetectorRunsClosedForm(start, n - 1);
      var c := start + n;
      assert c / 3 == (c - 1) / 3 + (if c % 3 == 0 then 1 else 0);
    }
  }

  /** From a fresh counter, `n` "yolo" frames run the detector `n / 3` times (rounded down). */
  lemma DetectorRunsFromStart(n: nat)
    ensures DetectorRuns(0, n) == n / DetectEvery
  {
    DetectorRunsClosedForm(0, n);
  }

  /** `rectangle` and `putText(f"ID: {obj_id}")` for one tracker row, after `map(int, d)`. */
  function TrackMark(row: TrackRow): Mark {
    BoxMark(Box(Truncate(row.x1), Truncate(row.y1), Truncate(row.x2), Truncate(row.y2)), TrackId(Truncate(row.id)))
  }

  /** The marks drawn for the tracker's rows, in row order. */
  function TrackMarks(rows: seq<TrackRow>): (marks: seq<Mark>)
    ensures |marks| == |rows|
    decreases |rows|
  {
    if rows == [] then []
    else TrackMarks(rows[..|rows| - 1]) + [TrackMark(rows[|rows| - 1])]
  }

  /** One numbered box per tracker row, the k-th for the k-th row. */
  lemma {:induction false} TrackMarksAt(rows: seq<TrackRow>, k: nat)
    requires k < |rows|
    ensures |TrackMarks(rows)| == |rows|
    ensures TrackMarks(rows)[k] == TrackMark(rows[k])
    decreases |rows|
  {
    var prefix := rows[..|rows| - 1];
    if k < |rows| - 1 {
      TrackMarksAt(prefix, k);
    } else if prefix != [] {
      TrackMarksAt(prefix, 0);
    }
  }

  /**
   * The SORT tracker as the app sees it. `config` records the constructor
   * arguments only; they reach the replies solely through the `respond`
   * function given to the constructor.
   */
  class Tracker {
    const config: SortConfig
    /** The tracker's reply to the detection lists it has received so far. */
    const respond: seq<seq<Detection>> -> seq<TrackRow>
    /** The detection lists given to `update`, oldest first. */
    var inputs: seq<seq<Detection>>

    constructor (config: SortConfig, respond: seq<seq<Detection>> -> seq<TrackRow>)
      ensures this.config == config && this.respond == respond && inputs == []
    {
      this.config := config;
      this.respond := respond;
      inputs := [];
    }

    /** `tracker.update(detections)`: one more step of the tracker. */
    method Update(dets: seq<Detection>) returns (rows: seq<TrackRow>)
      modifies this
      ensures inputs == old(inputs) + [dets]
      ensures rows == respond(inputs)
    {
      inputs := inputs + [dets];
      rows := respond(inputs);
    }
  }

  /** `process_frame` with its globals `frame_counter`, `tracker` and `model`. */
  class Pipeline {
    const model: Detector
    const tracker: Tracker
    var frameCounter: nat
    /** The number of `model.predict` calls so far. */
    ghost var detectorRuns: nat

    constructor (model: Detector, respond: seq<seq<Detection>> -> seq<TrackRow>)
      ensures this.model == model && frameCounter == 0 && detectorRuns == 0
      ensures fresh(tracker) && tracker.config == TrackerConfig && tracker.respond == respond && tracker.inputs == []
    {
      this.model := model;
      tracker := new Tracker(TrackerConfig, respond);
      frameCounter := 0;
      detectorRuns := 0;
    }

    /**
     * The tracker input grew by exactly one list for the "yolo" frame with
     * counter `counter`: the detections on `image` when the detector ran on
     * it, the empty list otherwise.
     */
    predicate FedOnce(before: seq<seq<Detection>>, after: seq<seq<Detection>>, counter: nat, image: Image) {
      after == before + [if DetectsAt(counter) then FrameDetections(model.predict(image, PredictSettings), model.names) else []]
    }

    /**
     * The state after `n` frames streamed in `mode`, starting from counter
     * `counter0`, `runs0` detector runs and tracker history `inputs0`:
     * unchanged outside "yolo"; in "yolo" the counter rose by `n`, the
     * detector ran `DetectorRuns(counter0, n)` more times and the tracker
     * received `n` more lists.
     */
    ghost predicate Advanced(mode: string, counter0: nat, runs0: nat, inputs0: seq<seq<Detection>>, n: nat)
      reads this, tracker
    {
      if mode != "yolo" then
        frameCounter == counter0 && detectorRuns == runs0 && tracker.inputs == inputs0
      else
        frameCounter == counter0 + n && detectorRuns == runs0 + DetectorRuns(counter0, n) && |tracker.inputs| == |inputs0| + n
    }

    /** The picture carries the tracker's current rows as numbered boxes, then the status line. */
    predicate ShowsTracks(picture: Picture, mode: string)
      reads tracker
    {
      picture.marks == TrackMarks(tracker.respond(tracker.inputs)) + [StatusMark(mode)]
    }

    /**
     * Outside "yolo" the colour-adjusted frame is returned and nothing else
     * changes. In "yolo" the counter rises by one, the detector runs exactly
     * when the new counter is a multiple of 3, the tracker is fed exactly
     * once (an empty list when the detector did not run), and its rows are
     * drawn on the frame.
     */
    method ProcessFrame(frame: Image, mode: string, settings: Settings) returns (out: Picture)
      modifies this, tracker
      ensures out.image == ColorAdjusted(frame, settings)
      ensures mode != "yolo" ==>
        && out.marks == []
        && frameCounter == old(frameCounter) && detectorRuns == old(detectorRuns)
        && tracker.inputs == old(tracker.inputs)
      ensures mode == "yolo" ==>
        && frameCounter == old(frameCounter) + 1
        && detectorRuns == old(detectorRuns) + (if DetectsAt(frameCounter) then 1 else 0)
        && FedOnce(old(tracker.inputs), tracker.inputs, frameCounter, out.image)
        && out.marks == TrackMarks(tracker.respond(tracker.inputs))
    {
      var adjusted := ColorAdjusted(frame, settings);
      if mode != "yolo" {
        return Picture(adjusted, []);
      }
      frameCounter := frameCounter + 1;
      var detections: seq<Detection> := [];
      if frameCounter % DetectEvery == 0 {
        var results := model.predict(adjusted, PredictSettings);
        detectorRuns := detectorRuns + 1;
        detections := CollectDetections(results, model.names);
      }
      var rows := tracker.Update(detections);
      var marks: seq<Mark> := [];
      for i := 0 to |rows|
        invariant marks == TrackMarks(rows[..i])
      {
        assert rows[..i + 1][..i] == rows[..i];
        marks := marks + [TrackMark(rows[i])];
      }
      assert rows[..|rows|] == rows;
      out := Picture(adjusted, marks);
    }

    /**
     * One pass of the `gen_frames` loop after a successful read: process the
     * frame, stamp the status line, encode at the default quality and frame
     * the bytes as one chunk. `picture` is the frame that was encoded.
     */
    method EmitFrame(frame: Image, mode: string, settings: Settings, encode: (Picture, Option<nat>) -> seq<byte>)
      returns (chunk: seq<byte>, ghost picture: Picture)
      modifies this, tracker
      ensures chunk == FrameChunk(encode(picture, None))
      ensures picture.image == ColorAdjusted(frame, settings)
      ensures |picture.marks| > 0 && picture.marks[|picture.marks| - 1] == StatusMark(mode)
      ensures mode != "yolo" ==>
        && picture.marks == [StatusMark(mode)]
        && frameCounter == old(frameCounter) && detectorRuns == old(detectorRuns)
        && tracker.inputs == old(tracker.inputs)
      ensures mode == "yolo" ==>
        && frameCounter == old(frameCounter) + 1
        && detectorRuns == old(detectorRuns) + (if DetectsAt(frameCounter) then 1 else 0)
        && FedOnce(old(tracker.inputs), tracker.inputs, frameCounter, picture.image)
        && ShowsTracks(picture, mode)
    {
      var processed := ProcessFrame(frame, mode, settings);
      var stamped := Stamped(processed, mode);
      chunk := FrameChunk(encode(stamped, None));
      picture := stamped;
    }

    /**
     * `gen_frames` over a finite run of capture attempts: failed reads are
     * skipped and every successful read yields exactly one chunk, built by
     * `EmitFrame` with the current controls. `pictures` are the frames that
     * were encoded, in order.
     */
    method GenFrames(store: ControlStore, attempts: seq<ReadResult>, encode: (Picture, Option<nat>) -> seq<byte>)
      returns (chunks: seq<seq<byte>>, ghost pictures: seq<Picture>)
      modifies this, tracker
      ensures Streamed(chunks, pictures, Delivered(attempts), store.Snapshot(), encode)
      ensures store.currentMode != "yolo" ==>
        frameCounter == old(frameCounter) && detectorRuns == old(detectorRuns) && tracker.inputs == old(tracker.inputs)
      ensures store.currentMode == "yolo" ==>
        && frameCounter == old(frameCounter) + |chunks|
        && detectorRuns == old(detectorRuns) + DetectorRuns(old(frameCounter), |chunks|)
        && |tracker.inputs| == |old(tracker.inputs)| + |chunks|
    {
      var mode, settings := store.currentMode, store.Snapshot();
      ghost var delivered: seq<Image> := [];
      ghost var counter0, runs0, inputs0 := frameCounter, detectorRuns, tracker.inputs;
      chunks, pictures := [], [];
      var i := 0;
      while i < |attempts|
        invariant 0 <= i <= |attempts|
        invariant delivered == Delivered(attempts[..i])
        invariant Streamed(chunks, pictures, delivered, settings, encode)
        invariant Advanced(mode, counter0, runs0, inputs0, |chunks|)
      {
        DeliveredStep(attempts, i);
        if attempts[i].ReadOk? {
          var chunk;
          ghost var picture;
          chunk, picture := EmitFrame(attempts[i].frame, mode, settings, encode);
          StreamedAppend(chunks, pictures, delivered, settings, encode, chunk, picture, attempts[i].frame);
          chunks := chunks + [chunk];
          pictures := pictures + [picture];
          delivered := delivered + [attempts[i].frame];
        }
        i := i + 1;
      }
      assert attempts[..i] == attempts;
    }
  }

  /**
   * The stream of `frames` under the controls `settings`: one chunk per
   * frame, each the framed encoding of its picture; each picture is the
   * colour-adjusted frame with the status line drawn last, and outside
   * "yolo" nothing else is drawn.
   */
  ghost predicate Streamed(chunks: seq<seq<byte>>, pictures: seq<Picture>, frames: seq<Image>, settings: Settings,
                           encode: (Picture, Option<nat>) -> seq<byte>)
  {
    && |chunks| == |pictures| == |frames|
    && (forall k | 0 <= k < |chunks| :: chunks[k] == FrameChunk(encode(pictures[k], None)))
    && (forall k | 0 <= k < |pictures| :: pictures[k].image == ColorAdjusted(frames[k], settings))
    && (forall k | 0 <= k < |pictures| ::
          |pictures[k].marks| > 0 && pictures[k].marks[|pictures[k].marks| - 1] == StatusMark(settings.mode))
    && (settings.mode != "yolo" ==> forall k | 0 <= k < |pictures| :: pictures[k].marks == [StatusMark(settings.mode)])
  }

  /** The stream grows by one frame. */
  lemma StreamedAppend(chunks: seq<seq<byte>>, pictures: seq<Picture>, frames: seq<Image>, settings: Settings,
                       encode: (Picture, Option<nat>) -> seq<byte>, chunk: seq<byte>, picture: Picture, frame: Image)
    requires Streamed(chunks, pictures, frames, settings, encode)
    requires chunk == FrameChunk(encode(picture, None)) && picture.image == ColorAdjusted(frame, settings)
    requires |picture.marks| > 0 && picture.marks[|picture.marks| - 1] == StatusMark(settings.mode)
    requires settings.mode != "yolo" ==> picture.marks == [StatusMark(settings.mode)]
    ensures Streamed(chunks + [chunk], pictures + [picture], frames + [frame], settings, encode)
  {
  }
}
