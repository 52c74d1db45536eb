/**
 * The camera app: colour controls, then one of four rendering paths chosen
 * by the mode string (person boxes, thermal, edge, night), anything else
 * passing the adjusted frame through; the processed frames are streamed as
 * MJPEG at JPEG quality 75.
 */
module CamApp {
  import opened Common
  import opened Controls
  import opened Imaging
  import opened Detections
  import opened Framing

  /** `model.predict(source=frame, conf=0.4, ...)`: the model's default image size. */
  const PredictSettings := PredictOptions(None, 0.4)

  /** `IMWRITE_JPEG_QUALITY` given to `imencode`. */
  const JpegQuality: nat := 75

  /** The two thresholds of `cv2.Canny`. */
  const CannyLow := 60
  const CannyHigh := 150

  /** The branches of `process_frame`'s if/elif chain. */
  datatype RenderPath = PersonOverlay | Thermal | Edge | Night | Passthrough

  /** The branch taken for a mode string; any string the chain does not name passes through. */
  function PathOf(mode: string): RenderPath {
    if mode == "yolo" then PersonOverlay
    else if mode == "thermal" then Thermal
    else if mode == "edge" then Edge
    else if mode == "night" then Night
    else Passthrough
  }

  /** The mode string that selects a path. */
  function ModeName(path: RenderPath): string
    requires path != Passthrough
  {
    match path
    case PersonOverlay => "yolo"
    case Thermal => "thermal"
    case Edge => "edge"
    case Night => "night"
  }

  /** Each of the four named paths is reached by exactly its own mode string. */
  lemma PathOfModeName(path: RenderPath, mode: string)
    requires path != Passthrough
    ensures PathOf(ModeName(path)) == path
    ensures PathOf(mode) == path <==> mode == ModeName(path)
  {
  }

  /** Exactly the strings other than the four names pass through; "normal" is one of them. */
  lemma PassthroughModes(mode: string)
    ensures PathOf(mode) == Passthrough <==> mode != "yolo" && mode != "thermal" && mode != "edge" && mode != "night"
    ensures PathOf("normal") == Passthrough
  {
  }

  /** One green box captioned "Human" per person box. */
  function Humans(boxes: seq<Box>): seq<Mark> {
    seq(|boxes|, i requires 0 <= i < |boxes| => BoxMark(boxes[i], Human))
  }

  /** The rendering of one path from the adjusted frame and, for the overlay, its person boxes. */
  function Render(path: RenderPath, adjusted: Image, persons: seq<Box>): Picture {
    match path
    case PersonOverlay => Picture(adjusted, Humans(persons))
    case Thermal => Picture(GrayColormap(adjusted, Jet), [])
    case Edge => Picture(EdgeMap(adjusted, CannyLow, CannyHigh), [])
    case Night => Picture(GrayColormap(adjusted, Ocean), [])
    case Passthrough => Picture(adjusted, [])
  }

  /** What `process_frame(frame, mode)` returns under the controls `settings`. */
  function Processed(frame: Image, mode: string, settings: Settings, model: Detector): Picture {
    var adjusted := ColorAdjusted(frame, settings);
    var persons := if mode == "yolo"
      then PersonBoxes(Flatten(model.predict(adjusted, PredictSettings)), model.names)
      else [];
    Render(PathOf(mode), adjusted, persons)
  }

  /** The nested loops of the "yolo" branch: a box and a "Human" caption drawn per person box. */
  method DrawPersons(frame: Picture, results: Results, names: int -> string) returns (drawn: Picture)
    ensures drawn == frame.(marks := frame.marks + Humans(PersonBoxes(Flatten(results), names)))
  {
    drawn := frame;
    var i := 0;
    while i < |results|
      invariant 0 <= i <= |results|
      invariant drawn == frame.(marks := frame.marks + Humans(PersonBoxes(Flatten(results[..i]), names)))
    {
      var boxes := results[i];
      var j := 0;
      assert Flatten(results[..i]) + boxes[..0] == Flatten(results[..i]);
      while j < |boxes|
        invariant 0 <= j <= |boxes|
        invariant drawn == frame.(marks := frame.marks + Humans(PersonBoxes(Flatten(results[..i]) + boxes[..j], names)))
      {
        PersonBoxesStep(results, i, j, names);
        if names(boxes[j].cls) == "person" {
          drawn := drawn.(marks := drawn.marks + [BoxMark(ToBox(boxes[j]), Human)]);
        }
        j := j + 1;
      }
      FlattenStep(results, i);
      i := i + 1;
    }
    assert results[..i] == results;
  }

  /** `process_frame`: adjust the colours, then follow the if/elif chain on the mode. */
  method ProcessFrame(frame: Image, mode: string, settings: Settings, model: Detector) returns (out: Picture)
    ensures out == Processed(frame, mode, settings, model)
  {
    var adjusted := ColorAdjusted(frame, settings);
    out := Picture(adjusted, []);
    if mode == "yolo" {
      var results := model.predict(adjusted, PredictSettings);
      out := DrawPersons(out, results, model.names);
    } else if mode == "thermal" {
      out := Picture(GrayColormap(adjusted, Jet), []);
    } else if mode == "edge" {
      out := Picture(EdgeMap(adjusted, CannyLow, CannyHigh), []);
    } else if mode == "night" {
      out := Picture(GrayColormap(adjusted, Ocean), []);
    }
  }

  /** Outside "yolo" the detector's answer has no influence: the detector is never consulted. */
  lemma DetectorOnlyInYolo(frame: Image, mode: string, settings: Settings, m1: Detector, m2: Detector)
    requires mode != "yolo"
    ensures Processed(frame, mode, settings, m1) == Processed(frame, mode, settings, m2)
  {
  }

  /**
   * In "yolo" the adjusted frame keeps its pixels and gains one "Human" box
   * for each person box of the prediction, in detector order, and nothing else.
   */
  lemma YoloDrawsPersons(frame: Image, settings: Settings, model: Detector)
    ensures var p := Processed(frame, "yolo", settings, model);
      var boxes := Flatten(model.predict(ColorAdjusted(frame, settings), PredictSettings));
      && p.image == ColorAdjusted(frame, settings)
      && (forall m | m in p.marks :: m.BoxMark? && m.caption == Human
            && exists b :: b in boxes && IsPerson(b, model.names) && ToBox(b) == m.box)
      && (forall b | b in boxes && IsPerson(b, model.names) :: BoxMark(ToBox(b), Human) in p.marks)
  {
    var boxes := Flatten(model.predict(ColorAdjusted(frame, settings), PredictSettings));
    var persons := PersonBoxes(boxes, model.names);
    PersonBoxesSound(boxes, model.names);
    PersonBoxesComplete(boxes, model.names);
    var p := Processed(frame, "yolo", settings, model);
    assert p.marks == Humans(persons);
    forall m | m in p.marks
      ensures m.BoxMark? && m.caption == Human
      ensures exists b :: b in boxes && IsPerson(b, model.names) && ToBox(b) == m.box
    {
      var k :| 0 <= k < |p.marks| && p.marks[k] == m;
      assert persons[k] in persons;
    }
    forall b | b in boxes && IsPerson(b, model.names)
      ensures BoxMark(ToBox(b), Human) in p.marks
    {
      var k :| 0 <= k < |persons| && persons[k] == ToBox(b);
      assert p.marks[k] == BoxMark(ToBox(b), Human);
    }
  }

  /** The other paths: which image each mode yields, and that none of them draws anything. */
  lemma RenderingPaths(frame: Image, mode: string, settings: Settings, model: Detector)
    ensures var p := Processed(frame, mode, settings, model);
      var adjusted := ColorAdjusted(frame, settings);
      && (mode == "thermal" ==> p == Picture(GrayColormap(adjusted, Jet), []))
      && (mode == "edge" ==> p == Picture(EdgeMap(adjusted, 60, 150), []))
      && (mode == "night" ==> p == Picture(GrayColormap(adjusted, Ocean), []))
      && (PathOf(mode) == Passthrough ==> p == Picture(adjusted, []))
  {
  }

  /** The chunk `gen_frames` yields for a delivered frame under the controls `s`. */
  function FrameChunkFor(frame: Image, s: Settings, model: Detector, encode: (Picture, Option<nat>) -> seq<byte>): seq<byte> {
    FrameChunk(encode(Stamped(Processed(frame, s.mode, s, model), s.mode), Some(JpegQuality)))
  }

  /** The chunks for a run of delivered frames, in order. */
  function Chunks(frames: seq<Image>, s: Settings, model: Detector, encode: (Picture, Option<nat>) -> seq<byte>): (chunks: seq<seq<byte>>)
    ensures |chunks| == |frames|
    decreases |frames|
  {
    if frames == [] then []
    else Chunks(frames[..|frames| - 1], s, model, encode) + [FrameChunkFor(frames[|frames| - 1], s, model, encode)]
  }

  /** One chunk per delivered frame, the k-th carrying the k-th frame. */
  lemma {:induction false} ChunksAt(frames: seq<Image>, s: Settings, model: Detector, encode: (Picture, Option<nat>) -> seq<byte>, k: nat)
    requires k < |frames|
    ensures |Chunks(frames, s, model, encode)| == |frames|
    ensures Chunks(frames, s, model, encode)[k] == FrameChunkFor(frames[k], s, model, encode)
    decreases |frames|
  {
    var prefix := frames[..|frames| - 1];
    if k < |frames| - 1 {
      ChunksAt(prefix, s, model, encode, k);
    } else if prefix != [] {
      ChunksAt(prefix, s, model, encode, 0);
    }
  }

  /**
   * `gen_frames` over a finite run of capture attempts: failed reads are
   * skipped; every successful read is processed with the current controls,
   * stamped with the status line, encoded at quality 75 and framed as one chunk.
   */
  method GenFrames(store: ControlStore, attempts: seq<ReadResult>, model: Detector, encode: (Picture, Option<nat>) -> seq<byte>)
    returns (chunks: seq<seq<byte>>)
    ensures chunks == Chunks(Delivered(attempts), store.Snapshot(), model, encode)
  {
    chunks := [];
    var i := 0;
    while i < |attempts|
      invariant 0 <= i <= |attempts|
      invariant chunks == Chunks(Delivered(attempts[..i]), store.Snapshot(), model, encode)
    {
      DeliveredStep(attempts, i);
      if attempts[i].ReadOk? {
        var processed := ProcessFrame(attempts[i].frame, store.currentMode, store.Snapshot(), model);
        var stamped := Stamped(processed, store.currentMode);
        var payload := encode(stamped, Some(JpegQuality));
        chunks := chunks + [FrameChunk(payload)];
        ghost var before := Delivered(attempts[..i]);
        assert (before + [attempts[i].frame])[..|before|] == before;
      }
      i := i + 1;
    }
    assert attempts[..i] == attempts;
  }

  /** Every chunk of the stream parses back to the JPEG bytes of its frame. */
  lemma StreamParses(attempts: seq<ReadResult>, s: Settings, model: Detector, encode: (Picture, Option<nat>) -> seq<byte>, k: nat)
    requires k < |Delivered(attempts)|
    ensures k < |Chunks(Delivered(attempts), s, model, encode)|
    ensures ParsePart(Chunks(Delivered(attempts), s, model, encode)[k])
         == Some(encode(Stamped(Processed(Delivered(attempts)[k], s.mode, s, model), s.mode), Some(JpegQuality)))
  {
    ChunksAt(Delivered(attempts), s, model, encode, k);
    ParseFrameChunk(encode(Stamped(Processed(Delivered(attempts)[k], s.mode, s, model), s.mode), Some(JpegQuality)));
  }
}
