/**
 * The YOLO detector as both apps use it: an opaque prediction on a frame,
 * filtered down to the boxes whose class name is "person".
 */
module Detections {
  import opened Common
  import opened Imaging

  /** One entry of `r.boxes`: the class index `int(box.cls[0])` and the float corners `box.xyxy[0]`. */
  datatype RawBox = RawBox(cls: int, x1: real, y1: real, x2: real, y2: real)

  /** What `model.predict` returns: a list of results, each holding a list of boxes. */
  type Results = seq<seq<RawBox>>

  /** The keyword arguments of `model.predict` that the apps set. */
  datatype PredictOptions = PredictOptions(imageSize: Option<nat>, confidence: real)

  /** The YOLO model: its prediction on a frame and its class-name table `model.names`. */
  datatype Detector = Detector(predict: (Image, PredictOptions) -> Results, names: int -> string)

  predicate IsPerson(b: RawBox, names: int -> string) {
    names(b.cls) == "person"
  }

  /** `map(int, box.xyxy[0])`: each corner truncated toward zero. */
  function ToBox(b: RawBox): Box {
    Box(Truncate(b.x1), Truncate(b.y1), Truncate(b.x2), Truncate(b.y2))
  }

  /** The boxes of all results, in the order the two nested loops visit them. */
  function Flatten(results: Results): (boxes: seq<RawBox>)
    ensures forall i, b | 0 <= i < |results| && b in results[i] :: b in boxes
    decreases |results|
  {
    if results == [] then []
    else Flatten(results[..|results| - 1]) + results[|results| - 1]
  }

  /** The integer boxes of the person entries of `boxes`, in order. */
  function PersonBoxes(boxes: seq<RawBox>, names: int -> string): (kept: seq<Box>)
    ensures |kept| <= |boxes|
    decreases |boxes|
  {
    if boxes == [] then []
    else
      var last := boxes[|boxes| - 1];
      PersonBoxes(boxes[..|boxes| - 1], names) + (if IsPerson(last, names) then [ToBox(last)] else [])
  }

  /** Filtering distributes over concatenation, so detector order is kept. */
  lemma {:induction false} PersonBoxesAppend(a: seq<RawBox>, b: seq<RawBox>, names: int -> string)
    ensures PersonBoxes(a + b, names) == PersonBoxes(a, names) + PersonBoxes(b, names)
    decreases |b|
  {
    if b == [] {
      assert a + b == a;
    } else {
      var b' := b[..|b| - 1];
      var last := b[|b| - 1];
      var kept := if IsPerson(last, names) then [ToBox(last)] else [];
      assert (a + b)[..|a + b| - 1] == a + b';
      assert (a + b)[|a + b| - 1] == last;
      PersonBoxesAppend(a, b', names);
      calc {
        PersonBoxes(a + b, names);
        PersonBoxes(a + b', names) + kept;
        PersonBoxes(a, names) + PersonBoxes(b', names) + kept;
        PersonBoxes(a, names) + (PersonBoxes(b', names) + kept);
      }
    }
  }

  /** Everything kept comes from a person box of the input. */
  lemma {:induction false} PersonBoxesSound(boxes: seq<RawBox>, names: int -> string)
    ensures forall d | d in PersonBoxes(boxes, names) :: exists b :: b in boxes && IsPerson(b, names) && ToBox(b) == d
    decreases |boxes|
  {
    if boxes != [] {
      var prefix := boxes[..|boxes| - 1];
      PersonBoxesSound(prefix, names);
      forall d | d in PersonBoxes(boxes, names)
        ensures exists b :: b in boxes && IsPerson(b, names) && ToBox(b) == d
      {
        if d in PersonBoxes(prefix, names) {
          var b :| b in prefix && IsPerson(b, names) && ToBox(b) == d;
          assert b in boxes;
        } else {
          assert boxes[|boxes| - 1] in boxes;
        }
      }
    }
  }

  /** Every person box of the input is kept; nothing else is. */
  lemma {:induction false} PersonBoxesComplete(boxes: seq<RawBox>, names: int -> string)
    ensures forall b | b in boxes && IsPerson(b, names) :: ToBox(b) in PersonBoxes(boxes, names)
    decreases |boxes|
  {
    if boxes != [] {
      var prefix := boxes[..|boxes| - 1];
      PersonBoxesComplete(prefix, names);
      forall b | b in boxes && IsPerson(b, names)
        ensures ToBox(b) in PersonBoxes(boxes, names)
      {
        if b != boxes[|boxes| - 1] {
          assert b in prefix;
        }
      }
    }
  }

  /** A result list with no person box yields no detection at all. */
  lemma {:induction false} PersonBoxesNone(boxes: seq<RawBox>, names: int -> string)
    requires forall b | b in boxes :: !IsPerson(b, names)
    ensures PersonBoxes(boxes, names) == []
    decreases |boxes|
  {
    if boxes != [] {
      PersonBoxesNone(boxes[..|boxes| - 1], names);
    }
  }

  /** Flattening distributes over concatenation of result lists. */
  lemma {:induction false} FlattenAppend(a: Results, b: Results)
    ensures Flatten(a + b) == Flatten(a) + Flatten(b)
    decreases |b|
  {
    if b == [] {
      assert a + b == a;
    } else {
      var b' := b[..|b| - 1];
      assert (a + b)[..|a + b| - 1] == a + b';
      FlattenAppend(a, b');
    }
  }

  /** One step of the inner loop over `r.boxes`. */
  lemma PersonBoxesStep(results: Results, i: nat, j: nat, names: int -> string)
    requires i < |results| && j < |results[i]|
    ensures PersonBoxes(Flatten(results[..i]) + results[i][..j + 1], names)
         == PersonBoxes(Flatten(results[..i]) + results[i][..j], names)
            + (if IsPerson(results[i][j], names) then [ToBox(results[i][j])] else [])
  {
    var prefix := Flatten(results[..i]) + results[i][..j];
    assert Flatten(results[..i]) + results[i][..j + 1] == prefix + [results[i][j]];
    assert (prefix + [results[i][j]])[..|prefix|] == prefix;
  }

  /** After the inner loop has visited all of `results[i]`, the outer loop moves on. */
  lemma FlattenStep(results: Results, i: nat)
    requires i < |results|
    ensures Flatten(results[..i]) + results[i][..|results[i]|] == Flatten(results[..i + 1])
  {
    assert results[..i + 1][..i] == results[..i];
  }
}
