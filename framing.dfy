/**
 * The MJPEG response body of `/video_feed`: each processed frame, once
 * encoded, is sent as one body part of a `multipart/x-mixed-replace` stream
 * with boundary `frame` (the body-part framing of section 5.1.1 of RFC 2046).
 * Also the capture results that drive the stream.
 */
module Framing {
  import opened Common
  import opened Imaging

  newtype byte = x: int | 0 <= x < 256

  /** The bytes of a string of 8-bit characters. */
  function Ascii(s: string): (b: seq<byte>)
    requires forall i | 0 <= i < |s| :: s[i] as int < 256
    ensures |b| == |s| && forall i | 0 <= i < |s| :: b[i] as int == s[i] as int
  {
    seq(|s|, i requires 0 <= i < |s| => s[i] as int as byte)
  }

  /** The multipart boundary announced in the response's mimetype. */
  const Boundary := "frame"

  const Crlf: seq<byte> := Ascii("\r\n")

  /** The dash-boundary line, the one header field and the blank line that open every part. */
  const PartHeader: seq<byte> := Ascii("--" + Boundary + "\r\n" + "Content-Type: image/jpeg" + "\r\n\r\n")

  /** The chunk `gen_frames` yields for one encoded frame. */
  function FrameChunk(payload: seq<byte>): seq<byte> {
    PartHeader + payload + Crlf
  }

  /** Reads one part back: the payload between the opening lines and the closing CRLF. */
  function ParsePart(c: seq<byte>): (r: Option<seq<byte>>)
    ensures r.Some? ==> |r.value| + |PartHeader| + |Crlf| == |c|
  {
    if |c| >= |PartHeader| + |Crlf| && c[..|PartHeader|] == PartHeader && c[|c| - |Crlf|..] == Crlf
    then Some(c[|PartHeader|..|c| - |Crlf|])
    else None
  }

  /** Any payload, whatever bytes it holds, is recovered from its chunk. */
  lemma ParseFrameChunk(payload: seq<byte>)
    ensures ParsePart(FrameChunk(payload)) == Some(payload)
  {
  }

  /** Conversely, whatever parses as a part is exactly the chunk of its payload. */
  lemma ParsePartExact(c: seq<byte>, payload: seq<byte>)
    requires ParsePart(c) == Some(payload)
    ensures c == FrameChunk(payload)
  {
  }

  /** Distinct frames give distinct chunks. */
  lemma FrameChunkInjective(p: seq<byte>, q: seq<byte>)
    requires FrameChunk(p) == FrameChunk(q)
    ensures p == q
  {
    ParseFrameChunk(p);
    ParseFrameChunk(q);
  }

  /** The outcome of one `cap.read()`: failure, or success with a frame. */
  datatype ReadResult = ReadFailed | ReadOk(frame: Image)

  /** The frames of the successful reads, in order; failed reads are skipped. */
  function Delivered(attempts: seq<ReadResult>): seq<Image>
    decreases |attempts|
  {
    if attempts == [] then []
    else
      var last := attempts[|attempts| - 1];
      Delivered(attempts[..|attempts| - 1]) + (if last.ReadOk? then [last.frame] else [])
  }

  /** A frame is delivered exactly when some read returned it. */
  lemma {:induction false} DeliveredFrames(attempts: seq<ReadResult>)
    ensures forall f :: f in Delivered(attempts) <==> ReadOk(f) in attempts
    decreases |attempts|
  {
    if attempts != [] {
      var prefix := attempts[..|attempts| - 1];
      DeliveredFrames(prefix);
      assert attempts == prefix + [attempts[|attempts| - 1]];
    }
  }

  /** One frame at most is delivered per read. */
  lemma {:induction false} DeliveredBound(attempts: seq<ReadResult>)
    ensures |Delivered(attempts)| <= |attempts|
    ensures |Delivered(attempts)| == |attempts| <==> forall i | 0 <= i < |attempts| :: attempts[i].ReadOk?
    decreases |attempts|
  {
    if attempts != [] {
      var prefix := attempts[..|attempts| - 1];
      DeliveredBound(prefix);
      if |Delivered(attempts)| == |attempts| {
        forall i | 0 <= i < |attempts| ensures attempts[i].ReadOk? {
          if i < |attempts| - 1 {
            assert attempts[i] == prefix[i];
          }
        }
      }
    }
  }

  /** The loop of `gen_frames` attempts one more result. */
  lemma DeliveredStep(attempts: seq<ReadResult>, i: nat)
    requires i < |attempts|
    ensures attempts[i].ReadOk? ==> Delivered(attempts[..i + 1]) == Delivered(attempts[..i]) + [attempts[i].frame]
    ensures attempts[i].ReadFailed? ==> Delivered(attempts[..i + 1]) == Delivered(attempts[..i])
  {
    assert attempts[..i + 1][..i] == attempts[..i];
    assert Delivered(attempts[..i]) + [] == Delivered(attempts[..i]);
  }
}
