/**
 * The saturation stage of `apply_color_controls`, pixel by pixel: the HSV
 * frame as a float array, its S channel multiplied in place by the
 * saturation factor, then every channel clipped to [0,255] and converted
 * back to 8-bit. Reals stand for float32; its rounding is not modelled.
 */
module Saturation {

  /** One pixel of the float HSV array. */
  datatype Hsv = Hsv(h: real, s: real, v: real)

  /** One pixel after the conversion back to `uint8`. */
  datatype Hsv8 = Hsv8(h: int, s: int, v: int)

  /** A value that came from a `uint8` channel: an integer in [0,255]. */
  predicate IsByte(x: real) {
    0.0 <= x <= 255.0 && x.Floor as real == x
  }

  predicate IsBytePixel(p: Hsv) {
    IsByte(p.h) && IsByte(p.s) && IsByte(p.v)
  }

  predicate InRange(q: Hsv8) {
    0 <= q.h <= 255 && 0 <= q.s <= 255 && 0 <= q.v <= 255
  }

  /** `np.clip(x, 0, 255)`. */
  function Clip(x: real): (r: real)
    ensures 0.0 <= r <= 255.0
    ensures 0.0 <= x <= 255.0 ==> r == x
    ensures x < 0.0 ==> r == 0.0
    ensures x > 255.0 ==> r == 255.0
  {
    if x < 0.0 then 0.0 else if x > 255.0 then 255.0 else x
  }

  /** `astype("uint8")` of a clipped value: the fraction is dropped. */
  function ToUint8(x: real): (n: int)
    requires 0.0 <= x <= 255.0
    ensures 0 <= n <= 255 && n as real <= x < n as real + 1.0
  {
    x.Floor
  }

  /** `hsv[:, :, 1] *= factor` on one pixel. */
  function Scaled(p: Hsv, factor: real): Hsv {
    p.(s := p.s * factor)
  }

  function ScaledAll(px: seq<Hsv>, factor: real): (scaled: seq<Hsv>)
    ensures |scaled| == |px|
    ensures forall i | 0 <= i < |px| :: scaled[i].h == px[i].h && scaled[i].v == px[i].v
  {
    seq(|px|, i requires 0 <= i < |px| => Scaled(px[i], factor))
  }

  /** `np.clip(hsv, 0, 255).astype("uint8")` on one pixel. */
  function Clipped(p: Hsv): Hsv8 {
    Hsv8(ToUint8(Clip(p.h)), ToUint8(Clip(p.s)), ToUint8(Clip(p.v)))
  }

  function ClippedAll(px: seq<Hsv>): (clipped: seq<Hsv8>)
    ensures |clipped| == |px|
  {
    seq(|px|, i requires 0 <= i < |px| => Clipped(px[i]))
  }

  /** The pixel a `uint8` HSV pixel was read from. */
  function Bytes(p: Hsv): Hsv8 {
    Hsv8(p.h.Floor, p.s.Floor, p.v.Floor)
  }

  /** The S channel scaled in place, one pixel at a time. */
  method ScaleSaturationChannel(hsv: array<Hsv>, factor: real)
    modifies hsv
    ensures hsv[..] == ScaledAll(old(hsv[..]), factor)
  {
    for i := 0 to hsv.Length
      invariant forall k | 0 <= k < i :: hsv[k] == Scaled(old(hsv[k]), factor)
      invariant forall k | i <= k < hsv.Length :: hsv[k] == old(hsv[k])
    {
      hsv[i] := Scaled(hsv[i], factor);
    }
  }

  /** The whole stage: scale S in place, then clip and convert to 8-bit. */
  method AdjustSaturation(hsv: array<Hsv>, factor: real) returns (out: seq<Hsv8>)
    modifies hsv
    ensures hsv[..] == ScaledAll(old(hsv[..]), factor)
    ensures out == ClippedAll(ScaledAll(old(hsv[..]), factor))
  {
    ScaleSaturationChannel(hsv, factor);
    out := ClippedAll(hsv[..]);
  }

  /** Whatever the factor, even negative or huge, every output channel is a valid 8-bit value. */
  lemma ClippedAllInRange(px: seq<Hsv>, factor: real)
    ensures forall i | 0 <= i < |px| :: InRange(ClippedAll(ScaledAll(px, factor))[i])
  {
  }

  /** Only saturation moves: hue and value of an 8-bit input come back unchanged. */
  lemma HueAndValueKept(px: seq<Hsv>, factor: real)
    requires forall i | 0 <= i < |px| :: IsBytePixel(px[i])
    ensures |ClippedAll(ScaledAll(px, factor))| == |px|
    ensures forall i | 0 <= i < |px| ::
      ClippedAll(ScaledAll(px, factor))[i].h == Bytes(px[i]).h && ClippedAll(ScaledAll(px, factor))[i].v == Bytes(px[i]).v
  {
  }

  /** At the default factor 1.0 the stage gives back the 8-bit input exactly. */
  lemma IdentityAtDefault(px: seq<Hsv>)
    requires forall i | 0 <= i < |px| :: IsBytePixel(px[i])
    ensures ClippedAll(ScaledAll(px, 1.0)) == seq(|px|, i requires 0 <= i < |px| => Bytes(px[i]))
  {
  }

  /** A factor of zero or less removes all colour: S becomes 0. */
  lemma NonPositiveFactorGrays(px: seq<Hsv>, factor: real)
    requires factor <= 0.0
    requires forall i | 0 <= i < |px| :: IsBytePixel(px[i])
    ensures forall i | 0 <= i < |px| :: ClippedAll(ScaledAll(px, factor))[i].s == 0
  {
    forall i | 0 <= i < |px|
      ensures ClippedAll(ScaledAll(px, factor))[i].s == 0
    {
      var p := Scaled(px[i], factor);
      ProductMonotone(px[i].s, factor, 0.0);
      assert p.s <= 0.0;
      assert ScaledAll(px, factor)[i] == p;
    }
  }

  /** Over non-negative S values, raising the factor never lowers any pixel's 8-bit saturation. */
  lemma SaturationMonotone(px: seq<Hsv>, f: real, g: real)
    requires f <= g
    requires forall i | 0 <= i < |px| :: 0.0 <= px[i].s
    ensures forall i | 0 <= i < |px| ::
      ClippedAll(ScaledAll(px, f))[i].s <= ClippedAll(ScaledAll(px, g))[i].s
  {
    forall i | 0 <= i < |px|
      ensures ClippedAll(ScaledAll(px, f))[i].s <= ClippedAll(ScaledAll(px, g))[i].s
    {
      PixelSaturationMonotone(px[i], f, g);
      assert ScaledAll(px, f)[i] == Scaled(px[i], f) && ScaledAll(px, g)[i] == Scaled(px[i], g);
    }
  }

  lemma PixelSaturationMonotone(p: Hsv, f: real, g: real)
    requires 0.0 <= p.s && f <= g
    ensures Clipped(Scaled(p, f)).s <= Clipped(Scaled(p, g)).s
  {
    var pf, pg := Scaled(p, f), Scaled(p, g);
    ProductMonotone(p.s, f, g);
    assert pf.s <= pg.s;
    ClippedByteMonotone(pf.s, pg.s);
  }

  lemma ClippedByteMonotone(u: real, v: real)
    requires u <= v
    ensures ToUint8(Clip(u)) <= ToUint8(Clip(v))
  {
  }

  lemma ProductMonotone(x: real, f: real, g: real)
    requires 0.0 <= x && f <= g
    ensures x * f <= x * g
  {
  }
}
