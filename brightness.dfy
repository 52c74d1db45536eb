/**
 * The first stage of `apply_color_controls` on one 8-bit channel value:
 * `cv2.convertScaleAbs(frame, alpha=contrast, beta=(brightness - 1) * 50)`,
 * which computes `|alpha * x + beta|`, rounds it to the nearest integer and
 * saturates it to [0,255]. OpenCV computes `alpha * x + beta` in float32;
 * reals stand for it, and its rounding is not modelled.
 */
module Brightness {

  /** The offset `apply_color_controls` derives from the brightness control. */
  function Offset(brightness: real): (beta: real)
    ensures brightness == 1.0 ==> beta == 0.0
    ensures brightness > 1.0 ==> beta > 0.0
    ensures brightness < 1.0 ==> beta < 0.0
  {
    (brightness - 1.0) * 50.0
  }

  function Abs(x: real): (r: real)
    ensures 0.0 <= r && (r == x || r == -x)
  {
    if x < 0.0 then -x else x
  }

  /** `cvRound`: the nearest integer, ties going to the even one. */
  function Round(x: real): (n: int)
    ensures n as real - 0.5 <= x <= n as real + 0.5
    ensures x.Floor as real == x ==> n == x.Floor
  {
    var f := x.Floor;
    var d := x - f as real;
    if d < 0.5 then f
    else if d > 0.5 then f + 1
    else if f % 2 == 0 then f
    else f + 1
  }

  /** `saturate_cast<uchar>` of an integer. */
  function SaturateByte(n: int): (b: int)
    ensures 0 <= b <= 255
    ensures 0 <= n <= 255 ==> b == n
    ensures n < 0 ==> b == 0
    ensures n > 255 ==> b == 255
  {
    if n < 0 then 0 else if n > 255 then 255 else n
  }

  /** `convertScaleAbs` on one channel value. */
  function ScaleAbs(x: int, alpha: real, beta: real): (r: int)
    ensures 0 <= r <= 255
  {
    SaturateByte(Round(Abs(alpha * x as real + beta)))
  }

  /** `convertScaleAbs` on every channel value of a frame. */
  function ScaleAbsAll(px: seq<int>, alpha: real, beta: real): (r: seq<int>)
    ensures |r| == |px|
    ensures forall i | 0 <= i < |r| :: 0 <= r[i] <= 255
  {
    seq(|px|, i requires 0 <= i < |px| => ScaleAbs(px[i], alpha, beta))
  }

  /** At the default controls (contrast 1.0, brightness 1.0) an 8-bit frame comes back unchanged. */
  lemma IdentityAtDefault(px: seq<int>)
    requires forall i | 0 <= i < |px| :: 0 <= px[i] <= 255
    ensures ScaleAbsAll(px, 1.0, Offset(1.0)) == px
  {
  }

  /** Rounding never reverses the order of two values. */
  lemma RoundMonotone(x: real, y: real)
    requires x <= y
    ensures Round(x) <= Round(y)
  {
  }

  /**
   * Where the control brightens (brightness at least 1.0, so the offset is
   * non-negative) and the contrast is non-negative, turning the brightness
   * up never darkens a channel.
   */
  lemma BrightnessMonotone(x: int, contrast: real, b1: real, b2: real)
    requires 0 <= x && 0.0 <= contrast
    requires 1.0 <= b1 <= b2
    ensures ScaleAbs(x, contrast, Offset(b1)) <= ScaleAbs(x, contrast, Offset(b2))
  {
  }

  /**
   * The absolute value makes the offset's sign invisible on a black channel:
   * brightness `1 + d` and `1 - d` give the same value, so the adjusted frame
   * does not determine the brightness control.
   */
  lemma MirroredBrightnessOnBlack(contrast: real, d: real)
    ensures ScaleAbs(0, contrast, Offset(1.0 + d)) == ScaleAbs(0, contrast, Offset(1.0 - d))
  {
  }

  /** Contrast 0.0 wipes out the picture: every channel takes the same value, set by the brightness alone. */
  lemma ZeroContrastUniform(px: seq<int>, brightness: real)
    ensures forall i | 0 <= i < |px| ::
      ScaleAbsAll(px, 0.0, Offset(brightness))[i] == SaturateByte(Round(Abs(Offset(brightness))))
  {
  }
}
