/**
 * Frames as the apps see them. OpenCV's pixel operations stay opaque: an
 * image is a term recording which operations, with which constants, produced
 * it from a captured frame. Drawing on a frame adds marks to it.
 */
module Imaging {
  import opened Controls
  import Brightness

  /** The false-colour palettes handed to `cv2.applyColorMap`. */
  datatype Palette = Jet | Ocean

  datatype Image =
    | Captured(index: nat)                            // a frame delivered by `cap.read()`
    | ScaleAbs(src: Image, alpha: real, beta: real)   // `cv2.convertScaleAbs(src, alpha, beta)`
    | SaturationScaled(src: Image, factor: real)      // BGR to HSV, S channel times factor, clip to [0,255], back to BGR
    | GrayColormap(src: Image, palette: Palette)      // BGR to grayscale, then `applyColorMap`
    | EdgeMap(src: Image, low: int, high: int)        // `Canny(src, low, high)`, expanded back to three channels

  /** An axis-aligned box in integer pixel coordinates. */
  datatype Box = Box(x1: int, y1: int, x2: int, y2: int)

  /** The text drawn next to a box. */
  datatype Caption = Human | TrackId(id: int)

  datatype Mark =
    | BoxMark(box: Box, caption: Caption)  // a rectangle at `box` with its caption above it
    | StatusMark(mode: string)             // the status line: the mode upper-cased, then the FPS

  /** A frame together with everything drawn on it so far, in drawing order. */
  datatype Picture = Picture(image: Image, marks: seq<Mark>)

  /** Python's `int(x)` on a float: truncation toward zero. */
  function Truncate(x: real): (n: int)
    ensures 0.0 <= x ==> n as real <= x < n as real + 1.0
    ensures x < 0.0 ==> n as real - 1.0 < x <= n as real
  {
    if x >= 0.0 then x.Floor else -((-x).Floor)
  }

  /**
   * `apply_color_controls`: contrast as the gain and the brightness offset
   * of `convertScaleAbs`, then saturation scaled and clipped. Modules
   * `Brightness` and `Saturation` give the two stages pixel by pixel.
   */
  function ColorAdjusted(frame: Image, s: Settings): Image {
    SaturationScaled(ScaleAbs(frame, s.contrast, Brightness.Offset(s.brightness)), s.saturation)
  }

  /** The status line `gen_frames` writes on every frame before encoding it. */
  function Stamped(p: Picture, mode: string): (q: Picture)
    ensures q.image == p.image && |q.marks| == |p.marks| + 1 && q.marks[..|p.marks|] == p.marks && q.marks[|p.marks|..] == [StatusMark(mode)]
  {
    p.(marks := p.marks + [StatusMark(mode)])
  }
}
