/** The image values the automation script passes around, and the OpenCV
    operations it calls. The pixel numerics of OpenCV are not modelled: each
    operation the script uses is a field of type arrow in `OpenCv`, so every
    property proved below holds for whatever those operations compute. */
module Imaging {

  /** A pixel position (x to the right, y downwards). */
  datatype Point = Point(x: int, y: int)

  /** A single-channel image; only its canvas size matters to the model. */
  datatype Gray = Gray(width: nat, height: nat, pixels: seq<int>)

  /** A four-channel (BGRA) bitmap as captured from a window. */
  datatype Bgra = Bgra(width: nat, height: nat, pixels: seq<int>)

  /** A window rectangle `(left, top, right, bottom)` in screen coordinates. */
  datatype Rect = Rect(left: int, top: int, right: int, bottom: int)

  /** One successful screen capture: the bitmap and the window's rectangle. */
  datatype Capture = Capture(frame: Bgra, rect: Rect)

  /** The maximum of a normalised correlation surface and where it is. */
  datatype Peak = Peak(maxVal: real, maxLoc: Point)

  /** The 2x3 matrix of `getRotationMatrix2D(center, angle, scale)`, kept symbolic. */
  datatype Affine = RotationMatrix(center: Point, angle: int, scale: real)

  /** The OpenCV calls of the script, as uninterpreted operations:
      - `matchPeak(image, template)`: the maximum value and location reported by
        `minMaxLoc` on `matchTemplate(image, template, TM_CCOEFF_NORMED)`;
      - `warpPixels(src, m, w, h)`: the pixels `warpAffine` writes on a canvas of
        size `(w, h)` (bicubic interpolation);
      - `toGray(frame)`: `cvtColor(frame, COLOR_BGRA2GRAY)`, which keeps the size. */
  datatype OpenCv = OpenCv(
    matchPeak: (Gray, Gray) -> Peak,
    warpPixels: (Gray, Affine, nat, nat) -> seq<int>,
    toGray: Bgra -> Gray)

  /** `warpAffine(src, m, (w, h))`: the output canvas is the requested size. */
  function WarpAffine(cv: OpenCv, src: Gray, m: Affine, w: nat, h: nat): (r: Gray)
    ensures r.width == w && r.height == h
  {
    Gray(w, h, cv.warpPixels(src, m, w, h))
  }

  /** The acceptance threshold every detector compares its best score against. */
  const Threshold: real := 0.8

  /** A score is accepted only when it is strictly above the threshold. */
  predicate Accepted(score: real)
  {
    score > Threshold
  }

  /** The Python exceptions the core can raise. */
  datatype Error =
    | TemplateNotLoaded   // `template.shape` on the `None` that `imread` returns
    | ZeroStep            // `range(0, 360, 0)`
    | EmptySequence       // `max()` of an empty sequence
    | Unpickling          // `pickle.load` on a file that is present but unreadable

  datatype Option<+T> = None | Some(value: T)

  datatype Result<+T> = Ok(value: T) | Err(error: Error) {
    predicate IsFailure() { Err? }
    function PropagateFailure<U>(): Result<U> requires Err? { Err(error) }
    function Extract(): T requires Ok? { value }
  }
}
