/** Layering the header and the stroke canvas over the camera frame
    (Homepage.py, lines 142-150). */
module Compositor {
  import opened Palette

  /** A raster image: rows of pixels. */
  type Image = seq<seq<Color>>

  /** Gray levels above this count as painted. */
  const PaintThreshold: int := 5

  /** The inverse binary threshold: 0 where the canvas is painted, 255 elsewhere. */
  function InverseMask(level: int): bv8 {
    if level > PaintThreshold then 0 else 255
  }

  /** One output pixel: the frame masked by the inverse threshold, then OR-ed with
      the canvas. `gray` is the colour-to-gray conversion, left abstract. */
  function ComposePixel(frame: Color, canvas: Color, gray: Color -> int): (out: Color)
    ensures gray(canvas) > PaintThreshold ==> out == canvas
    ensures gray(canvas) <= PaintThreshold ==>
      out == Color(frame.b | canvas.b, frame.g | canvas.g, frame.r | canvas.r)
  {
    var m := InverseMask(gray(canvas));
    Color((frame.b & m) | canvas.b, (frame.g & m) | canvas.g, (frame.r & m) | canvas.r)
  }

  /** An unpainted black canvas pixel lets the frame through unchanged. */
  lemma BlankCanvasShowsFrame(frame: Color, gray: Color -> int)
    requires gray(Color(0, 0, 0)) <= PaintThreshold
    ensures ComposePixel(frame, Color(0, 0, 0), gray) == frame
  {
    assert frame.b | 0 == frame.b && frame.g | 0 == frame.g && frame.r | 0 == frame.r;
  }

  predicate SameShape(a: Image, b: Image) {
    |a| == |b| && forall i :: 0 <= i < |a| ==> |a[i]| == |b[i]|
  }

  /** The frame with its top 125 rows replaced by the header image. */
  function WithHeader(image: Image, header: Image): (r: Image)
    requires |header| == HeaderHeight <= |image|
    requires forall i :: 0 <= i < HeaderHeight ==> |header[i]| == |image[i]|
    ensures SameShape(r, image)
    ensures forall i :: 0 <= i < HeaderHeight ==> r[i] == header[i]
    ensures forall i :: HeaderHeight <= i < |image| ==> r[i] == image[i]
  {
    header + image[HeaderHeight..]
  }

  /** The canvas laid over the frame pixel by pixel. */
  function Composite(image: Image, canvas: Image, gray: Color -> int): (out: Image)
    requires SameShape(canvas, image)
    ensures SameShape(out, image)
    ensures forall i, j :: 0 <= i < |out| && 0 <= j < |out[i]| ==>
      out[i][j] == (if gray(canvas[i][j]) > PaintThreshold then canvas[i][j]
                    else Color(image[i][j].b | canvas[i][j].b, image[i][j].g | canvas[i][j].g,
                               image[i][j].r | canvas[i][j].r))
  {
    seq(|image|, i requires 0 <= i < |image| =>
      seq(|image[i]|, j requires 0 <= j < |image[i]| => ComposePixel(image[i][j], canvas[i][j], gray)))
  }

  /** The displayed frame: header first, then the canvas on top of everything, so
      painted strokes hide the header and the video alike. */
  function Render(image: Image, header: Image, canvas: Image, gray: Color -> int): (out: Image)
    requires |header| == HeaderHeight <= |image|
    requires forall i :: 0 <= i < HeaderHeight ==> |header[i]| == |image[i]|
    requires SameShape(canvas, image)
    ensures SameShape(out, image)
    ensures forall i, j :: 0 <= i < |out| && 0 <= j < |out[i]| && gray(canvas[i][j]) > PaintThreshold ==>
      out[i][j] == canvas[i][j]
  {
    Composite(WithHeader(image, header), canvas, gray)
  }

  /** Where the canvas is blank (black, and black reads as unpainted), the header
      shows in the top 125 rows and the camera frame below them. */
  lemma RenderShowsBackgroundWhereBlank(image: Image, header: Image, canvas: Image, gray: Color -> int)
    requires |header| == HeaderHeight <= |image|
    requires forall i :: 0 <= i < HeaderHeight ==> |header[i]| == |image[i]|
    requires SameShape(canvas, image)
    requires gray(Color(0, 0, 0)) <= PaintThreshold
    ensures var out := Render(image, header, canvas, gray);
      forall i, j :: 0 <= i < |out| && 0 <= j < |out[i]| && canvas[i][j] == Color(0, 0, 0) ==>
        out[i][j] == if i < HeaderHeight then header[i][j] else image[i][j]
  {
    var framed := WithHeader(image, header);
    var out := Render(image, header, canvas, gray);
    forall i, j | 0 <= i < |out| && 0 <= j < |out[i]| && canvas[i][j] == Color(0, 0, 0)
      ensures out[i][j] == if i < HeaderHeight then header[i][j] else image[i][j]
    {
      BlankCanvasShowsFrame(framed[i][j], gray);
    }
  }
}
