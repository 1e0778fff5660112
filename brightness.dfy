/** `get_char_brightness`: a glyph is drawn in white, centred on a black
    50 by 50 grayscale canvas, and its brightness is the mean pixel value.
    The font's text box and the drawing itself are library calls; they are
    parameters here: `textBox` gives the box of a text drawn at the origin,
    `draw` the canvas after drawing the text at a position, and either may
    fail (None), as the calls may raise. */
module Brightness {
  import opened Wrappers
  import opened Layout
  import opened Quantize

  /** The default `size`: both scripts call `get_char_brightness(char, font)`. */
  const CanvasSide: int := 50

  /** The pixels of a `size` by `size` grayscale canvas, row-major. */
  type Canvas = s: seq<Pixel> | |s| == CanvasSide * CanvasSide witness seq(2500, i => 0)

  /** Where the text is drawn so that its box is centred: the floor of half
      the slack, minus the box's own offset from the drawing origin. */
  function GlyphOrigin(size: int, box: BBox): (xy: (int, int))
    ensures var left, right := xy.0 + box.left, xy.0 + box.right;
      0 <= (size - right) - left <= 1
    ensures var top, bottom := xy.1 + box.top, xy.1 + box.bottom;
      0 <= (size - bottom) - top <= 1
  {
    var (charWidth, charHeight) := CellMetrics(box);
    ((size - charWidth) / 2 - box.left, (size - charHeight) / 2 - box.top)
  }

  function Sum(px: seq<Pixel>): int {
    if px == [] then 0 else px[0] + Sum(px[1..])
  }

  lemma {:induction false} SumBound(px: seq<Pixel>)
    ensures 0 <= Sum(px) <= 255 * |px|
  {
    if px != [] {
      SumBound(px[1..]);
    }
  }

  /** `sum(pixels) / len(pixels)`: the mean gray value, between black and white. */
  function Mean(px: Canvas): (m: real)
    ensures 0.0 <= m <= 255.0
  {
    SumBound(px);
    (Sum(px) as real) / (|px| as real)
  }

  /** The batch builder's measurement: a failure of either library call
      yields 0, anything else the mean of the drawn canvas. */
  function BrightnessOrZero(text: string, textBox: string -> Option<BBox>,
                            draw: (string, int, int) -> Option<Canvas>): (b: real)
    ensures 0.0 <= b <= 255.0
    ensures textBox(text).None? ==> b == 0.0
    ensures textBox(text).Some? && draw(text, GlyphOrigin(CanvasSide, textBox(text).value).0,
                                       GlyphOrigin(CanvasSide, textBox(text).value).1).None? ==>
              b == 0.0
    ensures textBox(text).Some? && draw(text, GlyphOrigin(CanvasSide, textBox(text).value).0,
                                       GlyphOrigin(CanvasSide, textBox(text).value).1).Some? ==>
              b == Mean(draw(text, GlyphOrigin(CanvasSide, textBox(text).value).0,
                              GlyphOrigin(CanvasSide, textBox(text).value).1).value)
  {
    match Measure(text, textBox, draw)
    case None => 0.0
    case Some(m) => m
  }

  /** The sorter's measurement: the same drawing, with no handler, so a
      failing library call makes the measurement fail. */
  function Measure(text: string, textBox: string -> Option<BBox>,
                   draw: (string, int, int) -> Option<Canvas>): (r: Option<real>)
    ensures r.None? <==> (textBox(text).None? ||
                          draw(text, GlyphOrigin(CanvasSide, textBox(text).value).0,
                               GlyphOrigin(CanvasSide, textBox(text).value).1).None?)
    ensures r.Some? ==> 0.0 <= r.value <= 255.0
  {
    match textBox(text)
    case None => None
    case Some(box) =>
      var (x, y) := GlyphOrigin(CanvasSide, box);
      match draw(text, x, y)
      case None => None
      case Some(canvas) => Some(Mean(canvas))
  }

  /** The two measurements agree wherever the sorter's succeeds, and the
      batch builder's is 0 wherever it fails. */
  lemma MeasurementsAgree(text: string, textBox: string -> Option<BBox>,
                          draw: (string, int, int) -> Option<Canvas>)
    ensures Measure(text, textBox, draw).Some? ==>
              BrightnessOrZero(text, textBox, draw) == Measure(text, textBox, draw).value
    ensures Measure(text, textBox, draw).None? ==> BrightnessOrZero(text, textBox, draw) == 0.0
  {
  }

  lemma {:induction false} SumConstant(px: seq<Pixel>, v: Pixel)
    requires forall i :: 0 <= i < |px| ==> px[i] == v
    ensures Sum(px) == v * |px|
  {
    if px != [] {
      SumConstant(px[1..], v);
    }
  }

  /** A canvas of one gray value measures that value: a blank canvas 0, a fully lit one 255. */
  lemma MeanOfUniform(px: Canvas, v: Pixel)
    requires forall i :: 0 <= i < |px| ==> px[i] == v
    ensures Mean(px) == v as real
  {
    SumConstant(px, v);
  }
}
