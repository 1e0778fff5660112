/** Cell metrics, grid dimensions and the centring arithmetic of the
    character-grid renderer (`get_font_metrics`, the `OUTPUT_SIZE //`
    grid dimensions and `render_ascii_frame`). Python's `//` is floor
    division; it is written out explicitly where the divisor may be negative. */
module Layout {
  import opened Wrappers
  import opened Arith

  /** The side of the square output raster, in pixels. */
  const OutputSize: int := 2048

  /** Python's floor division `a // b`. */
  function FloorDiv(a: int, b: int): (q: int)
    requires b != 0
    ensures b > 0 ==> q * b <= a < q * b + b
    ensures b < 0 ==> q * b + b < a <= q * b
  {
    if b > 0 || a % b == 0 then a / b else a / b - 1
  }

  /** A glyph bounding box `(left, top, right, bottom)` as the font reports it. */
  datatype BBox = BBox(left: int, top: int, right: int, bottom: int)

  /** `get_font_metrics`: the cell is the bounding box of the reference glyph "W". */
  function CellMetrics(b: BBox): (wh: (int, int))
    ensures b.left + wh.0 == b.right && b.top + wh.1 == b.bottom
  {
    (b.right - b.left, b.bottom - b.top)
  }

  datatype LayoutError = ZeroCellWidth | ZeroCellHeight

  /** `cols = OUTPUT_SIZE // char_w`, `rows = OUTPUT_SIZE // char_h`;
      a zero metric raises ZeroDivisionError. */
  function GridDims(charW: int, charH: int): (r: Result<(int, int), LayoutError>)
    ensures r.Err? <==> charW == 0 || charH == 0
    ensures r.Ok? ==> r.value == (FloorDiv(OutputSize, charW), FloorDiv(OutputSize, charH))
  {
    if charW == 0 then Err(ZeroCellWidth)
    else if charH == 0 then Err(ZeroCellHeight)
    else Ok((FloorDiv(OutputSize, charW), FloorDiv(OutputSize, charH)))
  }

  /** With a positive cell size the grid is the largest that fits: `n` cells
      of size `w` fit in the output and one more would not. */
  lemma GridIsLargestFit(w: int)
    requires w > 0
    ensures FloorDiv(OutputSize, w) >= 0
    ensures FloorDiv(OutputSize, w) * w <= OutputSize < (FloorDiv(OutputSize, w) + 1) * w
  {
    var q := FloorDiv(OutputSize, w);
    assert (q + 1) * w == q * w + w;
    if q < 0 {
      MulLeft(q + 1, 0, w);
      assert false;
    }
  }

  /** The offset that centres a block of the given extent: the floor of half
      the slack, negative when the block is larger than the output. */
  function CentreOffset(extent: int): (off: int)
    ensures 2 * off <= OutputSize - extent <= 2 * off + 1
    ensures off >= 0 <==> extent <= OutputSize
  {
    FloorDiv(OutputSize - extent, 2)
  }

  /** With positive cell sizes and the grid `OutputSize // w` by
      `OutputSize // h`, the text block fits, both offsets are non-negative,
      and the margin on the leading side is less than half a cell. */
  lemma BlockFits(w: int, h: int)
    requires w > 0 && h > 0
    ensures var cols, rows := FloorDiv(OutputSize, w), FloorDiv(OutputSize, h);
      && cols * w <= OutputSize && rows * h <= OutputSize
      && 0 <= CentreOffset(cols * w) && 2 * CentreOffset(cols * w) < w
      && 0 <= CentreOffset(rows * h) && 2 * CentreOffset(rows * h) < h
  {
    GridIsLargestFit(w);
    GridIsLargestFit(h);
  }

  /** One `draw.text` call: a line of text whose top-left corner is at (x, y). */
  datatype TextDraw = TextDraw(x: int, y: int, text: string)

  /** A rendered output raster: its size, and the white text drawn on its
      black background, in drawing order. */
  datatype RenderedFrame = RenderedFrame(width: int, height: int, texts: seq<TextDraw>)

  datatype RenderError = NoLines   // `ascii_lines[0]` on an empty list raises IndexError

  /** The frame `render_ascii_frame` draws: the block width is taken from the
      first line, both offsets centre the block, and line i is drawn
      `i * charH` below the first. */
  function Render(lines: seq<string>, charW: int, charH: int): (f: RenderedFrame)
    requires lines != []
    ensures f.width == OutputSize && f.height == OutputSize
    ensures |f.texts| == |lines|
    ensures forall i :: 0 <= i < |lines| ==>
              && f.texts[i].text == lines[i]
              && f.texts[i].x == CentreOffset(|lines[0]| * charW)
              && f.texts[i].y == CentreOffset(|lines| * charH) + i * charH
  {
    RenderedFrame(OutputSize, OutputSize,
      seq(|lines|, i requires 0 <= i < |lines| =>
        TextDraw(CentreOffset(|lines[0]| * charW), CentreOffset(|lines| * charH) + i * charH, lines[i])))
  }

  /** A grid of `OutputSize // charW` columns by `OutputSize // charH` rows,
      drawn with positive cell sizes, lies wholly on the raster: every line
      starts at or right of the left edge and ends at or left of the right
      edge, and every line lies between the top and bottom edges. */
  lemma GridOnRaster(lines: seq<string>, charW: int, charH: int)
    requires charW > 0 && charH > 0 && lines != []
    requires |lines[0]| == FloorDiv(OutputSize, charW) && |lines| == FloorDiv(OutputSize, charH)
    ensures forall i :: 0 <= i < |lines| ==>
              && 0 <= Render(lines, charW, charH).texts[i].x
              && Render(lines, charW, charH).texts[i].x + |lines[0]| * charW <= OutputSize
              && 0 <= Render(lines, charW, charH).texts[i].y
              && Render(lines, charW, charH).texts[i].y + charH <= OutputSize
  {
    BlockFits(charW, charH);
    var f := Render(lines, charW, charH);
    var rows := |lines|;
    forall i | 0 <= i < rows
      ensures f.texts[i].y + charH <= OutputSize
    {
      assert i + 1 <= rows;
      assert (i + 1) * charH <= rows * charH;
    }
  }

  /** `render_ascii_frame`: draws every line, in order, on a black raster. */
  method RenderAsciiFrame(asciiLines: seq<string>, charW: int, charH: int)
    returns (r: Result<RenderedFrame, RenderError>)
    ensures asciiLines == [] ==> r == Err(NoLines)
    ensures asciiLines != [] ==> r == Ok(Render(asciiLines, charW, charH))
  {
    if asciiLines == [] {
      return Err(NoLines);
    }
    var textWidth := |asciiLines[0]| * charW;
    var textHeight := |asciiLines| * charH;
    var xOffset := FloorDiv(OutputSize - textWidth, 2);
    var yOffset := FloorDiv(OutputSize - textHeight, 2);
    var texts: seq<TextDraw> := [];
    for i := 0 to |asciiLines|
      invariant |texts| == i
      invariant forall k :: 0 <= k < i ==> texts[k] == TextDraw(xOffset, yOffset + k * charH, asciiLines[k])
    {
      texts := texts + [TextDraw(xOffset, yOffset + i * charH, asciiLines[i])];
    }
    assert texts == Render(asciiLines, charW, charH).texts;
    r := Ok(RenderedFrame(OutputSize, OutputSize, texts));
  }
}
