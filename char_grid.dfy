/** The pixel-to-character mapper, `frame_to_ascii`: the resized grayscale
    pixels, row-major and `cols * rows` long, become `rows` lines of `cols`
    characters. The browser-capture converters build a flat character list
    with a comprehension and slice it into lines; the image and video
    converters build each line with nested loops. Both are modelled and
    proved to produce the same grid. */
module CharGrid {
  import opened Quantize
  import opened Arith

  lemma RowFits(r: nat, rows: nat, cols: nat)
    requires r < rows
    ensures r * cols + cols <= rows * cols
  {
    assert r + 1 <= rows;
    MulLeft(r + 1, rows, cols);
  }

  /** Line r of the grid: the characters of pixels r*cols .. r*cols+cols-1. */
  function Line(pixels: seq<Pixel>, chars: string, cols: nat, r: nat): (line: string)
    requires |chars| >= 1
    requires r * cols + cols <= |pixels|
  {
    seq(cols, c requires 0 <= c < cols => CellChar(chars, pixels[r * cols + c]))
  }

  /** The character grid a frame is mapped to. */
  function Grid(pixels: seq<Pixel>, chars: string, cols: nat, rows: nat): (g: seq<string>)
    requires |chars| >= 1
    requires |pixels| == cols * rows
  {
    seq(rows, r requires 0 <= r < rows => RowFits(r, rows, cols); Line(pixels, chars, cols, r))
  }

  /** The flat character list of the comprehension `[chars[...] for p in pixels]`. */
  function CharMap(pixels: seq<Pixel>, chars: string): (m: string)
    requires |chars| >= 1
    ensures |m| == |pixels|
  {
    seq(|pixels|, i requires 0 <= i < |pixels| => CellChar(chars, pixels[i]))
  }

  /** The concatenation of a list of lines. */
  function Concat(lines: seq<string>): string {
    if lines == [] then [] else Concat(lines[..|lines| - 1]) + lines[|lines| - 1]
  }

  /** The grid is `rows` lines of `cols` characters each, every cell drawn from
      the alphabet, and cell (r, c) is the character of pixel r*cols + c. */
  lemma GridShape(pixels: seq<Pixel>, chars: string, cols: nat, rows: nat)
    requires |chars| >= 1
    requires |pixels| == cols * rows
    ensures |Grid(pixels, chars, cols, rows)| == rows
    ensures forall r :: 0 <= r < rows ==> |Grid(pixels, chars, cols, rows)[r]| == cols
    ensures forall r, c :: 0 <= r < rows && 0 <= c < cols ==>
              r * cols + c < |pixels| &&
              Grid(pixels, chars, cols, rows)[r][c] == CellChar(chars, pixels[r * cols + c]) &&
              Grid(pixels, chars, cols, rows)[r][c] in chars
  {
    forall r | 0 <= r < rows
      ensures r * cols + cols <= |pixels|
    {
      RowFits(r, rows, cols);
    }
  }

  /** Within one frame, a brighter pixel is never drawn with a character that
      comes earlier in the alphabet than a darker pixel's. */
  lemma GridMonotone(pixels: seq<Pixel>, chars: string, cols: nat, rows: nat, i: nat, j: nat)
    requires |chars| >= 1
    requires |pixels| == cols * rows
    requires i < |pixels| && j < |pixels| && pixels[i] <= pixels[j]
    ensures QuantIndex(pixels[i], |chars|) <= QuantIndex(pixels[j], |chars|)
    ensures CharMap(pixels, chars)[i] == chars[QuantIndex(pixels[i], |chars|)]
    ensures CharMap(pixels, chars)[j] == chars[QuantIndex(pixels[j], |chars|)]
  {
    Monotone(pixels[i], pixels[j], |chars|);
  }

  /** Concatenating the first k lines of the grid gives the first k*cols
      characters of the flat character list. */
  lemma {:induction false} ConcatPrefix(pixels: seq<Pixel>, chars: string, cols: nat, rows: nat, k: nat)
    requires |chars| >= 1
    requires |pixels| == cols * rows
    requires k <= rows
    ensures k * cols <= |pixels|
    ensures Concat(Grid(pixels, chars, cols, rows)[..k]) == CharMap(pixels, chars)[..k * cols]
  {
    var g := Grid(pixels, chars, cols, rows);
    MulLeft(k, rows, cols);
    if k > 0 {
      ConcatPrefix(pixels, chars, cols, rows, k - 1);
      assert g[..k][..k - 1] == g[..k - 1];
      RowFits(k - 1, rows, cols);
      var m := CharMap(pixels, chars);
      assert (k - 1) * cols + cols == k * cols;
      assert m[..k * cols] == m[..(k - 1) * cols] + m[(k - 1) * cols..k * cols];
      assert g[k - 1] == m[(k - 1) * cols..k * cols];
    }
  }

  /** The lines of the grid, joined back together, are the flat character list. */
  lemma ConcatIsCharMap(pixels: seq<Pixel>, chars: string, cols: nat, rows: nat)
    requires |chars| >= 1
    requires |pixels| == cols * rows
    ensures Concat(Grid(pixels, chars, cols, rows)) == CharMap(pixels, chars)
  {
    ConcatPrefix(pixels, chars, cols, rows, rows);
    assert Grid(pixels, chars, cols, rows)[..rows] == Grid(pixels, chars, cols, rows);
    assert CharMap(pixels, chars)[..rows * cols] == CharMap(pixels, chars);
  }

  lemma LinesAreGrid(lines: seq<string>, pixels: seq<Pixel>, chars: string, cols: nat, rows: nat)
    requires |chars| >= 1
    requires |pixels| == cols * rows
    requires |lines| == rows
    requires forall r :: 0 <= r < rows ==> r * cols + cols <= |pixels| && lines[r] == Line(pixels, chars, cols, r)
    ensures lines == Grid(pixels, chars, cols, rows)
  {
  }

  /** `frame_to_ascii` of the browser-capture converters: one comprehension
      over the pixels, then one slice of `cols` characters per row. */
  method FrameToAsciiSliced(pixels: seq<Pixel>, chars: string, cols: nat, rows: nat)
    returns (asciiLines: seq<string>)
    requires |chars| >= 1
    requires |pixels| == cols * rows
    ensures asciiLines == Grid(pixels, chars, cols, rows)
  {
    var numChars := |chars|;
    var charMap := seq(|pixels|, i requires 0 <= i < |pixels| => chars[Min((pixels[i] * numChars) / 256, numChars - 1)]);
    assert charMap == CharMap(pixels, chars);
    asciiLines := [];
    for row := 0 to rows
      invariant |asciiLines| == row
      invariant forall r :: 0 <= r < row ==> r * cols + cols <= |pixels| && asciiLines[r] == Line(pixels, chars, cols, r)
    {
      RowFits(row, rows, cols);
      var startIdx := row * cols;
      var line := charMap[startIdx..startIdx + cols];
      assert forall c :: 0 <= c < cols ==> line[c] == charMap[startIdx + c];
      assert line == Line(pixels, chars, cols, row);
      asciiLines := asciiLines + [line];
    }
    LinesAreGrid(asciiLines, pixels, chars, cols, rows);
  }

  /** `frame_to_ascii` of the image and video converters: a loop over rows,
      and in it a loop over columns appending one character at a time. */
  method FrameToAsciiNested(pixels: seq<Pixel>, chars: string, cols: nat, rows: nat)
    returns (asciiLines: seq<string>)
    requires |chars| >= 1
    requires |pixels| == cols * rows
    ensures asciiLines == Grid(pixels, chars, cols, rows)
  {
    var numChars := |chars|;
    asciiLines := [];
    for row := 0 to rows
      invariant |asciiLines| == row
      invariant forall r :: 0 <= r < row ==> r * cols + cols <= |pixels| && asciiLines[r] == Line(pixels, chars, cols, r)
    {
      RowFits(row, rows, cols);
      var line := "";
      for col := 0 to cols
        invariant |line| == col
        invariant forall c :: 0 <= c < col ==> line[c] == CellChar(chars, pixels[row * cols + c])
      {
        var pixel := pixels[row * cols + col];
        var idx := (pixel * numChars) / 256;
        idx := Min(idx, numChars - 1);
        line := line + [chars[idx]];
      }
      asciiLines := asciiLines + [line];
    }
    LinesAreGrid(asciiLines, pixels, chars, cols, rows);
  }

  /** The two copies of `frame_to_ascii` produce the same lines for every frame. */
  method CopiesAgree(pixels: seq<Pixel>, chars: string, cols: nat, rows: nat)
    returns (sliced: seq<string>, nested: seq<string>)
    requires |chars| >= 1
    requires |pixels| == cols * rows
    ensures sliced == nested
  {
    sliced := FrameToAsciiSliced(pixels, chars, cols, rows);
    nested := FrameToAsciiNested(pixels, chars, cols, rows);
  }

  /** A uniform mid-gray frame on the ten-character alphabet " .:-=+*#%@":
      every cell is the character at index floor(128 / 256 * 10) = 5, which is '+'. */
  lemma UniformGrayFrame()
    ensures var g := Grid(seq(16, i => 128), " .:-=+*#%@", 4, 4);
      |g| == 4 && forall r, c :: 0 <= r < 4 && 0 <= c < 4 ==> |g[r]| == 4 && g[r][c] == '+'
  {
    var pixels: seq<Pixel> := seq(16, i => 128);
    var chars := " .:-=+*#%@";
    assert QuantIndex(128, 10) == 5;
    GridShape(pixels, chars, 4, 4);
  }
}
