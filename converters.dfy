/** The frame loops of the four converters: the browser-capture converters'
    `convert_png_to_ascii`, the image converter's `main` and the video
    converter's `main`. Each loads the alphabet, derives the grid from the
    cell size, maps every input frame to characters, renders it and saves it
    as `frame_{k:06d}.png`. Decoding a frame, converting it to grayscale and
    resizing it are library calls: `gray(f, cols, rows)` is the row-major
    grayscale raster of frame f resized to cols by rows. */
module Converters {
  import opened Wrappers
  import opened Json
  import opened Quantize
  import opened CharGrid
  import opened Layout
  import opened FrameNames
  import opened AlphabetLoading

  /** The cell size and the grid it gives. */
  datatype CellGrid = CellGrid(charW: int, charH: int, cols: int, rows: int)

  datatype ConvertError =
    | AlphabetUnusable(cause: AlphabetError)   // `load_characters` failed or gave nothing to draw with
    | CellSizeZero(zero: LayoutError)          // `OUTPUT_SIZE // 0`
    | NoInputFrames                            // no PNG files / no images found
    | ResizeRejected                           // a grid of zero or negative size cannot be resized to

  /** One saved output frame: its file name and what is drawn in it. */
  datatype SavedFrame = SavedFrame(name: string, image: RenderedFrame)

  /** `get_font_metrics` followed by `cols = OUTPUT_SIZE // char_w` and
      `rows = OUTPUT_SIZE // char_h`. */
  function PrepareGrid(reference: BBox): (r: Result<CellGrid, LayoutError>)
    ensures r.Err? <==> reference.right == reference.left || reference.bottom == reference.top
    ensures r.Ok? ==> && r.value.charW == reference.right - reference.left
                      && r.value.charH == reference.bottom - reference.top
                      && r.value.cols == FloorDiv(OutputSize, r.value.charW)
                      && r.value.rows == FloorDiv(OutputSize, r.value.charH)
  {
    var (charW, charH) := CellMetrics(reference);
    match GridDims(charW, charH)
    case Err(e) => Err(e)
    case Ok((cols, rows)) => Ok(CellGrid(charW, charH, cols, rows))
  }

  /** A grid frames can be resized to. */
  predicate Drawable(g: CellGrid) {
    g.cols > 0 && g.rows > 0
  }

  /** A measured cell of positive size always gives a drawable grid. */
  lemma PositiveCellsDrawable(reference: BBox)
    requires 0 < reference.right - reference.left <= OutputSize
    requires 0 < reference.bottom - reference.top <= OutputSize
    ensures PrepareGrid(reference).Ok? && Drawable(PrepareGrid(reference).value)
  {
  }

  /** The resize yields a raster of the size asked for. */
  ghost predicate ResizeShape<F(!new)>(gray: (F, int, int) -> seq<Pixel>) {
    forall f, w, h :: w > 0 && h > 0 ==> |gray(f, w, h)| == w * h
  }

  /** The image saved for frame f. */
  function FrameImage<F(!new)>(f: F, chars: string, g: CellGrid, gray: (F, int, int) -> seq<Pixel>): RenderedFrame
    requires |chars| >= 1 && Drawable(g) && ResizeShape(gray)
  {
    Render(Grid(gray(f, g.cols, g.rows), chars, g.cols, g.rows), g.charW, g.charH)
  }

  /** `written` holds frame k of `frames`, saved as `frame_{k:06d}.png`, for every k. */
  ghost predicate WritesFrames<F(!new)>(written: seq<SavedFrame>, frames: seq<F>, chars: string, g: CellGrid,
                                  gray: (F, int, int) -> seq<Pixel>)
    requires |chars| >= 1 && Drawable(g) && ResizeShape(gray)
  {
    |written| == |frames| &&
    forall k :: 0 <= k < |frames| ==> written[k] == SavedFrame(FrameName(k), FrameImage(frames[k], chars, g, gray))
  }

  /** One iteration of the browser-capture converters' loop. */
  method SaveFrameSliced<F(!new)>(f: F, chars: string, g: CellGrid, gray: (F, int, int) -> seq<Pixel>, index: nat)
    returns (saved: SavedFrame)
    requires |chars| >= 1 && Drawable(g) && ResizeShape(gray)
    ensures saved == SavedFrame(FrameName(index), FrameImage(f, chars, g, gray))
  {
    var asciiLines := FrameToAsciiSliced(gray(f, g.cols, g.rows), chars, g.cols, g.rows);
    var img := RenderAsciiFrame(asciiLines, g.charW, g.charH);
    saved := SavedFrame(FrameName(index), img.value);
  }

  /** One iteration of the image and video converters' loops. */
  method SaveFrameNested<F(!new)>(f: F, chars: string, g: CellGrid, gray: (F, int, int) -> seq<Pixel>, index: nat)
    returns (saved: SavedFrame)
    requires |chars| >= 1 && Drawable(g) && ResizeShape(gray)
    ensures saved == SavedFrame(FrameName(index), FrameImage(f, chars, g, gray))
  {
    var asciiLines := FrameToAsciiNested(gray(f, g.cols, g.rows), chars, g.cols, g.rows);
    var img := RenderAsciiFrame(asciiLines, g.charW, g.charH);
    saved := SavedFrame(FrameName(index), img.value);
  }

  /** `convert_png_to_ascii` of the browser-capture converters, on the
      captured frames in sorted order: every frame is saved, the k-th under
      index k. */
  method ConvertPngToAscii<F(!new)>(pngFiles: seq<F>, chars: string, reference: BBox, gray: (F, int, int) -> seq<Pixel>)
    returns (r: Result<seq<SavedFrame>, ConvertError>)
    requires |chars| >= 1 && ResizeShape(gray)
    ensures PrepareGrid(reference).Err? ==> r == Err(CellSizeZero(PrepareGrid(reference).error))
    ensures PrepareGrid(reference).Ok? && pngFiles == [] ==> r == Err(NoInputFrames)
    ensures PrepareGrid(reference).Ok? && pngFiles != [] && !Drawable(PrepareGrid(reference).value) ==>
              r == Err(ResizeRejected)
    ensures r.Ok? ==> && PrepareGrid(reference).Ok? && Drawable(PrepareGrid(reference).value)
                      && WritesFrames(r.value, pngFiles, chars, PrepareGrid(reference).value, gray)
    ensures PrepareGrid(reference).Ok? && pngFiles != [] && Drawable(PrepareGrid(reference).value) ==> r.Ok?
  {
    var grid := PrepareGrid(reference);
    if grid.Err? {
      return Err(CellSizeZero(grid.error));
    }
    var g := grid.value;
    if pngFiles == [] {
      return Err(NoInputFrames);
    }
    var written: seq<SavedFrame> := [];
    for i := 0 to |pngFiles|
      invariant |written| == i
      invariant i > 0 ==> Drawable(g)
      invariant forall k :: 0 <= k < i ==>
                  Drawable(g) && written[k] == SavedFrame(FrameName(k), FrameImage(pngFiles[k], chars, g, gray))
    {
      if !Drawable(g) {
        return Err(ResizeRejected);
      }
      var saved := SaveFrameSliced(pngFiles[i], chars, g, gray, i);
      written := written + [saved];
    }
    r := Ok(written);
  }

  /** Step 2 of the browser-capture converters' `main`: the alphabet is
      loaded and checked first, and an unusable one stops the run before any
      frame is converted. */
  method P5ConvertStep<F(!new)>(data: Json, reference: BBox, pngFiles: seq<F>, gray: (F, int, int) -> seq<Pixel>)
    returns (r: Result<seq<SavedFrame>, ConvertError>)
    requires ResizeShape(gray)
    ensures ConverterAlphabet(data).Err? ==> r == Err(AlphabetUnusable(ConverterAlphabet(data).error))
    ensures ConverterAlphabet(data).Ok? && PrepareGrid(reference).Err? ==>
              r == Err(CellSizeZero(PrepareGrid(reference).error))
    ensures ConverterAlphabet(data).Ok? && PrepareGrid(reference).Ok? && pngFiles == [] ==> r == Err(NoInputFrames)
    ensures (ConverterAlphabet(data).Ok? && PrepareGrid(reference).Ok? && pngFiles != [] &&
             !Drawable(PrepareGrid(reference).value)) ==> r == Err(ResizeRejected)
    ensures r.Ok? ==> && ConverterAlphabet(data).Ok? && PrepareGrid(reference).Ok?
                      && Drawable(PrepareGrid(reference).value)
                      && WritesFrames(r.value, pngFiles, ConverterAlphabet(data).value, PrepareGrid(reference).value, gray)
    ensures (ConverterAlphabet(data).Ok? && PrepareGrid(reference).Ok? && pngFiles != [] &&
             Drawable(PrepareGrid(reference).value)) ==> r.Ok?
  {
    var chars := ConverterAlphabet(data);
    if chars.Err? {
      return Err(AlphabetUnusable(chars.error));
    }
    r := ConvertPngToAscii(pngFiles, chars.value, reference, gray);
  }

  /** The images `--preview` keeps: the first 30 of the sorted list. */
  function Selected<F>(images: seq<F>, preview: bool): (s: seq<F>)
    ensures |s| == if preview then Min(30, |images|) else |images|
    ensures s == images[..|s|]
  {
    if preview then images[..Min(30, |images|)] else images
  }

  /** The image converter's `main`, on the images found in sorted order:
      after the alphabet and the grid, every selected image is saved, the
      k-th under index k. */
  method RunPngToAscii<F(!new)>(data: Json, reference: BBox, images: seq<F>, preview: bool, gray: (F, int, int) -> seq<Pixel>)
    returns (r: Result<seq<SavedFrame>, ConvertError>)
    requires ResizeShape(gray)
    ensures ConverterAlphabet(data).Err? ==> r == Err(AlphabetUnusable(ConverterAlphabet(data).error))
    ensures ConverterAlphabet(data).Ok? && PrepareGrid(reference).Err? ==>
              r == Err(CellSizeZero(PrepareGrid(reference).error))
    ensures ConverterAlphabet(data).Ok? && PrepareGrid(reference).Ok? && images == [] ==> r == Err(NoInputFrames)
    ensures (ConverterAlphabet(data).Ok? && PrepareGrid(reference).Ok? && images != [] &&
             !Drawable(PrepareGrid(reference).value)) ==> r == Err(ResizeRejected)
    ensures r.Ok? ==> && ConverterAlphabet(data).Ok? && PrepareGrid(reference).Ok?
                      && Drawable(PrepareGrid(reference).value)
                      && |r.value| == (if preview then Min(30, |images|) else |images|)
                      && WritesFrames(r.value, Selected(images, preview), ConverterAlphabet(data).value,
                                      PrepareGrid(reference).value, gray)
    ensures (ConverterAlphabet(data).Ok? && PrepareGrid(reference).Ok? && images != [] &&
             Drawable(PrepareGrid(reference).value)) ==> r.Ok?
  {
    var chars := ConverterAlphabet(data);
    if chars.Err? {
      return Err(AlphabetUnusable(chars.error));
    }
    var grid := PrepareGrid(reference);
    if grid.Err? {
      return Err(CellSizeZero(grid.error));
    }
    var g := grid.value;
    if images == [] {
      return Err(NoInputFrames);
    }
    var selected := images;
    if preview {
      selected := images[..Min(30, |images|)];
    }
    var written: seq<SavedFrame> := [];
    for i := 0 to |selected|
      invariant |written| == i
      invariant i > 0 ==> Drawable(g)
      invariant forall k :: 0 <= k < i ==>
                  Drawable(g) && written[k] == SavedFrame(FrameName(k), FrameImage(selected[k], chars.value, g, gray))
    {
      if !Drawable(g) {
        return Err(ResizeRejected);
      }
      var saved := SaveFrameNested(selected[i], chars.value, g, gray, i);
      written := written + [saved];
    }
    r := Ok(written);
  }

  /** The video converter's `main`, on the frames the capture yields before
      its first failed read: frames are converted until the reads run out or,
      in preview, 30 are written; `frameNum` is the number written. */
  method RunVideoToAscii<F(!new)>(data: Json, reference: BBox, frames: seq<F>, preview: bool, gray: (F, int, int) -> seq<Pixel>)
    returns (r: Result<seq<SavedFrame>, ConvertError>, frameNum: nat)
    requires ResizeShape(gray)
    ensures ConverterAlphabet(data).Err? ==> r == Err(AlphabetUnusable(ConverterAlphabet(data).error))
    ensures ConverterAlphabet(data).Ok? && PrepareGrid(reference).Err? ==>
              r == Err(CellSizeZero(PrepareGrid(reference).error))
    ensures (ConverterAlphabet(data).Ok? && PrepareGrid(reference).Ok? && frames != [] &&
             !Drawable(PrepareGrid(reference).value)) ==> r == Err(ResizeRejected) && frameNum == 0
    ensures r.Ok? ==> && frameNum == |r.value|
                      && frameNum == (if preview then Min(30, |frames|) else |frames|)
                      && ConverterAlphabet(data).Ok? && PrepareGrid(reference).Ok?
                      && (frameNum > 0 ==> Drawable(PrepareGrid(reference).value))
    ensures r.Ok? && frameNum > 0 ==>
              WritesFrames(r.value, frames[..frameNum], ConverterAlphabet(data).value, PrepareGrid(reference).value, gray)
    ensures (ConverterAlphabet(data).Ok? && PrepareGrid(reference).Ok? &&
             (frames == [] || Drawable(PrepareGrid(reference).value))) ==> r.Ok?
  {
    frameNum := 0;
    var chars := ConverterAlphabet(data);
    if chars.Err? {
      return Err(AlphabetUnusable(chars.error)), frameNum;
    }
    var grid := PrepareGrid(reference);
    if grid.Err? {
      return Err(CellSizeZero(grid.error)), frameNum;
    }
    var g := grid.value;
    var maxFrames: Option<nat> := if preview then Some(30) else None;   // None: `float('inf')`
    var written: seq<SavedFrame> := [];
    while maxFrames.None? || frameNum < maxFrames.value
      invariant frameNum == |written| <= |frames|
      invariant preview ==> frameNum <= 30
      invariant maxFrames == if preview then Some(30) else None
      invariant frameNum > 0 ==> Drawable(g)
      invariant forall k :: 0 <= k < frameNum ==>
                  Drawable(g) && written[k] == SavedFrame(FrameName(k), FrameImage(frames[k], chars.value, g, gray))
      decreases |frames| - frameNum
    {
      if frameNum >= |frames| {
        break;   // `cap.read()` reports no frame
      }
      if !Drawable(g) {
        return Err(ResizeRejected), frameNum;
      }
      var saved := SaveFrameNested(frames[frameNum], chars.value, g, gray, frameNum);
      written := written + [saved];
      frameNum := frameNum + 1;
    }
    r := Ok(written);
  }

  /** The names a run writes are exactly the ones the encoder's
      `frame_%06d.png` pattern reads, from index 0 to the last frame written. */
  lemma EncoderReadsEveryWrittenFrame<F(!new)>(written: seq<SavedFrame>, frames: seq<F>, chars: string,
                                               g: CellGrid, gray: (F, int, int) -> seq<Pixel>, k: nat)
    requires |chars| >= 1 && Drawable(g) && ResizeShape(gray)
    requires WritesFrames(written, frames, chars, g, gray)
    ensures EncoderReads(set s | s in written :: s.name, k) <==> k < |written|
  {
    var n := |written|;
    var names := set s | s in written :: s.name;
    assert names == set j | 0 <= j < n :: FrameName(j) by {
      forall x | x in names ensures exists j :: 0 <= j < n && x == FrameName(j) {
        var s :| s in written && s.name == x;
        var j :| 0 <= j < n && written[j] == s;
      }
      forall j | 0 <= j < n ensures FrameName(j) in names {
        assert written[j].name == FrameName(j);
      }
    }
    EncoderReadsWrittenFrames(n, k);
  }
}
