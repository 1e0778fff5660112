# ASCII-dome: the brightness-ordered character mapping engine

ASCII-dome turns images, videos and captured p5.js sketches into ASCII-art
frames for a 2048 by 2048 dome master. Every converter works the same way:

- It reads an alphabet from a JSON file.
- It derives a character grid from the cell size of the font's "W" glyph.
- It maps each pixel's gray value to a character with
  `chars[min(int(p / 256 * N), N - 1)]`.
- It draws the lines of characters centred on a black raster and saves
  frame `k` as `frame_{k:06d}.png`.

The alphabets come from two sorting tools. Both draw each character in white,
centred on a black 50 by 50 canvas, and order the characters by mean pixel
value, darkest first:

- The batch builder extracts the printable ASCII characters of a file, puts
  space first, and writes `{source, characters, count}`.
- The single-file sorter loads a JSON or text file, measures every entry,
  and writes `{characters, chars_list, count}`.

This project models both halves in Dafny and proves what they promise.
Modules follow the program's structure:

- `Quantize` holds the index formula.
- `CharGrid` holds `frame_to_ascii`, in both of the forms the scripts use:
  a comprehension sliced into lines, and nested loops.
- `Layout` holds the metrics, the grid size and `render_ascii_frame`.
- `FrameNames` holds the zero-padded names and the encoder's pattern.
- `AlphabetLoading` holds the two `load_characters` variants.
- `Converters` holds the frame loops of the four converters.
- `Brightness` holds `get_char_brightness`.
- `StableSort` holds Python's stable `list.sort` with a key.
- `BatchBuilder` and `Sorter` hold the two tools.
- `OutputNames` holds the default output file names.

The PIL, font and OpenCV calls are parameters of the model:

- `gray(f, cols, rows)` is the resized grayscale raster of frame `f`.
  Where a proof needs it, the predicate `ResizeShape` requires that raster to
  hold `cols * rows` pixels.
- `textBox(t)` is the box of text `t` drawn at the origin.
- `draw(t, x, y)` is the canvas with `t` drawn at `(x, y)`.

`textBox` and `draw` return `None` where the library call raises.

For an integer `p <= 255` and an alphabet of fewer than 2^45 characters,
`p * N` is below 2^53. The float product `p / 256 * N` is then exact, so
the truncating `int(...)` is the integer floor `(p * N) / 256`.
Python's `//` is floor division. It is written out as `Layout.FloorDiv`
wherever the divisor may be negative.

The docstring of `frame_to_ascii` says the brightest pixel maps to the last
character (png_to_ascii.py:112). The code does so only when the alphabet has
at most 256 characters. In a larger alphabet the last character is never
used (`Quantize.WhiteIsLastIff`, `Quantize.LargeAlphabetTopUnreachable`).
The model follows the code.

The lemmas and contracts below are stated about these definitions, each of
which follows one expression or statement of the code:

- `Json.Truthy` is Python truthiness, as in `if not chars:`
  (p5_webgl_to_ascii.py:456).
- `Json.Join` is `''.join(data)` (p5_webgl_to_ascii.py:66).
- `Json.CharList` is `list(chars)` on a string (sort_characters.py:101).
- `CharGrid.Grid` is the list of lines `frame_to_ascii` returns
  (p5_webgl_to_ascii.py:162-168).
- `FrameNames.ZeroPad` and `FrameNames.FrameName` are
  `f'frame_{i:06d}.png'` (p5_webgl_to_ascii.py:364).
- `FrameNames.EncoderReads` is ffmpeg reading `frame_%06d.png` from index 0
  up to the first missing file (p5_local_to_ascii.py:447).
- `Converters.FrameImage` is the raster saved for one input frame
  (p5_webgl_to_ascii.py:360-361).
- `Converters.WritesFrames` says that file k of a run holds frame k
  (p5_webgl_to_ascii.py:353-365).
- `StableSort.SortBy` is `list.sort(key=...)` (batch_sort_chars.py:117).
- `BatchBuilder.IsCandidate` is the filter
  `c.isprintable() and c != ' ' and ord(c) < 128`
  (batch_sort_chars.py:87).
- `Sorter.SorterRecord` is the saved dictionary (sort_characters.py:177-181).
- `OutputNames.Suffix` and `OutputNames.Stem` are `PurePath.suffix` and
  `PurePath.stem` (video_to_ascii.py:266).
- `OutputNames.VideoOutputName` is `stem + '_ascii' + suffix`
  (video_to_ascii.py:266).
- `OutputNames.ImagesOutputName` is the image converter's name
  (png_to_ascii.py:290-295).
- `OutputNames.SketchOutputName` is the local sketch converter's name
  (p5_local_to_ascii.py:592-593).
- `OutputNames.WebglOutputName` is the WEBGL converter's name
  (p5_webgl_to_ascii.py:516).
- `OutputNames.SortedOutputName` is `f"{name}_sorted.json"` after
  `os.path.splitext` (batch_sort_chars.py:137 and 152).

## Model

| member | source | states |
|---|---|---|
| AlphabetLoading.LoadConverter | p5_webgl_to_ascii.py:60-66 | A dictionary yields its "characters" value, else its "chars" value, else the empty string. A list yields its elements joined, and fails exactly when some element is not a string. Any other value is returned unchanged. |
| AlphabetLoading.CharactersKeyWins | p5_local_to_ascii.py:98-99 | A dictionary that holds both keys is read through "characters". |
| AlphabetLoading.ConverterAlphabet | p5_webgl_to_ascii.py:454-458 | A falsy loaded value stops the run with "no characters". A non-empty string is the alphabet. A non-empty list of one-character strings, whether top-level or under a key, is joined into the alphabet. Any other truthy value is `UnusableAlphabet`. A loader failure is reported as such. Every usable alphabet is non-empty. |
| AlphabetLoading.ConverterListOfChars | png_to_ascii.py:62-64 | A non-empty list of one-character strings loads as exactly those characters, in order. |
| AlphabetLoading.LoadCharactersJson | sort_characters.py:94-105 | A list is returned as it is. In a dictionary, "characters" wins over "chars", and a string value is split into its characters while any other value is returned unchanged. The load fails with "Unrecognized JSON format" exactly when the value is neither a list nor a dictionary holding one of the keys. |
| AlphabetLoading.BareStringDiffers | sort_characters.py:94-105 | A bare JSON string is an alphabet to the converters (p5_webgl_to_ascii.py:66) but an unrecognized format to the sorter. |
| AlphabetLoading.LoadCharactersText | sort_characters.py:106-109 | The text loader yields each character of the content exactly once, except line feed and carriage return. |
| Json.CharListJoin | sort_characters.py:101 | Splitting a string into one-character strings and joining them gives the string back. |
| Json.JoinSingleChars | p5_webgl_to_ascii.py:66 | Joining one-character strings gives a string of the same length whose i-th character is the i-th string. |
| Quantize.QuantIndex | p5_webgl_to_ascii.py:159 | The chosen index always lies in the alphabet. |
| Quantize.CellChar | png_to_ascii.py:133-136 | Every pixel is drawn with a character of the alphabet. |
| Quantize.ClampIsRedundant | video_to_ascii.py:133-134 | The floor `(p * N) / 256` is already at most `N - 1`, so the `min` never changes the index. |
| Quantize.Monotone | p5_webgl_to_ascii.py:159 | A brighter pixel never selects a character earlier in the alphabet. |
| Quantize.BlackIsFirst | p5_local_to_ascii.py:155 | Gray 0 selects the first, darkest character. |
| Quantize.WhiteIsLastIff | p5_local_to_ascii.py:155 | Gray 255 selects the last character if and only if the alphabet has at most 256 characters. |
| Quantize.LargeAlphabetTopUnreachable | png_to_ascii.py:134-135 | With more than 256 characters, no pixel selects the last character. |
| CharGrid.CharMap | p5_webgl_to_ascii.py:159 | The comprehension yields one character per pixel. |
| CharGrid.GridShape | p5_webgl_to_ascii.py:162-166 | The grid has `rows` lines of `cols` characters. Cell (r, c) is the character of pixel `r * cols + c`, and it is in the alphabet. |
| CharGrid.GridMonotone | p5_webgl_to_ascii.py:159 | Within a frame, a brighter pixel never gets a character earlier in the alphabet than a darker one. |
| CharGrid.ConcatPrefix | p5_local_to_ascii.py:159-162 | Joining the first k lines gives the first `k * cols` characters of the flat character list. |
| CharGrid.ConcatIsCharMap | p5_local_to_ascii.py:155-162 | The lines joined back together are exactly the flat list of characters per pixel. |
| CharGrid.FrameToAsciiSliced | p5_webgl_to_ascii.py:148-168 | The comprehension-and-slice version produces the grid. |
| CharGrid.FrameToAsciiNested | png_to_ascii.py:106-139 | The nested-loop version produces the grid. |
| CharGrid.CopiesAgree | video_to_ascii.py:105-138 | The two copies of `frame_to_ascii` give the same lines for every frame. |
| CharGrid.UniformGrayFrame | p5_webgl_to_ascii.py:159 | A uniform gray-128 frame on `" .:-=+*#%@"` is drawn entirely in `'+'`. |
| Layout.FloorDiv | p5_webgl_to_ascii.py:180-181 | Python's `//`: the quotient is the floor, for either sign of the divisor. |
| Layout.CellMetrics | p5_webgl_to_ascii.py:76-79 | The cell is the width and height of the box of "W". |
| Layout.GridDims | p5_webgl_to_ascii.py:336-337 | The grid is `2048 // w` by `2048 // h`. A zero metric is an error, and it is the only one. |
| Layout.GridIsLargestFit | p5_local_to_ascii.py:368-369 | With a positive cell width, the column count is the largest number of cells that fits in 2048 pixels. |
| Layout.CentreOffset | p5_webgl_to_ascii.py:180-181 | The offset is the floor of half the slack. It is non-negative exactly when the block fits. |
| Layout.BlockFits | png_to_ascii.py:252-253 | With the grid derived from positive cell sizes, the block fits, and each leading margin is less than half a cell. |
| Layout.Render | p5_webgl_to_ascii.py:171-187 | The raster is 2048 by 2048. It draws one text per line, in order. The horizontal offset comes from the first line's width, and line i is drawn `i * char_h` below the centred top. |
| Layout.GridOnRaster | video_to_ascii.py:160-166 | A full grid, drawn with positive cell sizes, lies wholly on the raster. |
| Layout.RenderAsciiFrame | png_to_ascii.py:142-169 | The loop draws the `Render` frame. An empty list of lines is the `ascii_lines[0]` error. |
| FrameNames.DecimalRoundTrip | p5_webgl_to_ascii.py:364 | The decimal digits of a frame index read back as that index. |
| FrameNames.ZeroPadRoundTrip | p5_webgl_to_ascii.py:364 | Zero-padding does not change the value the digits denote. |
| FrameNames.FrameNameLength | png_to_ascii.py:273 | Below one million, every frame name has 6 digits and 16 characters. |
| FrameNames.FrameNameInjective | video_to_ascii.py:248 | Distinct frame indices give distinct file names. |
| FrameNames.LexIsNumeric | p5_webgl_to_ascii.py:545-546 | For digit strings of equal length, lexicographic order is numeric order. |
| FrameNames.FrameNameOrder | p5_webgl_to_ascii.py:545-546 | Below one million, sorting frame names as text sorts them by index, as the `*.png` glob of the encoder reads them. |
| FrameNames.EncoderReadsWrittenFrames | p5_local_to_ascii.py:447 | The pattern is `frame_%06d.png`. Reading from index 0 up to the first missing name, the encoder reaches index k exactly when k is below the number of frames written. |
| Converters.PrepareGrid | p5_webgl_to_ascii.py:335-337 | The cell is the "W" box and the grid is `2048 // w` by `2048 // h`. It fails exactly when a metric is zero. |
| Converters.PositiveCellsDrawable | png_to_ascii.py:251-253 | A cell of positive size no larger than the raster gives a grid with at least one column and one row. |
| Converters.SaveFrameSliced | p5_webgl_to_ascii.py:357-365 | One iteration of the loop saves `frame_{i:06d}.png` holding the rendered grid of that frame. |
| Converters.SaveFrameNested | png_to_ascii.py:268-274 | One iteration of the loop saves `frame_{i:06d}.png` holding the rendered grid of that image. |
| Converters.ConvertPngToAscii | p5_webgl_to_ascii.py:335-365 | Errors come in the code's order: zero metric, then no PNG files, then a grid that cannot be resized to. Otherwise frame k of the sorted list is saved as `frame_{k:06d}.png`, for every k. |
| Converters.P5ConvertStep | p5_local_to_ascii.py:532-536 | An unusable alphabet stops the run before any frame is converted. After it come the conversion's errors, in order: zero metric, then no PNG files, then a grid that cannot be resized to. With a usable alphabet, a drawable grid and at least one PNG file, the run succeeds, and frame k is saved under index k using the loaded alphabet. |
| Converters.Selected | png_to_ascii.py:262-263 | Preview keeps the first `min(30, n)` images. |
| Converters.RunPngToAscii | png_to_ascii.py:240-274 | Errors come in the code's order: alphabet, then metrics, then no images, then a grid that cannot be resized to. With a usable alphabet, a drawable grid and at least one image, the run succeeds. Every selected image k is then saved as frame k, and exactly that many frames are written. |
| Converters.RunVideoToAscii | video_to_ascii.py:205-253 | Errors come in the code's order: alphabet, then metrics, then, when there is a frame to read, a grid that cannot be resized to. Otherwise the run succeeds, and frames are converted until the reads run out or until 30 are written in preview. The count returned is the number written, and frame k is saved under index k. |
| Converters.EncoderReadsEveryWrittenFrame | video_to_ascii.py:289 | After a run, the encoder's `frame_%06d.png` pattern reads index k exactly when k is below the number of frames written. |
| Brightness.GlyphOrigin | batch_sort_chars.py:56-59 | The glyph is placed so that the slack around its box is split evenly, with at most one pixel more on the trailing side, on both axes. |
| Brightness.Mean | batch_sort_chars.py:63-64 | The mean pixel value lies between 0 and 255. |
| Brightness.BrightnessOrZero | batch_sort_chars.py:52-64 | A failing library call gives 0. Otherwise the result is the mean of the canvas with the text drawn at the centring origin. It is always between 0 and 255. |
| Brightness.Measure | sort_characters.py:53-66 | The sorter's measurement fails exactly when one of the two library calls fails. Otherwise it lies between 0 and 255. |
| Brightness.MeasurementsAgree | sort_characters.py:53-66 | Both tools measure the same value wherever the sorter's measurement succeeds (batch_sort_chars.py:52-64). |
| Brightness.MeanOfUniform | batch_sort_chars.py:63-64 | A canvas of a single gray value measures that value. |
| StableSort.SortIsSorted | batch_sort_chars.py:117 | Sorting by key leaves the keys in non-decreasing order. |
| StableSort.SortPermutes | batch_sort_chars.py:117 | Sorting is a permutation. |
| StableSort.SortIsStable | sort_characters.py:133 | The elements of any one key keep their original relative order. |
| StableSort.FirstMinimumStaysFirst | batch_sort_chars.py:117 | An element that comes first and has the least key stays first. |
| StableSort.SortMap | batch_sort_chars.py:117-118 | Sorting the (character, key) pairs and keeping the characters is the same as sorting the characters by key. |
| Collections.SetToSeq | batch_sort_chars.py:91 | `list(set)` holds each element of the set exactly once and nothing else. |
| BatchBuilder.CandidateCodes | batch_sort_chars.py:87 | The characters kept are exactly the codes 33 to 126. |
| BatchBuilder.ExtractChars | batch_sort_chars.py:85-91 | Space comes first and every character appears once. The later characters are exactly the candidate characters of the content. |
| BatchBuilder.BatchKey | batch_sort_chars.py:110-115 | Space is keyed 0. Every other character is keyed by its measured brightness, 0 on failure. |
| BatchBuilder.BatchKeyBounds | batch_sort_chars.py:61-64 | Every key lies between 0 and 255. |
| BatchBuilder.SortCharsByBrightness | batch_sort_chars.py:109-118 | The result is the stable sort of the characters by key, a permutation of them, and in non-decreasing key order. |
| BatchBuilder.SpaceStaysFirst | batch_sort_chars.py:111-112 | Space, extracted first, is still first after sorting, even when another glyph also measures 0. |
| BatchBuilder.BatchRecord | batch_sort_chars.py:146-150 | The record holds exactly the keys source, characters and count. Source is the file name, characters is the sorted characters as one string, and count is their number. |
| BatchBuilder.ProcessFile | batch_sort_chars.py:136-152 | The output is named `<name>_sorted.json` and holds the record. Its characters start with space and are distinct. They are exactly space and the content's candidate characters, in brightness order. |
| BatchBuilder.RecordLoadsBack | batch_sort_chars.py:146-150 | A converter loads the saved record back as exactly the sorted characters. The sorter loads it as their list. |
| Sorter.LoadCharacters | sort_characters.py:91-109 | A JSON input loads as `LoadCharactersJson`. It fails with `LoadingFailed` where that fails, and with `NotStrings` where the loaded value is not a list of strings. A text input always loads, as its distinct non-newline characters, each once. |
| Sorter.SorterKey | sort_characters.py:129 | The key is the measured brightness wherever the measurement succeeds. |
| Sorter.SortByBrightness | sort_characters.py:127-134 | The sort succeeds exactly when every entry can be measured, and then gives the stable sort by brightness. On failure it names the first entry that cannot be drawn. |
| Sorter.RecordIsConsistent | sort_characters.py:177-181 | The record's count is the length of its list, and its characters are that list joined. |
| Sorter.RecordLoadsBack | sort_characters.py:177-181 | For one-character entries, the sorter reads its own record back as the same list. The converters read it as the sorted characters. |
| Sorter.TextMeasurable | sort_characters.py:127-131 | For a text file's loaded entries, every entry can be measured exactly when every kept character of the content can. Each entry is one such character. |
| Sorter.SorterMain | sort_characters.py:170-181 | A JSON list of strings succeeds exactly when every entry can be measured, and then saves the record of the sorted entries. On failure it names the first entry that cannot be drawn. Any other loaded value gives `NotStrings`. A text input succeeds exactly when every kept character of the content can be measured, and then saves a sorted, distinct list of single characters with the same set of characters as the content. On failure it names a kept character that cannot be drawn. |
| OutputNames.LastIndexOf | video_to_ascii.py:266 | The suffix split point is the last occurrence of the dot, or -1 when there is none. |
| OutputNames.StemSuffix | video_to_ascii.py:266 | Stem and suffix together are the whole name. A non-empty suffix is a dot followed by at least one dot-free character. |
| OutputNames.VideoNameKeepsSuffix | video_to_ascii.py:264-266 | The video converter's output keeps the input's extension. |
| OutputNames.TrailingDotInput | video_to_ascii.py:266 | A name ending in a dot has no suffix, so `clip.` becomes `clip._ascii`, whose own suffix is `._ascii`. |
| OutputNames.FixedExtension | p5_local_to_ascii.py:592-593 | Appending `_ascii.` and a dot-free extension gives a name with that extension and the stem plus `_ascii`. |
| OutputNames.ConverterVideoExtensions | png_to_ascii.py:287-295 | The image converter names its video `<dir>_ascii.mp4` or `<stem>_ascii.mp4`. The local sketch converter uses `.mp4` (p5_local_to_ascii.py:592-593) and the WEBGL converter `.mov` (p5_webgl_to_ascii.py:516). |
| OutputNames.SplitExt | batch_sort_chars.py:137 | `os.path.splitext` splits the name into two parts that rejoin to it, and a non-empty extension starts with its only dot. |
| OutputNames.SortedNameOfJsonOrText | batch_sort_chars.py:152 | For a base name `x` with no dot of its own, both `x.json` and `x.txt` give `x_sorted.json`. |

## Left out

- Image decoding, the grayscale conversion and LANCZOS resizing are the parameter `gray`. `ResizeShape` requires only that the raster has the asked size.
- The font, `textbbox` and `draw.text` are the parameters `textBox` and `draw`. The real glyph pixels are not modelled.
- Loading a font, font lookup and the command-line parsing are not modelled. The `size` parameter of `get_char_brightness` is fixed at its default of 50, as both tools use it.
- File I/O is not modelled: reading and writing JSON, `os.makedirs`, saving PNGs, `glob` and `find_images`. Frames arrive as a sequence already in sort order, and saving is the returned list of `SavedFrame`s.
- The Playwright browser capture and the local HTTP server are not modelled: they are I/O.
- The ffmpeg encoding step is not modelled, except for the file-name pattern it reads and the default output names.
- The OpenCV capture is the sequence of frames it yields before its first failed read. A capture that cannot be opened is not modelled.
- Timing and FPS reporting are not modelled, and neither is any printed output.
- `list(set(...))` has no defined order in Python. It is modelled as an arbitrary listing of the set, so results that depend on it are stated about every such order.
- Floating-point rounding in the mean and the sort keys is not modelled: keys are reals.
- Quantize.QuantIndex: uses exact integer arithmetic. For alphabets of 2^45 characters or more, the float product can round, and the model can then differ from the code.
- Sorter.LoadCharacters: a dictionary value, number or other non-list the sorter would iterate or fail on is reported as `NotStrings`. So is a list holding non-strings, where Python would fail later, in `draw.textbbox` or `"".join`.
- AlphabetLoading.ConverterAlphabet: a truthy loaded value that is neither a string nor a list of one-character strings is `UnusableAlphabet`. The code would index into it and fail, or draw elements that are not characters.
- `PurePath.suffix` and `PurePath.stem` are modelled as in Python before 3.14, where a name ending in a dot has no suffix. Python 3.14 treats that trailing dot as a suffix, which changes `OutputNames.TrailingDotInput`.
- Path handling works on the final path component: parent directories are not modelled. The sorter's `.json` test on the file name is the `SorterInput` datatype.
- Decoding with `errors='ignore'` is not modelled: the builder's content is already a string.
- The `--skip-png`, `--skip-ascii`, `--skip-video` and `--video-output` switches are not modelled: the model covers a run that converts every frame and takes the default names.

