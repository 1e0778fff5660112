/** The names of the files the scripts write besides the frames: the
    default video name of each converter and the batch builder's
    `<name>_sorted.json`. Names are split as Python's `pathlib` (`stem`,
    `suffix`, `name`) and `os.path.splitext` split them, on a final path
    component. */
module OutputNames {

  /** `s.rfind(c)`: the last index holding c, or -1. */
  function LastIndexOf(s: string, c: char): (i: int)
    ensures -1 <= i < |s|
    ensures i == -1 <==> c !in s
    ensures i >= 0 ==> s[i] == c && forall j :: i < j < |s| ==> s[j] != c
  {
    if s == [] then -1
    else if s[|s| - 1] == c then |s| - 1
    else LastIndexOf(s[..|s| - 1], c)
  }

  /** `PurePath.suffix`: from the last dot, when that dot is neither the first
      nor the last character; otherwise empty. */
  function Suffix(name: string): string {
    var i := LastIndexOf(name, '.');
    if 0 < i < |name| - 1 then name[i..] else ""
  }

  /** `PurePath.stem`: the name without its suffix. */
  function Stem(name: string): string {
    var i := LastIndexOf(name, '.');
    if 0 < i < |name| - 1 then name[..i] else name
  }

  /** The stem and the suffix together are the whole name, and a non-empty
      suffix is a dot followed by at least one character and no further dot. */
  lemma StemSuffix(name: string)
    ensures Stem(name) + Suffix(name) == name
    ensures Suffix(name) != [] ==>
              |Suffix(name)| >= 2 && Suffix(name)[0] == '.' && '.' !in Suffix(name)[1..]
  {
    var i := LastIndexOf(name, '.');
    if 0 < i < |name| - 1 {
      assert name[..i] + name[i..] == name;
      forall j | 0 <= j < |name[i..][1..]|
        ensures name[i..][1..][j] != '.'
      {
        assert name[i..][1..][j] == name[i + 1 + j];
      }
    }
  }

  /** `Path(input).stem + '_ascii' + Path(input).suffix`: the video
      converter's default name. */
  function VideoOutputName(name: string): string {
    Stem(name) + "_ascii" + Suffix(name)
  }

  /** The video converter's name keeps the input's extension: when the input
      has a suffix, the output name has the same one. */
  lemma {:induction false} VideoNameKeepsSuffix(name: string)
    requires Suffix(name) != ""
    ensures Suffix(VideoOutputName(name)) == Suffix(name)
  {
    StemSuffix(name);
    var stem, suf := Stem(name), Suffix(name);
    var out := VideoOutputName(name);
    var d := |stem| + 6;
    assert out == (stem + "_ascii") + suf;
    assert |stem + "_ascii"| == d;
    assert out[d] == '.';
    forall j | d < j < |out|
      ensures out[j] != '.'
    {
      assert out[j] == suf[1..][j - d - 1];
    }
    LastIndexIs(out, '.', d);
    assert out[d..] == suf;
  }

  lemma LastIndexIs(s: string, c: char, d: int)
    requires 0 <= d < |s| && s[d] == c
    requires forall j :: d < j < |s| ==> s[j] != c
    ensures LastIndexOf(s, c) == d
  {
  }

  /** An input whose name ends with a dot has no suffix, and the converter's
      name then carries that dot into its own suffix. */
  lemma TrailingDotInput()
    ensures Suffix("clip.") == ""
    ensures VideoOutputName("clip.") == "clip._ascii"
    ensures Suffix(VideoOutputName("clip.")) == "._ascii"
  {
    assert LastIndexOf("clip.", '.') == 4;
    LastIndexIs("clip._ascii", '.', 4);
  }

  /** The image converter's default name: a directory contributes its whole
      name, a file its stem, and the extension is always `.mp4`. */
  function ImagesOutputName(name: string, isDir: bool): string {
    (if isDir then name else Stem(name)) + "_ascii.mp4"
  }

  /** The local-sketch converter's default name: the sketch path's stem. */
  function SketchOutputName(name: string): string {
    Stem(name) + "_ascii.mp4"
  }

  /** The WEBGL converter's default name: the HTML file's stem, as a `.mov`. */
  function WebglOutputName(name: string): string {
    Stem(name) + "_ascii.mov"
  }

  /** Appending `_ascii.` and a dot-free extension to any base gives a name
      with that extension whose stem is the base followed by `_ascii`. */
  lemma FixedExtension(base: string, ext: string)
    requires ext != [] && '.' !in ext
    ensures Suffix(base + "_ascii." + ext) == "." + ext
    ensures Stem(base + "_ascii." + ext) == base + "_ascii"
  {
    var out := base + "_ascii." + ext;
    var d := |base| + 6;
    assert out[d] == '.';
    assert forall j :: d < j < |out| ==> out[j] == ext[j - d - 1];
    LastIndexIs(out, '.', d);
    assert out[d..] == "." + ext;
    assert out[..d] == base + "_ascii";
  }

  /** The image and browser-capture converters name their video by a fixed
      extension, whatever the input's own: `.mp4`, or `.mov` for WEBGL. */
  lemma ConverterVideoExtensions(name: string, isDir: bool)
    ensures Suffix(ImagesOutputName(name, isDir)) == ".mp4"
    ensures Stem(ImagesOutputName(name, false)) == Stem(name) + "_ascii"
    ensures Stem(ImagesOutputName(name, true)) == name + "_ascii"
    ensures Suffix(SketchOutputName(name)) == ".mp4"
    ensures Suffix(WebglOutputName(name)) == ".mov"
  {
    var stem := Stem(name);
    assert ImagesOutputName(name, false) == stem + "_ascii." + "mp4";
    assert ImagesOutputName(name, true) == name + "_ascii." + "mp4";
    assert SketchOutputName(name) == stem + "_ascii." + "mp4";
    assert WebglOutputName(name) == stem + "_ascii." + "mov";
    FixedExtension(stem, "mp4");
    FixedExtension(name, "mp4");
    FixedExtension(stem, "mov");
  }

  /** `os.path.splitext` of a name with no directory part: split at the last
      dot when some character before it is not a dot (`.bashrc` has no
      extension). */
  function SplitExt(name: string): (parts: (string, string))
    ensures parts.0 + parts.1 == name
    ensures parts.1 != "" ==> parts.1[0] == '.' && '.' !in parts.1[1..]
    ensures parts.1 == "" ==> forall k :: 0 <= k < LastIndexOf(name, '.') ==> name[k] == '.'
  {
    var i := LastIndexOf(name, '.');
    if i >= 0 && exists k :: 0 <= k < i && name[k] != '.' then
      assert name[..i] + name[i..] == name;
      assert forall j :: 0 <= j < |name[i..][1..]| ==> name[i..][1..][j] == name[i + 1 + j];
      (name[..i], name[i..])
    else (name, "")
  }

  /** The batch builder's output file: `f"{name}_sorted.json"`. */
  function SortedOutputName(filename: string): string {
    SplitExt(filename).0 + "_sorted.json"
  }

  /** `.json` and `.txt` inputs both drop their extension. */
  lemma SortedNameOfJsonOrText(base: string)
    requires base != [] && base[0] != '.' && '.' !in base
    ensures SortedOutputName(base + ".json") == base + "_sorted.json"
    ensures SortedOutputName(base + ".txt") == base + "_sorted.json"
  {
    var a, b := base + ".json", base + ".txt";
    LastIndexIs(a, '.', |base|);
    LastIndexIs(b, '.', |base|);
    assert a[..|base|] == base && a[0] != '.';
    assert b[..|base|] == base && b[0] != '.';
  }
}
