/** The batch alphabet builder: the printable ASCII characters of a file,
    space first, sorted from darkest to brightest and saved as a record
    `{source, characters, count}` that the converters load back. */
module BatchBuilder {
  import opened Wrappers
  import opened Json
  import opened Layout
  import opened Brightness
  import opened StableSort
  import opened AlphabetLoading
  import Collections
  import OutputNames

  /** `c.isprintable() and c != ' ' and ord(c) < 128`: below 128 the
      printable characters are space through tilde. */
  predicate IsCandidate(c: char) {
    ' ' <= c <= '~' && c != ' '
  }

  lemma CandidateCodes(c: char)
    ensures IsCandidate(c) <==> 33 <= c as int <= 126
  {
  }

  /** `extract_chars_from_file` on the decoded content: space, then every
      candidate character of the content once, in set order. */
  method ExtractChars(content: string) returns (chars: seq<char>)
    ensures |chars| >= 1 && chars[0] == ' '
    ensures Collections.Distinct(chars)
    ensures forall i :: 1 <= i < |chars| ==> IsCandidate(chars[i])
    ensures forall c :: c in chars[1..] <==> c in content && IsCandidate(c)
  {
    var found: set<char> := {};
    for i := 0 to |content|
      invariant forall c :: c in found <==> c in content[..i] && IsCandidate(c)
    {
      var c := content[i];
      assert content[..i + 1] == content[..i] + [c];
      if IsCandidate(c) {
        found := found + {c};
      }
    }
    assert content[..|content|] == content;
    var listed := Collections.SetToSeq(found);
    chars := [' '] + listed;
    assert chars[1..] == listed;
    forall i, j | 0 <= i < j < |chars|
      ensures chars[i] != chars[j]
    {
      assert chars[j] == listed[j - 1] && IsCandidate(listed[j - 1]);
      if i > 0 {
        assert chars[i] == listed[i - 1];
      }
    }
  }

  /** The key the builder sorts by: 0 for space, the measured brightness
      (0 on failure) for every other character. */
  function BatchKey(textBox: string -> Option<BBox>, draw: (string, int, int) -> Option<Canvas>): (key: char -> real)
    ensures key(' ') == 0.0
    ensures forall c :: c != ' ' ==> key(c) == BrightnessOrZero([c], textBox, draw)
  {
    c => if c == ' ' then 0.0 else BrightnessOrZero([c], textBox, draw)
  }

  /** `sort_chars_by_brightness`: pairs each character with its key, sorts
      the pairs stably by key and keeps the characters. */
  method SortCharsByBrightness(chars: seq<char>, textBox: string -> Option<BBox>,
                               draw: (string, int, int) -> Option<Canvas>)
    returns (sorted: seq<char>)
    ensures sorted == SortBy(chars, BatchKey(textBox, draw))
    ensures multiset(sorted) == multiset(chars)
    ensures SortedBy(sorted, BatchKey(textBox, draw))
  {
    var key := BatchKey(textBox, draw);
    var charBrightness: seq<(char, real)> := [];
    for i := 0 to |chars|
      invariant |charBrightness| == i
      invariant forall k :: 0 <= k < i ==> charBrightness[k] == (chars[k], key(chars[k]))
    {
      var c := chars[i];
      if c == ' ' {
        charBrightness := charBrightness + [(c, 0.0)];
      } else {
        var brightness := BrightnessOrZero([c], textBox, draw);
        charBrightness := charBrightness + [(c, brightness)];
      }
    }
    var ordered := SortBy(charBrightness, Snd());
    sorted := seq(|ordered|, k requires 0 <= k < |ordered| => ordered[k].0);
    SortMap(Fst(), charBrightness, Snd(), key);
    assert Map(Fst(), charBrightness) == chars;
    assert sorted == Map(Fst(), ordered);
    SortPermutes(chars, key);
    SortIsSorted(chars, key);
  }

  /** Every key is a brightness between black and white. */
  lemma BatchKeyBounds(textBox: string -> Option<BBox>, draw: (string, int, int) -> Option<Canvas>, c: char)
    ensures 0.0 <= BatchKey(textBox, draw)(c) <= 255.0
  {
  }

  /** When space comes first, as extraction puts it, it stays first after
      sorting, even when another glyph also measures 0. */
  lemma SpaceStaysFirst(chars: seq<char>, textBox: string -> Option<BBox>,
                        draw: (string, int, int) -> Option<Canvas>)
    requires chars != [] && chars[0] == ' '
    ensures SortBy(chars, BatchKey(textBox, draw))[0] == ' '
  {
    var key := BatchKey(textBox, draw);
    forall i | 0 <= i < |chars|
      ensures key(chars[0]) <= key(chars[i])
    {
      BatchKeyBounds(textBox, draw, chars[i]);
    }
    FirstMinimumStaysFirst(chars, key);
  }

  /** The saved record: the source file name, the sorted characters joined,
      and their number. */
  function BatchRecord(source: string, characters: string): (j: Json)
    ensures j.JObj? && j.fields.Keys == {"source", CharactersKey, "count"}
    ensures j.fields["source"] == JStr(source) && j.fields[CharactersKey] == JStr(characters)
    ensures j.fields["count"] == JNum(|characters| as real)
  {
    JObj(map["source" := JStr(source), CharactersKey := JStr(characters), "count" := JNum(|characters| as real)])
  }

  /** What `process_file` produces: the output file name and the record written. */
  datatype Processed = Processed(outputName: string, record: Json)

  /** `process_file` on a file's name and decoded content. */
  method ProcessFile(filename: string, content: string, textBox: string -> Option<BBox>,
                     draw: (string, int, int) -> Option<Canvas>)
    returns (out: Processed, characters: string)
    ensures out.outputName == OutputNames.SortedOutputName(filename)
    ensures out.record == BatchRecord(filename, characters)
    ensures |characters| >= 1 && characters[0] == ' '
    ensures Collections.Distinct(characters)
    ensures forall c :: c in characters[1..] <==> c in content && IsCandidate(c)
    ensures SortedBy(characters, BatchKey(textBox, draw))
  {
    var chars := ExtractChars(content);
    var sortedChars := SortCharsByBrightness(chars, textBox, draw);
    SpaceStaysFirst(chars, textBox, draw);
    DistinctPermutation(chars, sortedChars);
    characters := sortedChars;
    out := Processed(OutputNames.SortedOutputName(filename), BatchRecord(filename, characters));
  }

  /** A rearrangement of a space-first list of distinct characters that
      starts with space again has the same later elements, as a set. */
  lemma DistinctPermutation(a: seq<char>, b: seq<char>)
    requires multiset(a) == multiset(b)
    requires Collections.Distinct(a)
    requires a != [] && b != [] && a[0] == ' ' && b[0] == ' '
    ensures Collections.Distinct(b)
    ensures forall c :: c in b[1..] <==> c in a[1..]
  {
    Collections.PermutationKeepsDistinct(a, b);
    forall c
      ensures c in b[1..] <==> c in a[1..]
    {
      if c == ' ' {
        assert forall k :: 1 <= k < |a| ==> a[k] != a[0];
        assert forall k :: 1 <= k < |b| ==> b[k] != b[0];
      } else {
        assert a == [a[0]] + a[1..];
        assert b == [b[0]] + b[1..];
        assert c in b <==> c in multiset(b);
        assert c in a <==> c in multiset(a);
      }
    }
  }

  /** The converters read the saved record back as exactly the sorted
      characters, and the sorter reads it as their list. */
  lemma RecordLoadsBack(source: string, characters: string)
    requires characters != []
    ensures ConverterAlphabet(BatchRecord(source, characters)) == Ok(characters)
    ensures LoadCharactersJson(BatchRecord(source, characters)) == Loaded(JArr(CharList(characters)))
  {
    var r := BatchRecord(source, characters);
    assert r.fields[CharactersKey] == JStr(characters);
  }
}
