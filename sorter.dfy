/** The single-file sorter: loads characters from a JSON or text file,
    measures every entry with no fallback for a failed measurement, sorts
    them from darkest to brightest and saves `{characters, chars_list, count}`. */
module Sorter {
  import opened Wrappers
  import opened Json
  import opened Layout
  import opened Brightness
  import opened StableSort
  import opened AlphabetLoading
  import Collections

  /** The input file: its name ending in `.json` selects the JSON reading. */
  datatype SorterInput = JsonFile(data: Json) | TextFile(content: string)

  datatype SorterError =
    | LoadingFailed(cause: LoadError)     // the `ValueError` of an unrecognized JSON shape
    | NotStrings                          // loaded entries that cannot be measured as text
    | MeasurementFailed(text: string)     // drawing this entry raised; nothing is saved

  /** The texts of a list of JSON strings. */
  function Texts(items: seq<Json>): (t: seq<string>)
    requires AllStrings(items)
    ensures |t| == |items| && forall i :: 0 <= i < |items| ==> t[i] == items[i].s
  {
    seq(|items|, i requires 0 <= i < |items| => items[i].s)
  }

  /** `load_characters` and the use `sort_by_brightness` makes of its result:
      the entries must be strings to be drawn. */
  method LoadCharacters(input: SorterInput) returns (r: Result<seq<string>, SorterError>)
    ensures input.JsonFile? && LoadCharactersJson(input.data).LoadFailed? ==>
              r == Err(LoadingFailed(UnrecognizedFormat))
    ensures input.JsonFile? ==>
              (r.Ok? <==> LoadCharactersJson(input.data).Loaded? && LoadCharactersJson(input.data).value.JArr? &&
                          AllStrings(LoadCharactersJson(input.data).value.items))
    ensures input.JsonFile? && LoadCharactersJson(input.data).Loaded? &&
            !(LoadCharactersJson(input.data).value.JArr? && AllStrings(LoadCharactersJson(input.data).value.items)) ==>
              r == Err(NotStrings)
    ensures input.JsonFile? && r.Ok? ==> r.value == Texts(LoadCharactersJson(input.data).value.items)
    ensures input.TextFile? ==> r.Ok?
    ensures input.TextFile? && r.Ok? ==>
              && Collections.Distinct(r.value)
              && (forall i :: 0 <= i < |r.value| ==> |r.value[i]| == 1)
              && (forall c :: [c] in r.value <==> c in input.content && c != '\n' && c != '\r')
  {
    match input
    case JsonFile(data) =>
      var loaded := LoadCharactersJson(data);
      if loaded.LoadFailed? {
        return Err(LoadingFailed(loaded.error));
      }
      if !(loaded.value.JArr? && AllStrings(loaded.value.items)) {
        return Err(NotStrings);
      }
      r := Ok(Texts(loaded.value.items));
    case TextFile(content) =>
      var chars := LoadCharactersText(content);
      var texts := seq(|chars|, i requires 0 <= i < |chars| => [chars[i]]);
      assert forall c :: [c] in texts <==> c in chars by {
        forall c ensures [c] in texts <==> c in chars {
          if c in chars {
            var i :| 0 <= i < |chars| && chars[i] == c;
            assert texts[i] == [c];
          }
        }
      }
      r := Ok(texts);
  }

  /** The key the sorter sorts by: the measured brightness of the entry;
      space is measured like every other entry. */
  function SorterKey(textBox: string -> Option<BBox>, draw: (string, int, int) -> Option<Canvas>): (key: string -> real)
    ensures forall t :: Measure(t, textBox, draw).Some? ==> key(t) == Measure(t, textBox, draw).value
  {
    t => BrightnessOrZero(t, textBox, draw)
  }

  /** `sort_by_brightness`: measures the entries in order, stopping at the
      first that cannot be drawn, then sorts them stably by brightness. */
  method SortByBrightness(chars: seq<string>, textBox: string -> Option<BBox>,
                          draw: (string, int, int) -> Option<Canvas>)
    returns (r: Result<seq<string>, SorterError>)
    ensures r.Ok? <==> forall i :: 0 <= i < |chars| ==> Measure(chars[i], textBox, draw).Some?
    ensures r.Ok? ==> r.value == SortBy(chars, SorterKey(textBox, draw))
    ensures r.Err? ==> exists i :: 0 <= i < |chars| && r.error == MeasurementFailed(chars[i]) &&
                                   Measure(chars[i], textBox, draw).None? &&
                                   forall k :: 0 <= k < i ==> Measure(chars[k], textBox, draw).Some?
  {
    var key := SorterKey(textBox, draw);
    var charBrightness: seq<(string, real)> := [];
    for i := 0 to |chars|
      invariant |charBrightness| == i
      invariant forall k :: 0 <= k < i ==> Measure(chars[k], textBox, draw).Some?
      invariant forall k :: 0 <= k < i ==> charBrightness[k] == (chars[k], key(chars[k]))
    {
      var brightness := Measure(chars[i], textBox, draw);
      if brightness.None? {
        return Err(MeasurementFailed(chars[i]));
      }
      charBrightness := charBrightness + [(chars[i], brightness.value)];
    }
    var ordered := SortBy(charBrightness, Snd());
    var sorted := seq(|ordered|, k requires 0 <= k < |ordered| => ordered[k].0);
    SortMap(Fst(), charBrightness, Snd(), key);
    assert Map(Fst(), charBrightness) == chars;
    assert sorted == Map(Fst(), ordered);
    r := Ok(sorted);
  }

  function AsJson(texts: seq<string>): (items: seq<Json>)
    ensures AllStrings(items) && |items| == |texts|
    ensures forall i :: 0 <= i < |texts| ==> items[i] == JStr(texts[i])
  {
    seq(|texts|, i requires 0 <= i < |texts| => JStr(texts[i]))
  }

  /** The saved record: the entries joined, the entries as a list, and their number. */
  function SorterRecord(sorted: seq<string>): Json {
    JObj(map[CharactersKey := JStr(Join(AsJson(sorted))), "chars_list" := JArr(AsJson(sorted)),
             "count" := JNum(|sorted| as real)])
  }

  /** The record's count is the length of its list, and its characters are
      the list joined. */
  lemma RecordIsConsistent(sorted: seq<string>)
    ensures var j := SorterRecord(sorted);
      && j.JObj? && j.fields.Keys == {CharactersKey, "chars_list", "count"}
      && j.fields["chars_list"].JArr? && AllStrings(j.fields["chars_list"].items)
      && j.fields["count"] == JNum(|j.fields["chars_list"].items| as real)
      && j.fields[CharactersKey] == JStr(Join(j.fields["chars_list"].items))
  {
  }

  /** For entries of one character each, as a text input yields, the sorter
      reads its own record back as the same list, and the converters read it
      as the sorted characters. */
  lemma {:induction false} RecordLoadsBack(sorted: seq<string>)
    requires forall i :: 0 <= i < |sorted| ==> |sorted[i]| == 1
    ensures LoadCharactersJson(SorterRecord(sorted)) == Loaded(JArr(AsJson(sorted)))
    ensures sorted != [] ==> ConverterAlphabet(SorterRecord(sorted)) == Ok(Join(AsJson(sorted)))
  {
    var items := AsJson(sorted);
    JoinSingleChars(items);
    var joined := Join(items);
    forall i | 0 <= i < |items|
      ensures CharList(joined)[i] == items[i]
    {
      assert [sorted[i][0]] == sorted[i];
    }
    assert CharList(joined) == items;
    var j := SorterRecord(sorted);
    assert j.fields[CharactersKey] == JStr(joined);
  }

  /** For the characters a text file loads, measuring every loaded entry is
      measuring every kept character of the content, and a failing entry is
      one of those characters. */
  lemma TextMeasurable(content: string, texts: seq<string>, textBox: string -> Option<BBox>,
                       draw: (string, int, int) -> Option<Canvas>)
    requires forall i :: 0 <= i < |texts| ==> |texts[i]| == 1
    requires forall c :: [c] in texts <==> c in content && c != '\n' && c != '\r'
    ensures (forall i :: 0 <= i < |texts| ==> Measure(texts[i], textBox, draw).Some?) <==>
            (forall c :: c in content && c != '\n' && c != '\r' ==> Measure([c], textBox, draw).Some?)
    ensures forall i :: 0 <= i < |texts| ==>
              texts[i] == [texts[i][0]] && texts[i][0] in content && texts[i][0] != '\n' && texts[i][0] != '\r'
  {
    forall i | 0 <= i < |texts|
      ensures texts[i] == [texts[i][0]]
    {
      assert |texts[i]| == 1;
    }
    if forall i :: 0 <= i < |texts| ==> Measure(texts[i], textBox, draw).Some? {
      forall c | c in content && c != '\n' && c != '\r'
        ensures Measure([c], textBox, draw).Some?
      {
        var i :| 0 <= i < |texts| && texts[i] == [c];
      }
    }
  }

  /** `main`: load, sort and build the record; the record holds the sorted
      order of the loaded entries. */
  method SorterMain(input: SorterInput, textBox: string -> Option<BBox>,
                    draw: (string, int, int) -> Option<Canvas>)
    returns (r: Result<Json, SorterError>)
    ensures input.JsonFile? && LoadCharactersJson(input.data).LoadFailed? ==>
              r == Err(LoadingFailed(UnrecognizedFormat))
    ensures input.JsonFile? && LoadCharactersJson(input.data).Loaded? &&
            LoadCharactersJson(input.data).value.JArr? && AllStrings(LoadCharactersJson(input.data).value.items) ==>
              var texts := Texts(LoadCharactersJson(input.data).value.items);
              (r.Ok? <==> forall i :: 0 <= i < |texts| ==> Measure(texts[i], textBox, draw).Some?) &&
              (r.Ok? ==> r.value == SorterRecord(SortBy(texts, SorterKey(textBox, draw)))) &&
              (r.Err? ==> exists i :: 0 <= i < |texts| && r.error == MeasurementFailed(texts[i]) &&
                                      Measure(texts[i], textBox, draw).None? &&
                                      forall k :: 0 <= k < i ==> Measure(texts[k], textBox, draw).Some?)
    ensures input.JsonFile? && LoadCharactersJson(input.data).Loaded? &&
            !(LoadCharactersJson(input.data).value.JArr? && AllStrings(LoadCharactersJson(input.data).value.items)) ==>
              r == Err(NotStrings)
    ensures input.TextFile? ==>
              (r.Ok? <==> forall c :: c in input.content && c != '\n' && c != '\r' ==> Measure([c], textBox, draw).Some?)
    ensures input.TextFile? && r.Err? ==>
              exists c :: c in input.content && c != '\n' && c != '\r' &&
                          r.error == MeasurementFailed([c]) && Measure([c], textBox, draw).None?
    ensures input.TextFile? && r.Ok? ==>
              exists sorted: seq<string> ::
                && r.value == SorterRecord(sorted)
                && SortedBy(sorted, SorterKey(textBox, draw))
                && Collections.Distinct(sorted)
                && (forall i :: 0 <= i < |sorted| ==> |sorted[i]| == 1)
                && (forall c :: [c] in sorted <==> c in input.content && c != '\n' && c != '\r')
  {
    var chars := LoadCharacters(input);
    if chars.Err? {
      return Err(chars.error);
    }
    var sorted := SortByBrightness(chars.value, textBox, draw);
    if input.TextFile? {
      TextMeasurable(input.content, chars.value, textBox, draw);
    }
    if sorted.Err? {
      return Err(sorted.error);
    }
    r := Ok(SorterRecord(sorted.value));
    if input.TextFile? {
      var key := SorterKey(textBox, draw);
      SortIsSorted(chars.value, key);
      SortPermutes(chars.value, key);
      Collections.PermutationKeepsDistinct(chars.value, sorted.value);
      forall i | 0 <= i < |sorted.value|
        ensures |sorted.value[i]| == 1
      {
        assert sorted.value[i] in multiset(chars.value);
      }
      forall c
        ensures [c] in sorted.value <==> [c] in chars.value
      {
        assert [c] in sorted.value <==> [c] in multiset(sorted.value);
        assert [c] in chars.value <==> [c] in multiset(chars.value);
      }
    }
  }
}
