/** The two ways an alphabet is read back from a decoded JSON value:
    the lenient loader shared by the four converter scripts, and the
    stricter loader of the single-file sorter. */
module AlphabetLoading {
  import opened Json
  import opened Wrappers
  import Collections

  datatype LoadError =
    | JoinTypeError           // `''.join(data)` met a list element that is not a string
    | UnrecognizedFormat      // the sorter's `ValueError("Unrecognized JSON format")`

  datatype Loaded<T> = Loaded(value: T) | LoadFailed(error: LoadError)

  const CharactersKey: string := "characters"
  const CharsKey: string := "chars"

  /** The converters' `load_characters`: a dictionary yields its "characters"
      value, else its "chars" value, else the empty string; a list yields the
      concatenation of its elements; any other value is returned unchanged. */
  function LoadConverter(data: Json): (r: Loaded<Json>)
    ensures data.JObj? ==> r.Loaded?
    ensures data.JObj? && CharactersKey in data.fields ==> r.value == data.fields[CharactersKey]
    ensures data.JObj? && CharactersKey !in data.fields && CharsKey in data.fields ==> r.value == data.fields[CharsKey]
    ensures data.JObj? && CharactersKey !in data.fields && CharsKey !in data.fields ==> r.value == JStr("")
    ensures data.JArr? ==> (r.Loaded? <==> AllStrings(data.items))
    ensures data.JArr? && r.Loaded? ==> r.value == JStr(Join(data.items))
    ensures !data.JObj? && !data.JArr? ==> r == Loaded(data)
  {
    match data
    case JObj(fields) =>
      if CharactersKey in fields then Loaded(fields[CharactersKey])
      else if CharsKey in fields then Loaded(fields[CharsKey])
      else Loaded(JStr(""))
    case JArr(items) =>
      if AllStrings(items) then Loaded(JStr(Join(items))) else LoadFailed(JoinTypeError)
    case _ => Loaded(data)
  }

  datatype AlphabetError =
    | LoaderFailed(cause: LoadError)
    | NoCharacters            // "Error: No characters loaded": the loaded value is falsy
    | UnusableAlphabet        // a truthy value that is not a string or a list of characters

  /** What a converter's `main` goes on with after `load_characters`: the
      run stops when the loaded value is falsy, and otherwise indexes it
      character by character. */
  function ConverterAlphabet(data: Json): (r: Result<string, AlphabetError>)
    ensures r.Ok? ==> |r.value| >= 1
    ensures LoadConverter(data).Loaded? && !Truthy(LoadConverter(data).value) ==> r == Err(NoCharacters)
    ensures LoadConverter(data).Loaded? && LoadConverter(data).value.JStr? && LoadConverter(data).value.s != [] ==>
              r == Ok(LoadConverter(data).value.s)
    ensures LoadConverter(data).LoadFailed? ==> r == Err(LoaderFailed(LoadConverter(data).error))
    ensures var l := LoadConverter(data);
      l.Loaded? && l.value.JArr? && l.value.items != [] && AllSingleChars(l.value.items) ==>
        r == Ok(Join(l.value.items))
    ensures var l := LoadConverter(data);
      l.Loaded? && Truthy(l.value) && !l.value.JStr? && !(l.value.JArr? && AllSingleChars(l.value.items)) ==>
        r == Err(UnusableAlphabet)
  {
    match LoadConverter(data)
    case LoadFailed(e) => Err(LoaderFailed(e))
    case Loaded(v) =>
      if !Truthy(v) then Err(NoCharacters)
      else if v.JStr? then Ok(v.s)
      else if v.JArr? && AllSingleChars(v.items) then
        JoinSingleChars(v.items);
        Ok(Join(v.items))
      else Err(UnusableAlphabet)
  }

  /** A dictionary that carries both keys is read through "characters". */
  lemma CharactersKeyWins(fields: map<string, Json>, a: Json, b: Json)
    requires CharactersKey in fields && fields[CharactersKey] == a
    requires CharsKey in fields && fields[CharsKey] == b
    ensures LoadConverter(JObj(fields)) == Loaded(a)
  {
  }

  /** A JSON list of one-character strings loads as exactly those characters, in order. */
  lemma {:induction false} ConverterListOfChars(items: seq<Json>)
    requires items != [] && AllSingleChars(items)
    ensures ConverterAlphabet(JArr(items)).Ok?
    ensures |ConverterAlphabet(JArr(items)).value| == |items|
    ensures forall i :: 0 <= i < |items| ==> ConverterAlphabet(JArr(items)).value[i] == items[i].s[0]
  {
    JoinSingleChars(items);
  }

  /** The sorter's JSON `load_characters`: a list is returned element for
      element; in a dictionary "characters" wins over "chars", a string value
      is split into its characters and any other value is returned as it is;
      every other shape is rejected. */
  function LoadCharactersJson(data: Json): (r: Loaded<Json>)
    ensures data.JArr? ==> r == Loaded(data)
    ensures data.JObj? && CharactersKey in data.fields && data.fields[CharactersKey].JStr? ==>
              r == Loaded(JArr(CharList(data.fields[CharactersKey].s)))
    ensures data.JObj? && CharactersKey in data.fields && !data.fields[CharactersKey].JStr? ==>
              r == Loaded(data.fields[CharactersKey])
    ensures data.JObj? && CharactersKey !in data.fields && CharsKey in data.fields && data.fields[CharsKey].JStr? ==>
              r == Loaded(JArr(CharList(data.fields[CharsKey].s)))
    ensures data.JObj? && CharactersKey !in data.fields && CharsKey in data.fields && !data.fields[CharsKey].JStr? ==>
              r == Loaded(data.fields[CharsKey])
    ensures r.LoadFailed? <==>
              !data.JArr? && !(data.JObj? && (CharactersKey in data.fields || CharsKey in data.fields))
    ensures r.LoadFailed? ==> r.error == UnrecognizedFormat
  {
    match data
    case JArr(items) => Loaded(JArr(items))
    case JObj(fields) =>
      if CharactersKey in fields then SplitIfString(fields[CharactersKey])
      else if CharsKey in fields then SplitIfString(fields[CharsKey])
      else LoadFailed(UnrecognizedFormat)
    case _ => LoadFailed(UnrecognizedFormat)
  }

  function SplitIfString(v: Json): Loaded<Json> {
    if v.JStr? then Loaded(JArr(CharList(v.s))) else Loaded(v)
  }

  /** Where the two loaders part ways: a bare JSON string is an alphabet to the
      converters but an unrecognized format to the sorter. */
  lemma BareStringDiffers(s: string)
    ensures LoadConverter(JStr(s)) == Loaded(JStr(s))
    ensures LoadCharactersJson(JStr(s)) == LoadFailed(UnrecognizedFormat)
  {
  }

  /** The sorter's `load_characters` for a text file: the distinct characters
      of the content once every line feed and carriage return is removed. */
  method LoadCharactersText(content: string) returns (chars: seq<char>)
    ensures Collections.Distinct(chars)
    ensures '\n' !in chars && '\r' !in chars
    ensures forall c :: c in chars <==> c in content && c != '\n' && c != '\r'
  {
    var kept := set c | c in content && c != '\n' && c != '\r';
    chars := Collections.SetToSeq(kept);
  }
}
