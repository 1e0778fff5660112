/** A JSON value as the `json` module of the converter and sorter scripts
    decodes it: objects are dictionaries keyed by strings, and numbers are
    kept as reals (Python's int and float both compare as numbers). */
module Json {

  datatype Json =
    | JNull
    | JBool(b: bool)
    | JNum(n: real)
    | JStr(s: string)
    | JArr(items: seq<Json>)
    | JObj(fields: map<string, Json>)

  /** Python truthiness of a decoded JSON value (`if not chars:`). */
  predicate Truthy(v: Json) {
    match v
    case JNull => false
    case JBool(b) => b
    case JNum(n) => n != 0.0
    case JStr(s) => s != []
    case JArr(items) => items != []
    case JObj(fields) => fields != map[]
  }

  /** Every element of a JSON list is a string. */
  predicate AllStrings(items: seq<Json>) {
    forall i :: 0 <= i < |items| ==> items[i].JStr?
  }

  /** Every element of a JSON list is a string of exactly one character. */
  predicate AllSingleChars(items: seq<Json>) {
    forall i :: 0 <= i < |items| ==> items[i].JStr? && |items[i].s| == 1
  }

  /** `''.join(items)` for a list of strings. */
  function Join(items: seq<Json>): (r: string)
    requires AllStrings(items)
  {
    if items == [] then [] else items[0].s + Join(items[1..])
  }

  /** Joining one-character strings yields one character per element, in order. */
  lemma {:induction false} JoinSingleChars(items: seq<Json>)
    requires AllSingleChars(items)
    ensures AllStrings(items)
    ensures |Join(items)| == |items|
    ensures forall i :: 0 <= i < |items| ==> Join(items)[i] == items[i].s[0]
  {
    if items != [] {
      JoinSingleChars(items[1..]);
      assert forall i :: 1 <= i < |items| ==> Join(items)[i] == Join(items[1..])[i - 1];
    }
  }

  /** `list(s)` for a string: the list of its one-character strings. */
  function CharList(s: string): (r: seq<Json>)
    ensures |r| == |s| && AllSingleChars(r)
    ensures forall i :: 0 <= i < |s| ==> r[i] == JStr([s[i]])
  {
    seq(|s|, i requires 0 <= i < |s| => JStr([s[i]]))
  }

  /** Splitting a string into one-character strings and joining them back is the identity. */
  lemma CharListJoin(s: string)
    ensures AllStrings(CharList(s)) && Join(CharList(s)) == s
  {
    JoinSingleChars(CharList(s));
  }
}
