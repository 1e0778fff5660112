/** Python's `list.sort(key=...)` as the alphabet builders use it: a stable
    sort by a real-valued key. It is specified here by a functional insertion
    sort, which the lemmas show is sorted, a permutation and stable; those
    three properties determine the result uniquely. */
module StableSort {

  /** Keys never decrease along the sequence. */
  ghost predicate SortedBy<T>(s: seq<T>, key: T -> real) {
    forall i, j :: 0 <= i < j < |s| ==> key(s[i]) <= key(s[j])
  }

  /** Inserts x before the first element whose key is at least x's. */
  function Insert<T>(x: T, s: seq<T>, key: T -> real): (r: seq<T>)
    ensures |r| == |s| + 1
  {
    if s == [] || key(x) <= key(s[0]) then [x] + s
    else [s[0]] + Insert(x, s[1..], key)
  }

  /** The sorted order `sorted(s, key=key)`. */
  function SortBy<T>(s: seq<T>, key: T -> real): (r: seq<T>)
    ensures |r| == |s|
  {
    if s == [] then [] else Insert(s[0], SortBy(s[1..], key), key)
  }

  /** The elements of s whose key is k, in their order in s. */
  function WithKey<T>(s: seq<T>, key: T -> real, k: real): seq<T> {
    if s == [] then []
    else (if key(s[0]) == k then [s[0]] else []) + WithKey(s[1..], key, k)
  }

  lemma {:induction false} InsertPermutes<T>(x: T, s: seq<T>, key: T -> real)
    ensures multiset(Insert(x, s, key)) == multiset{x} + multiset(s)
  {
    if s != [] && key(x) > key(s[0]) {
      InsertPermutes(x, s[1..], key);
      assert s == [s[0]] + s[1..];
    }
  }

  lemma {:induction false} InsertSorted<T>(x: T, s: seq<T>, key: T -> real)
    requires SortedBy(s, key)
    ensures SortedBy(Insert(x, s, key), key)
  {
    if s != [] && key(x) > key(s[0]) {
      var t := s[1..];
      assert SortedBy(t, key);
      InsertSorted(x, t, key);
      InsertPermutes(x, t, key);
      var r := Insert(x, t, key);
      forall j | 0 <= j < |r|
        ensures key(s[0]) <= key(r[j])
      {
        assert r[j] in multiset(r);
        assert r[j] == x || r[j] in multiset(t);
      }
    }
  }

  /** The sorted order is sorted by the key. */
  lemma {:induction false} SortIsSorted<T>(s: seq<T>, key: T -> real)
    ensures SortedBy(SortBy(s, key), key)
  {
    if s != [] {
      SortIsSorted(s[1..], key);
      InsertSorted(s[0], SortBy(s[1..], key), key);
    }
  }

  /** The sorted order holds exactly the input's elements, each as often. */
  lemma {:induction false} SortPermutes<T>(s: seq<T>, key: T -> real)
    ensures multiset(SortBy(s, key)) == multiset(s)
  {
    if s != [] {
      SortPermutes(s[1..], key);
      InsertPermutes(s[0], SortBy(s[1..], key), key);
      assert s == [s[0]] + s[1..];
    }
  }

  /** Inserting x keeps its place among the elements of every key: it passes
      only elements whose key is smaller than its own. */
  lemma {:induction false} InsertKeepsKeyOrder<T>(x: T, s: seq<T>, key: T -> real, k: real)
    ensures WithKey(Insert(x, s, key), key, k) == WithKey([x] + s, key, k)
  {
    if s != [] && key(x) > key(s[0]) {
      InsertKeepsKeyOrder(x, s[1..], key, k);
      var r := Insert(x, s, key);
      assert r == [s[0]] + Insert(x, s[1..], key);
      assert r[1..] == Insert(x, s[1..], key);
      assert ([x] + s)[1..] == s;
      assert s[1..] == ([x] + s[1..])[1..];
      assert [s[0]] + s[1..] == s;
    }
  }

  /** Stability: for every key, the elements with that key appear in the
      sorted order exactly as they do in the input. */
  lemma {:induction false} SortIsStable<T>(s: seq<T>, key: T -> real, k: real)
    ensures WithKey(SortBy(s, key), key, k) == WithKey(s, key, k)
  {
    if s != [] {
      SortIsStable(s[1..], key, k);
      InsertKeepsKeyOrder(s[0], SortBy(s[1..], key), key, k);
      assert ([s[0]] + SortBy(s[1..], key))[1..] == SortBy(s[1..], key);
      assert ([s[0]] + s[1..]) == s;
    }
  }

  /** An element that comes first and has the least key stays first, even
      when other elements share that key. */
  lemma FirstMinimumStaysFirst<T>(s: seq<T>, key: T -> real)
    requires s != []
    requires forall i :: 0 <= i < |s| ==> key(s[0]) <= key(s[i])
    ensures SortBy(s, key)[0] == s[0]
  {
    var t := SortBy(s[1..], key);
    if t != [] {
      SortPermutes(s[1..], key);
      assert t[0] in multiset(s[1..]);
      assert t[0] in s[1..];
    }
  }

  function Map<T, U>(f: T -> U, s: seq<T>): (r: seq<U>)
    ensures |r| == |s| && forall i :: 0 <= i < |s| ==> r[i] == f(s[i])
  {
    seq(|s|, i requires 0 <= i < |s| => f(s[i]))
  }

  lemma {:induction false} InsertMap<T, U>(f: T -> U, x: T, s: seq<T>, tkey: T -> real, key: U -> real)
    requires tkey(x) == key(f(x))
    requires forall i :: 0 <= i < |s| ==> tkey(s[i]) == key(f(s[i]))
    ensures Map(f, Insert(x, s, tkey)) == Insert(f(x), Map(f, s), key)
  {
    if s != [] && tkey(x) > tkey(s[0]) {
      InsertMap(f, x, s[1..], tkey, key);
      assert Map(f, s)[1..] == Map(f, s[1..]);
    }
  }

  /** Sorting records by a key they carry and then projecting them gives the
      same order as sorting the projections by the key of each projection:
      the `(char, brightness)` pairs of the builders sort like their characters. */
  lemma {:induction false} SortMap<T, U>(f: T -> U, s: seq<T>, tkey: T -> real, key: U -> real)
    requires forall i :: 0 <= i < |s| ==> tkey(s[i]) == key(f(s[i]))
    ensures Map(f, SortBy(s, tkey)) == SortBy(Map(f, s), key)
  {
    if s != [] {
      SortMap(f, s[1..], tkey, key);
      SortPermutes(s[1..], tkey);
      var t := SortBy(s[1..], tkey);
      forall i | 0 <= i < |t|
        ensures tkey(t[i]) == key(f(t[i]))
      {
        assert t[i] in multiset(s[1..]);
        var j :| 0 <= j < |s[1..]| && s[1..][j] == t[i];
      }
      InsertMap(f, s[0], t, tkey, key);
      assert Map(f, s)[1..] == Map(f, s[1..]);
    }
  }

  /** The record component and the key component of a `(value, key)` pair. */
  function Fst<A>(): ((A, real)) -> A { (p: (A, real)) => p.0 }
  function Snd<A>(): ((A, real)) -> real { (p: (A, real)) => p.1 }
}
