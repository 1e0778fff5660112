/** Output frame file names. Every converter writes frame k as
    `frame_{k:06d}.png` (Python's zero-padded width-6 format, which grows
    past six digits rather than truncating); the encoder reads the printf
    pattern `frame_%06d.png` from index 0 upward, and the WEBGL converter's
    encoder instead globs `*.png` in lexicographic order. */
module FrameNames {
  import opened Arith

  predicate IsDigit(c: char) {
    '0' <= c <= '9'
  }

  predicate AllDigits(s: string) {
    forall k :: 0 <= k < |s| ==> IsDigit(s[k])
  }

  function DigitChar(d: nat): (c: char)
    requires d < 10
    ensures IsDigit(c) && (c as int) - ('0' as int) == d
  {
    ('0' as int + d) as char
  }

  function DigitValue(c: char): (d: nat)
    requires IsDigit(c)
    ensures d < 10
  {
    (c as int) - ('0' as int)
  }

  function Pow10(k: nat): (p: nat)
    ensures p >= 1
  {
    if k == 0 then 1 else 10 * Pow10(k - 1)
  }

  /** The decimal digits of i, without leading zeros (`str(i)`). */
  function Decimal(i: nat): (s: string)
    ensures |s| >= 1 && AllDigits(s)
  {
    if i < 10 then [DigitChar(i)] else Decimal(i / 10) + [DigitChar(i % 10)]
  }

  /** The number a string of digits denotes, most significant digit first. */
  function DigitsValue(s: string): nat
    requires AllDigits(s)
  {
    if s == [] then 0 else DigitValue(s[0]) * Pow10(|s| - 1) + DigitsValue(s[1..])
  }

  function Zeros(k: nat): (z: string)
    ensures |z| == k && AllDigits(z)
    ensures forall j :: 0 <= j < k ==> z[j] == '0'
  {
    if k == 0 then [] else ['0'] + Zeros(k - 1)
  }

  /** `f"{i:0{width}d}"` for a non-negative i: the digits of i left-padded with
      zeros to at least `width` characters. */
  function ZeroPad(i: nat, width: nat): (s: string)
    ensures AllDigits(s)
  {
    var d := Decimal(i);
    (if |d| < width then Zeros(width - |d|) else []) + d
  }

  /** The name the converters give frame i. */
  function FrameName(i: nat): string {
    "frame_" + ZeroPad(i, 6) + ".png"
  }

  lemma {:induction false} DigitsBound(s: string)
    requires AllDigits(s)
    ensures DigitsValue(s) < Pow10(|s|)
  {
    if s != [] {
      DigitsBound(s[1..]);
      assert DigitValue(s[0]) * Pow10(|s| - 1) <= 9 * Pow10(|s| - 1);
    }
  }

  lemma {:induction false} DigitsAppend(s: string, c: char)
    requires AllDigits(s) && IsDigit(c)
    ensures AllDigits(s + [c])
    ensures DigitsValue(s + [c]) == DigitsValue(s) * 10 + DigitValue(c)
  {
    if s != [] {
      var t := s + [c];
      assert t[0] == s[0] && t[1..] == s[1..] + [c] && |t| - 1 == |s|;
      DigitsAppend(s[1..], c);
      var v0, p, r := DigitValue(s[0]), Pow10(|s| - 1), DigitsValue(s[1..]);
      assert DigitsValue(s) == v0 * p + r;
      assert Pow10(|s|) == 10 * p;
      assert DigitsValue(t) == v0 * Pow10(|s|) + DigitsValue(s[1..] + [c]);
      ShiftDigit(v0, p, r, DigitValue(c));
    } else {
      assert [] + [c] == [c];
    }
  }

  lemma ShiftDigit(v0: int, p: int, r: int, d: int)
    ensures v0 * (10 * p) + (r * 10 + d) == (v0 * p + r) * 10 + d
  {
  }

  /** Reading back the decimal digits of i gives i. */
  lemma {:induction false} DecimalRoundTrip(i: nat)
    ensures DigitsValue(Decimal(i)) == i
  {
    if i >= 10 {
      DecimalRoundTrip(i / 10);
      DigitsAppend(Decimal(i / 10), DigitChar(i % 10));
    }
  }

  lemma {:induction false} LeadingZeros(k: nat, s: string)
    requires AllDigits(s)
    ensures DigitsValue(Zeros(k) + s) == DigitsValue(s)
  {
    if k > 0 {
      var t := Zeros(k) + s;
      assert t[0] == '0' && DigitValue('0') == 0;
      assert t[1..] == Zeros(k - 1) + s;
      LeadingZeros(k - 1, s);
      assert DigitsValue(t) == 0 * Pow10(|t| - 1) + DigitsValue(t[1..]);
    } else {
      assert Zeros(k) + s == s;
    }
  }

  /** Reading back a zero-padded number gives the number: padding loses nothing. */
  lemma ZeroPadRoundTrip(i: nat, width: nat)
    ensures DigitsValue(ZeroPad(i, width)) == i
  {
    var d := Decimal(i);
    DecimalRoundTrip(i);
    LeadingZeros(if |d| < width then width - |d| else 0, d);
    assert (if |d| < width then Zeros(width - |d|) else []) == Zeros(if |d| < width then width - |d| else 0);
  }

  lemma {:induction false} DecimalLength(i: nat, k: nat)
    requires k >= 1 && i < Pow10(k)
    ensures |Decimal(i)| <= k
  {
    if i >= 10 {
      assert k >= 2;
      DecimalLength(i / 10, k - 1);
    }
  }

  /** Below one million the padded index has exactly six digits and the name sixteen characters. */
  lemma FrameNameLength(i: nat)
    requires i < 1000000
    ensures |ZeroPad(i, 6)| == 6
    ensures |FrameName(i)| == 16
  {
    assert Pow10(6) == 1000000;
    DecimalLength(i, 6);
  }

  /** The index can be read back from a frame name, so distinct frames never share a name. */
  lemma FrameNameInjective(i: nat, j: nat)
    requires FrameName(i) == FrameName(j)
    ensures i == j
  {
    var a, b := ZeroPad(i, 6), ZeroPad(j, 6);
    assert FrameName(i)[6..|FrameName(i)| - 4] == a;
    assert FrameName(j)[6..|FrameName(j)| - 4] == b;
    ZeroPadRoundTrip(i, 6);
    ZeroPadRoundTrip(j, 6);
  }

  /** Python's string order `a < b`: by code point at the first difference,
      a proper prefix coming first. */
  predicate LexLess(a: string, b: string) {
    if a == [] then b != []
    else if b == [] then false
    else if a[0] != b[0] then a[0] < b[0]
    else LexLess(a[1..], b[1..])
  }

  /** Two equal-length digit strings whose first digits differ are ordered
      by their first digits. */
  lemma FirstDigitDecides(a: string, b: string)
    requires AllDigits(a) && AllDigits(b) && |a| == |b| >= 1 && a[0] != b[0]
    ensures DigitsValue(a) < DigitsValue(b) <==> a[0] < b[0]
  {
    var p := Pow10(|a| - 1);
    DigitsBound(a[1..]);
    DigitsBound(b[1..]);
    var da, db := DigitValue(a[0]), DigitValue(b[0]);
    assert DigitsValue(a) == da * p + DigitsValue(a[1..]);
    assert DigitsValue(b) == db * p + DigitsValue(b[1..]);
    assert a[0] < b[0] <==> da < db;
    LeadingTermDecides(da, db, DigitsValue(a[1..]), DigitsValue(b[1..]), p);
  }

  lemma LeadingTermDecides(da: nat, db: nat, ra: nat, rb: nat, p: nat)
    requires da != db && ra < p && rb < p
    ensures da * p + ra < db * p + rb <==> da < db
  {
    if da < db {
      MulLeft(da + 1, db, p);
    } else {
      MulLeft(db + 1, da, p);
    }
  }

  /** On digit strings of equal length, string order is numeric order. */
  lemma {:induction false} LexIsNumeric(a: string, b: string)
    requires AllDigits(a) && AllDigits(b) && |a| == |b|
    ensures LexLess(a, b) <==> DigitsValue(a) < DigitsValue(b)
  {
    if a != [] {
      if a[0] != b[0] {
        FirstDigitDecides(a, b);
      } else {
        LexIsNumeric(a[1..], b[1..]);
        var p := Pow10(|a| - 1);
        assert DigitsValue(a) == DigitValue(a[0]) * p + DigitsValue(a[1..]);
        assert DigitsValue(b) == DigitValue(a[0]) * p + DigitsValue(b[1..]);
      }
    }
  }

  lemma {:induction false} LexCommonPrefix(p: string, a: string, b: string)
    ensures LexLess(p + a, p + b) == LexLess(a, b)
  {
    if p != [] {
      assert (p + a)[0] == p[0] == (p + b)[0];
      assert (p + a)[1..] == p[1..] + a;
      assert (p + b)[1..] == p[1..] + b;
      LexCommonPrefix(p[1..], a, b);
    } else {
      assert p + a == a && p + b == b;
    }
  }

  lemma {:induction false} LexDecidedEarly(a: string, b: string, s: string, t: string)
    requires |a| == |b| && a != b
    ensures LexLess(a + s, b + t) == LexLess(a, b)
  {
    if a[0] == b[0] {
      assert (a + s)[1..] == a[1..] + s;
      assert (b + t)[1..] == b[1..] + t;
      LexDecidedEarly(a[1..], b[1..], s, t);
    }
  }

  lemma {:induction false} LexIrreflexive(a: string)
    ensures !LexLess(a, a)
  {
    if a != [] {
      LexIrreflexive(a[1..]);
    }
  }

  /** Below one million frames, sorting the names sorts the frames:
      `frame_i` comes before `frame_j` exactly when i < j. */
  lemma FrameNameOrder(i: nat, j: nat)
    requires i < 1000000 && j < 1000000
    ensures LexLess(FrameName(i), FrameName(j)) <==> i < j
  {
    var a, b := ZeroPad(i, 6), ZeroPad(j, 6);
    FrameNameLength(i);
    FrameNameLength(j);
    ZeroPadRoundTrip(i, 6);
    ZeroPadRoundTrip(j, 6);
    assert FrameName(i) == "frame_" + (a + ".png");
    assert FrameName(j) == "frame_" + (b + ".png");
    LexCommonPrefix("frame_", a + ".png", b + ".png");
    if a == b {
      LexIrreflexive(a + ".png");
    } else {
      LexDecidedEarly(a, b, ".png", ".png");
      LexIsNumeric(a, b);
    }
  }

  /** A printf-style file name pattern `prefix%0<width>dsuffix`. */
  datatype NamePattern = NamePattern(prefix: string, width: nat, suffix: string)

  /** The pattern the encoder is given. */
  const EncoderPattern: NamePattern := NamePattern("frame_", 6, ".png")

  function PatternText(p: NamePattern): string {
    p.prefix + "%0" + Decimal(p.width) + "d" + p.suffix
  }

  /** The file name the pattern denotes for index i (printf `%0Nd` of a non-negative int). */
  function Expand(p: NamePattern, i: nat): string {
    p.prefix + ZeroPad(i, p.width) + p.suffix
  }

  /** The encoder reads frame k when every index 0..k names an existing file. */
  ghost predicate EncoderReads(written: set<string>, k: nat) {
    forall j :: 0 <= j <= k ==> Expand(EncoderPattern, j) in written
  }

  /** The names written by a run of n frames are exactly what the encoder
      reads: frames 0..n-1 and no further, so none is skipped and the
      sequence stops at the last one written. */
  lemma EncoderReadsWrittenFrames(n: nat, k: nat)
    ensures PatternText(EncoderPattern) == "frame_%06d.png"
    ensures EncoderReads(set j | 0 <= j < n :: FrameName(j), k) <==> k < n
  {
    var written := set j | 0 <= j < n :: FrameName(j);
    assert Decimal(6) == "6";
    if k < n {
      forall j | 0 <= j <= k ensures Expand(EncoderPattern, j) in written {
        assert Expand(EncoderPattern, j) == FrameName(j);
      }
    } else if EncoderReads(written, k) {
      assert Expand(EncoderPattern, n) in written;
      var j :| 0 <= j < n && FrameName(j) == Expand(EncoderPattern, n);
      assert Expand(EncoderPattern, n) == FrameName(n);
      FrameNameInjective(j, n);
      assert false;
    }
  }
}
