/** The brightness-to-character quantiser of `frame_to_ascii`:
    a gray value p in 0..255 selects `chars[min(int(p / 256 * N), N - 1)]`.
    For integer p <= 255 the float product p / 256 * N is exact, so the
    truncation is the integer floor `(p * N) / 256`. */
module Quantize {
  import opened Arith

  /** A pixel of a grayscale ("L" mode) image. */
  type Pixel = p: int | 0 <= p <= 255

  function Min(a: int, b: int): int {
    if a <= b then a else b
  }

  /** The alphabet index chosen for gray value p with an alphabet of n characters. */
  function QuantIndex(p: Pixel, n: nat): (idx: int)
    requires n >= 1
    ensures 0 <= idx <= n - 1
  {
    Min((p * n) / 256, n - 1)
  }

  /** The character a pixel is drawn as. */
  function CellChar(chars: string, p: Pixel): (c: char)
    requires |chars| >= 1
    ensures c in chars
  {
    chars[QuantIndex(p, |chars|)]
  }

  /** The clamp to n - 1 never fires: the floor alone already stays below n. */
  lemma ClampIsRedundant(p: Pixel, n: nat)
    requires n >= 1
    ensures (p * n) / 256 <= n - 1
    ensures QuantIndex(p, n) == (p * n) / 256
  {
    MulLeft(p, 255, n);
    assert p * n < 256 * n;
  }

  /** A brighter pixel never selects a darker character. */
  lemma Monotone(p1: Pixel, p2: Pixel, n: nat)
    requires n >= 1 && p1 <= p2
    ensures QuantIndex(p1, n) <= QuantIndex(p2, n)
  {
    MulLeft(p1, p2, n);
    DivMono(p1 * n, p2 * n, 256);
  }

  /** Black always selects the first (darkest) character. */
  lemma BlackIsFirst(n: nat)
    requires n >= 1
    ensures QuantIndex(0, n) == 0
  {
  }

  /** White selects the last character exactly when the alphabet has at most
      256 characters; in a larger alphabet the top characters are never chosen. */
  lemma WhiteIsLastIff(n: nat)
    requires n >= 1
    ensures QuantIndex(255, n) == n - 1 <==> n <= 256
  {
    ClampIsRedundant(255, n);
    if n <= 256 {
      assert 256 * (n - 1) <= 255 * n;
      assert (255 * n) / 256 >= n - 1;
    } else {
      assert 255 * n < 256 * (n - 1);
      assert (255 * n) / 256 < n - 1;
    }
  }

  /** With more than 256 characters the last character is unreachable. */
  lemma LargeAlphabetTopUnreachable(p: Pixel, n: nat)
    requires n > 256
    ensures QuantIndex(p, n) < n - 1
  {
    Monotone(p, 255, n);
    WhiteIsLastIff(n);
  }
}
