/** Small facts of non-linear integer arithmetic used by several proofs. */
module Arith {

  lemma MulLeft(a: int, b: int, n: nat)
    requires a <= b
    ensures a * n <= b * n
  {
  }

  lemma DivMono(x: nat, y: nat, d: nat)
    requires x <= y && d > 0
    ensures x / d <= y / d
  {
    var qx, qy := x / d, y / d;
    if qx > qy {
      MulLeft(qy + 1, qx, d);
      assert false;
    }
  }
}
