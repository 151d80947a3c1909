/** Masks on machine words. */
module Bits {
  import opened Arithmetic

  /** The bitwise and, bit by bit. */
  function And(x: nat, y: nat): (z: nat)
    ensures z <= y
  {
    if x == 0 || y == 0 then 0
    else 2 * And(x / 2, y / 2) + if x % 2 == 1 && y % 2 == 1 then 1 else 0
  }

  function Pow2(k: nat): (p: nat)
    ensures p >= 1
  {
    if k == 0 then 1 else 2 * Pow2(k - 1)
  }

  lemma DoubleModulus(x: nat, p: nat)
    requires p > 0
    ensures x % (2 * p) == 2 * (x / 2 % p) + x % 2
  {
    var q, r := x / 2 / p, x / 2 % p;
    assert x / 2 == p * q + r;
    assert 2 * p * q == 2 * (p * q);
    DivModUnique(x, 2 * p, q, 2 * r + x % 2);
  }

  lemma AndOdd(x: nat, m: nat)
    ensures And(x, 2 * m + 1) == 2 * And(x / 2, m) + x % 2
  {
    assert (2 * m + 1) / 2 == m && (2 * m + 1) % 2 == 1;
  }

  lemma MaskStep(x: nat, p: nat, d: nat)
    requires p > 0 && d == 2 * p && And(x / 2, p - 1) == x / 2 % p
    ensures And(x, d - 1) == x % d
  {
    AndOdd(x, p - 1);
    DoubleModulus(x, p);
  }

  /** A mask of k ones keeps the remainder modulo 2^k. */
  lemma {:induction false} MaskIsMod(x: nat, k: nat)
    ensures And(x, Pow2(k) - 1) == x % Pow2(k)
  {
    if k == 0 {
      assert And(x, 0) == 0;
    } else {
      MaskIsMod(x / 2, k - 1);
      MaskStep(x, Pow2(k - 1), Pow2(k));
    }
  }
}
