/** Division with remainder, for symbolic divisors, and the modulus of 64-bit words. */
module Arithmetic {
  const W64 := 0x1_0000_0000_0000_0000

  lemma MulBounds(n: int, d: int)
    requires n > 0
    ensures d >= 1 ==> n * d >= n
    ensures d <= 0 ==> n * d <= 0
    ensures d <= -1 ==> n * d <= -n
  {
  }

  lemma DivModUnique(x: int, n: int, q: int, r: int)
    requires n > 0 && 0 <= r < n && x == n * q + r
    ensures x / n == q && x % n == r
  {
    var d := x / n - q;
    assert x == n * (x / n) + x % n;
    assert n * d == r - x % n;
    MulBounds(n, d);
  }

  lemma ModAddMultiple(k: int, m: int, n: int)
    requires n > 0
    ensures (k + n * m) % n == k % n && (k + n * m) / n == k / n + m
  {
    assert k + n * m == n * (k / n + m) + k % n;
    DivModUnique(k + n * m, n, k / n + m, k % n);
  }

  /** Tickets closer than n apart never share an index. */
  lemma SameResidue(j: int, k: int, n: int)
    requires n > 0 && j <= k < j + n && j % n == k % n
    ensures j == k
  {
    var q := k / n - j / n;
    assert k - j == n * q;
    MulBounds(n, q);
  }

  /** Every residue has exactly one ticket in a window of n. */
  lemma InWindow(k: int, lo: int, n: int) returns (r: int)
    requires n > 0
    ensures lo <= r < lo + n && r % n == k % n
    ensures r > k ==> r >= k + n
  {
    r := lo + (k - lo) % n;
    assert k - lo == n * ((k - lo) / n) + (k - lo) % n;
    var m := -((k - lo) / n);
    assert r == k + n * m;
    ModAddMultiple(k, m, n);
    MulBounds(n, m);
  }
}
