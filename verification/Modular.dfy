/** Division and remainder for moduli that are not constants. */
module Modular {

  lemma MulGrows(a: nat, m: nat)
    requires a > 0
    ensures a * m >= m
  {
  }

  lemma DivParts(x: nat, m: nat) returns (q: nat, r: nat)
    requires m > 0
    ensures q == x / m && r == x % m && x == q * m + r && r < m
  {
    q, r := x / m, x % m;
  }

  lemma DivUnique(x: nat, m: nat, q: nat, r: nat)
    requires m > 0 && x == q * m + r && r < m
    ensures x % m == r && x / m == q
  {
    var q2, r2 := x / m, x % m;
    assert x == q2 * m + r2;
    if q < q2 {
      MulGrows(q2 - q, m);
      assert false;
    } else if q > q2 {
      MulGrows(q - q2, m);
      assert false;
    }
  }

  lemma ModSmall(x: nat, m: nat)
    requires x < m
    ensures x % m == x
  {
    DivUnique(x, m, 0, x);
  }

  lemma ModAdd(x: nat, m: nat)
    requires m > 0
    ensures (x + m) % m == x % m
  {
    var q, r := x / m, x % m;
    assert x == q * m + r;
    assert (q + 1) * m == q * m + m;
    DivUnique(x + m, m, q + 1, r);
  }

  /** Stepping once around a circle of `m` from within it. */
  lemma ModOnce(x: nat, m: nat)
    requires m <= x < 2 * m
    ensures x % m == x - m
  {
    DivUnique(x, m, 1, x - m);
  }
}
