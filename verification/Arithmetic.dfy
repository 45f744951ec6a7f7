/** Facts about products and quotients that several modules need. */
module Arithmetic {

  lemma {:induction false} MulAtLeast(n: int, z: int)
    requires n >= 0 && z >= 1
    ensures n * z >= n
  {
  }

  lemma {:induction false} MulBetween(n: int, z: int)
    requires -n < n * z < n
    ensures z == 0
  {
    if z >= 1 {
      MulAtLeast(n, z);
      assert false;
    } else if z <= -1 {
      MulAtLeast(n, -z);
      assert false;
    }
  }

  lemma {:induction false} DivModUnique(n: nat, d: nat, q: nat)
    requires d < n
    ensures (d + n * q) % n == d && (d + n * q) / n == q
  {
    var v := d + n * q;
    var z := v / n - q;
    assert n * z == n * (v / n) - n * q == d - v % n;
    MulBetween(n, z);
  }

  /** Halving and then dividing by p is dividing by 2p. */
  lemma {:induction false} DivDiv(a: nat, p: nat)
    requires p > 0
    ensures a / 2 / p == a / (2 * p)
  {
    var q, r := a / 2 / p, a / 2 % p;
    assert a == 2 * (q * p + r) + a % 2;
    assert 2 * (q * p + r) + a % 2 == (2 * r + a % 2) + (2 * p) * q;
    DivModUnique(2 * p, 2 * r + a % 2, q);
  }
}
