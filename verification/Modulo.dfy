/** Residues. */
module Modulo {
  lemma MulAtLeast(p: int, k: int)
    requires p > 0
    ensures k >= 1 ==> p * k >= p
    ensures k <= -1 ==> p * k <= -p
  {
  }

  lemma DivModUnique(n: int, p: int, q: int, r: int)
    requires 0 <= r < p && n == p * q + r
    ensures n % p == r
  {
    var q', r' := n / p, n % p;
    var k := q - q';
    assert n == p * q' + r';
    assert p * k == p * q - p * q';
    MulAtLeast(p, k);
    assert k == 0;
  }

  lemma ModShift(a: int, k: int, p: int)
    requires p > 0
    ensures (a + p * k) % p == a % p
  {
    var q, r := a / p, a % p;
    assert a == p * q + r;
    assert p * (q + k) == p * q + p * k;
    DivModUnique(a + p * k, p, q + k, r);
  }

  lemma ModStep(x: nat, p: nat)
    requires p > 0 && x % p == 0
    ensures (x + p) % p == 0
    ensures forall y :: x < y < x + p ==> y % p != 0
  {
    var k := x / p;
    assert x == p * k;
    assert p * (k + 1) == p * k + p;
    DivModUnique(x + p, p, k + 1, 0);
    forall y | x < y < x + p
      ensures y % p != 0
    {
      DivModUnique(y, p, k, y - x);
    }
  }

  /** Numbers of the same residue that lie less than n apart are equal. */
  lemma SameResidue(a: int, b: int, n: int)
    requires n > 0 && a % n == b % n && a <= b < a + n
    ensures a == b
  {
    var q, r, d := a / n, a % n, b - a;
    assert a == n * q + r;
    if r + d < n {
      DivModUnique(b, n, q, r + d);
    } else {
      assert n * (q + 1) == n * q + n;
      DivModUnique(b, n, q + 1, r + d - n);
    }
  }
}
