/** Nonlinear facts, one at a time, so that no other proof has to search for them. */
module Arith {

  lemma MulAssoc(a: int, b: int, c: int)
    ensures a * b * c == a * (b * c)
  {
  }

  lemma MulCommutes(a: int, b: int)
    ensures a * b == b * a
  {
  }

  lemma MulDistributes(a: int, b: int, c: int)
    ensures a * (b + c) == a * b + a * c
    ensures (b + c) * a == b * a + c * a
  {
  }

  lemma MulAtMost(a: nat, b: nat, c: nat)
    requires b <= c
    ensures a * b <= a * c
  {
    MulDistributes(a, b, c - b);
  }

  lemma ModUnique(a: nat, m: nat, q: nat, r: nat)
    requires a == q * m + r && r < m
    ensures a / m == q && a % m == r
  {
    var q', r' := a / m, a % m;
    assert a == q' * m + r';
    if q' > q {
      MulAtMost(m, q + 1, q');
    } else if q' < q {
      MulAtMost(m, q' + 1, q);
    }
  }

  lemma ModAtMost(a: nat, m: nat)
    requires m > 0
    ensures a % m <= a
  {
    MulAtMost(m, 0, a / m);
  }

  lemma AddModulo(a: nat, b: nat, m: nat)
    requires m > 0
    ensures (a % m + b) % m == (a + b) % m
  {
    var c := a % m + b;
    MulDistributes(m, a / m, c / m);
    ModUnique(a + b, m, a / m + c / m, c % m);
  }

  lemma DivideTwice(a: nat, b: nat, p: nat)
    requires p > 0 && b < 0x100
    ensures (0x100 * a + b) / (0x100 * p) == a / p
  {
    var q, r := a / p, a % p;
    assert a == p * q + r;
    MulAssoc(0x100, p, q);
    MulCommutes(0x100 * p, q);
    ModUnique(0x100 * a + b, 0x100 * p, q, 0x100 * r + b);
  }
}
