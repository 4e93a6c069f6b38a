/** Machine words as natural numbers: the bitwise operators of C, read bit by bit. */
module Bits {
  import opened Basics
  import Arith

  function Pow2(n: nat): (p: nat)
    ensures p > 0
  {
    if n == 0 then 1 else 2 * Pow2(n - 1)
  }

  /** Bit `i` of `w`. */
  predicate Bit(w: nat, i: nat)
    decreases i
  {
    if i == 0 then w % 2 == 1 else Bit(w / 2, i - 1)
  }

  /** `a | b` */
  function Or(a: nat, b: nat): nat {
    if a == 0 && b == 0 then 0
    else (if a % 2 == 1 || b % 2 == 1 then 1 else 0) + 2 * Or(a / 2, b / 2)
  }

  /** `a & b` */
  function And(a: nat, b: nat): nat {
    if a == 0 && b == 0 then 0
    else (if a % 2 == 1 && b % 2 == 1 then 1 else 0) + 2 * And(a / 2, b / 2)
  }

  /** `~a` in a word of `n` bits */
  function Not(a: nat, n: nat): nat
    requires a < Pow2(n)
  {
    Pow2(n) - 1 - a
  }

  /** `a << s` in a word of `n` bits: `s` single shifts, each of which drops the top bit */
  function Shl(a: nat, s: nat, n: nat): (r: nat)
    ensures a < Pow2(n) ==> r < Pow2(n)
    decreases s
  {
    if s == 0 then a else Shl(Double(a, n), s - 1, n)
  }

  function Double(a: nat, n: nat): nat {
    if 2 * a < Pow2(n) then 2 * a else 2 * a - Min(2 * a, Pow2(n))
  }

  lemma {:induction false} ZeroBit(i: nat)
    ensures !Bit(0, i)
  {
    if i > 0 { ZeroBit(i - 1); }
  }

  lemma OrHalf(a: nat, b: nat)
    ensures Or(a, b) / 2 == Or(a / 2, b / 2)
    ensures Or(a, b) % 2 == 1 <==> a % 2 == 1 || b % 2 == 1
  {
  }

  lemma {:induction false} OrBit(a: nat, b: nat, i: nat)
    ensures Bit(Or(a, b), i) <==> Bit(a, i) || Bit(b, i)
  {
    hide Or;
    OrHalf(a, b);
    if i > 0 {
      OrBit(a / 2, b / 2, i - 1);
    }
  }

  lemma {:induction false} AndBit(a: nat, b: nat, i: nat)
    ensures Bit(And(a, b), i) <==> Bit(a, i) && Bit(b, i)
  {
    if a == 0 && b == 0 {
      ZeroBit(i);
    } else if i > 0 {
      assert And(a, b) / 2 == And(a / 2, b / 2);
      AndBit(a / 2, b / 2, i - 1);
    }
  }

  lemma {:induction false} OrBound(a: nat, b: nat, n: nat)
    requires a < Pow2(n) && b < Pow2(n)
    ensures Or(a, b) < Pow2(n)
    decreases n
  {
    if n > 0 { OrBound(a / 2, b / 2, n - 1); }
  }

  lemma {:induction false} AndBound(a: nat, b: nat, n: nat)
    requires b < Pow2(n)
    ensures And(a, b) < Pow2(n)
    decreases n, a
  {
    if n > 0 {
      AndBound(a / 2, b / 2, n - 1);
    } else if a > 0 {
      AndBound(a / 2, 0, 0);
    }
  }

  lemma {:induction false} Pow2Bit(k: nat, i: nat)
    ensures Bit(Pow2(k), i) <==> i == k
  {
    if i > 0 {
      if k == 0 { ZeroBit(i - 1); } else { Pow2Bit(k - 1, i - 1); }
    }
  }

  /** The mask of the `k` lowest bits. */
  lemma {:induction false} MaskBit(k: nat, i: nat)
    ensures Bit(Pow2(k) - 1, i) <==> i < k
  {
    if k == 0 {
      ZeroBit(i);
    } else if i > 0 {
      assert (Pow2(k) - 1) / 2 == Pow2(k - 1) - 1;
      MaskBit(k - 1, i - 1);
    }
  }

  lemma {:induction false} NotBit(a: nat, n: nat, i: nat)
    requires a < Pow2(n) && i < n
    ensures Bit(Not(a, n), i) <==> !Bit(a, i)
    decreases n
  {
    if i > 0 {
      assert Not(a, n) / 2 == Not(a / 2, n - 1);
      NotBit(a / 2, n - 1, i - 1);
    }
  }

  /** Words of `n` bits that agree on every bit are equal. */
  lemma {:induction false} SameBits(a: nat, b: nat, n: nat)
    requires a < Pow2(n) && b < Pow2(n)
    requires forall i :: 0 <= i < n ==> (Bit(a, i) <==> Bit(b, i))
    ensures a == b
    decreases n
  {
    if n > 0 {
      assert Bit(a, 0) <==> Bit(b, 0);
      forall i | 0 <= i < n - 1
        ensures Bit(a / 2, i) <==> Bit(b / 2, i)
      {
        assert Bit(a, i + 1) <==> Bit(b, i + 1);
      }
      SameBits(a / 2, b / 2, n - 1);
    }
  }

  lemma {:induction false} HighBitsClear(a: nat, n: nat, i: nat)
    requires a < Pow2(n) && n <= i
    ensures !Bit(a, i)
    decreases n
  {
    if n == 0 {
      ZeroBit(i);
    } else {
      HighBitsClear(a / 2, n - 1, i - 1);
    }
  }

  /** Without its top bit, a word has the same lower bits. */
  lemma {:induction false} DropTop(a: nat, m: nat, i: nat)
    requires Pow2(m) <= a < Pow2(m + 1) && i < m
    ensures Bit(a - Pow2(m), i) <==> Bit(a, i)
    decreases i
  {
    if i > 0 {
      assert (a - Pow2(m)) / 2 == a / 2 - Pow2(m - 1);
      DropTop(a / 2, m - 1, i - 1);
    }
  }

  lemma DoubleBit(a: nat, n: nat, i: nat)
    requires a < Pow2(n) && i < n
    ensures Bit(Double(a, n), i) <==> i > 0 && Bit(a, i - 1)
  {
    if 2 * a >= Pow2(n) {
      assert Double(a, n) == 2 * (a - Pow2(n - 1));
      if i > 0 {
        DropTop(a, n - 1, i - 1);
      }
    }
  }

  lemma {:induction false} ShlBit(a: nat, s: nat, n: nat, i: nat)
    requires a < Pow2(n) && i < n
    ensures Bit(Shl(a, s, n), i) <==> s <= i && Bit(a, i - s)
    decreases s
  {
    if s > 0 {
      ShlBit(Double(a, n), s - 1, n, i);
      if s - 1 <= i {
        DoubleBit(a, n, i - (s - 1));
      }
    }
  }

  /** A shift that drops nothing multiplies. */
  lemma {:induction false} ShlMultiplies(a: nat, s: nat, n: nat)
    requires a * Pow2(s) < Pow2(n)
    ensures Shl(a, s, n) == a * Pow2(s)
    decreases s
  {
    if s > 0 {
      Arith.MulAssoc(a, 2, Pow2(s - 1));
      Arith.MulCommutes(a, 2);
      Arith.MulAtMost(2 * a, 1, Pow2(s - 1));
      ShlMultiplies(2 * a, s - 1, n);
    }
  }

  lemma {:induction false} Pow2Monotone(a: nat, b: nat)
    requires a <= b
    ensures Pow2(a) <= Pow2(b)
    decreases b
  {
    if a < b { Pow2Monotone(a, b - 1); }
  }

  lemma Pow2Values()
    ensures Pow2(8) == 0x100 && Pow2(32) == 0x1_0000_0000 && Pow2(64) == 0x1_0000_0000_0000_0000
  {
    assert Pow2(8) == 0x100;
    assert Pow2(16) == 0x100 * 0x100;
    Pow2Sum(16, 16);
    Pow2Sum(32, 32);
  }

  lemma {:induction false} Pow2Sum(a: nat, b: nat)
    ensures Pow2(a + b) == Pow2(a) * Pow2(b)
    decreases a
  {
    if a > 0 { Pow2Sum(a - 1, b); }
  }
}
