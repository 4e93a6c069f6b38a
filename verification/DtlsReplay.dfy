/**
 The replay window of the DTLS record layer (section 4.1.2.6 of RFC 6347, dtls_record.cc): 64 bits and a
 maximum refine the set of all numbers ever recorded.
 */
module DtlsReplay {
  import opened Basics
  import opened Bits
  import opened DtlsWire

  const WINDOW_SIZE: nat := 64    // kWindowSize

  // ---------- to_u64_be ----------

  /** Shifting in a byte from below: the OR of disjoint bits is a sum. */
  lemma {:induction false} OrAdds(a: nat, b: nat, k: nat)
    requires b < Pow2(k)
    ensures Or(a * Pow2(k), b) == a * Pow2(k) + b
    decreases k
  {
    if k == 0 {
      OrZero(a);
    } else {
      var h := Pow2(k - 1);
      assert a * Pow2(k) == 2 * (a * h);
      OrAdds(a, b / 2, k - 1);
    }
  }

  lemma {:induction false} OrZero(a: nat)
    ensures Or(a, 0) == a
  {
    if a > 0 {
      OrZero(a / 2);
    }
  }

  lemma ShiftedByteFits(ret: nat, b: byte, i: nat)
    requires i < 8 && ret < Pow256(i)
    ensures Or(Shl(ret, 8, 64), b) == 0x100 * ret + b
  {
    Pow2Values();
    assert Pow256(7) == 0x100_0000_0000_0000 by {
      assert Pow256(3) == 0x100_0000;
    }
    Pow256Monotone(i, 7);
    ShlMultiplies(ret, 8, 64);
    OrAdds(ret, b, 8);
  }

  lemma {:induction false} Pow256Monotone(a: nat, b: nat)
    requires a <= b
    ensures Pow256(a) <= Pow256(b)
    decreases b
  {
    if a < b { Pow256Monotone(a, b - 1); }
  }

  /** to_u64_be */
  method ToU64Be(bs: Bytes) returns (ret: nat)
    requires |bs| == 8
    ensures ret == FromBigEndian(bs) && ret < Pow256(8)
  {
    ret := 0;
    for i := 0 to 8
      invariant ret == FromBigEndian(bs[..i])
    {
      FromBigEndianBound(bs[..i]);
      ShiftedByteFits(ret, bs[i], i);
      assert bs[..i + 1][..i] == bs[..i];
      ret := Or(Shl(ret, 8, 64), bs[i]);
    }
    assert bs[..8] == bs;
    FromBigEndianBound(bs);
  }

  // ---------- the window ----------

  /** The bit map describes `seen` as far as it reaches below the maximum. */
  ghost predicate Describes(map64: nat, max: nat, seen: set<nat>) {
    && map64 < Pow2(WINDOW_SIZE)
    && (forall n :: n in seen ==> n <= max)
    && (forall i: nat :: i < WINDOW_SIZE ==> (Bit(map64, i) <==> i <= max && max - i in seen))
  }

  /** Sliding the window forward to a new maximum. */
  lemma Slide(map64: nat, max: nat, seen: set<nat>, shift: nat)
    requires Describes(map64, max, seen) && shift > 0
    ensures Describes(if shift >= WINDOW_SIZE then 0 else Shl(map64, shift, WINDOW_SIZE), max + shift, seen)
  {
    if shift >= WINDOW_SIZE {
      forall i: nat | i < WINDOW_SIZE
        ensures !Bit(0, i)
      {
        ZeroBit(i);
      }
    } else {
      forall i: nat | i < WINDOW_SIZE
        ensures Bit(Shl(map64, shift, WINDOW_SIZE), i) <==> shift <= i && Bit(map64, i - shift)
      {
        ShlBit(map64, shift, WINDOW_SIZE, i);
      }
    }
  }

  /** Setting the bit of a number inside the window; older numbers leave no trace. */
  lemma Mark(map64: nat, max: nat, seen: set<nat>, n: nat)
    requires Describes(map64, max, seen) && n <= max
    ensures Describes(if max - n < WINDOW_SIZE then Or(map64, Pow2(max - n)) else map64, max, seen + {n})
  {
    var idx := max - n;
    if idx < WINDOW_SIZE {
      Pow2Monotone(idx, WINDOW_SIZE - 1);
      OrBound(map64, Pow2(idx), WINDOW_SIZE);
      forall i: nat | i < WINDOW_SIZE
        ensures Bit(Or(map64, Pow2(idx)), i) <==> Bit(map64, i) || i == idx
      {
        OrBit(map64, Pow2(idx), i);
        Pow2Bit(idx, i);
      }
    }
  }

  /** The test `map & (1 << idx)` reads one bit. */
  lemma TestsBit(map64: nat, idx: nat)
    requires idx < WINDOW_SIZE && map64 < Pow2(WINDOW_SIZE)
    ensures And(map64, Pow2(idx)) != 0 <==> Bit(map64, idx)
  {
    AndBit(map64, Pow2(idx), idx);
    Pow2Bit(idx, idx);
    ZeroBit(idx);
    if !Bit(map64, idx) {
      forall i: nat
        ensures !Bit(And(map64, Pow2(idx)), i)
      {
        AndBit(map64, Pow2(idx), i);
        Pow2Bit(idx, i);
      }
      NoBits(And(map64, Pow2(idx)));
    }
  }

  lemma {:induction false} NoBits(w: nat)
    requires forall i: nat :: !Bit(w, i)
    ensures w == 0
  {
    if w > 0 {
      assert !Bit(w, 0);
      forall i: nat
        ensures !Bit(w / 2, i)
      {
        assert !Bit(w, i + 1);
      }
      NoBits(w / 2);
    }
  }

  class Bitmap {
    var map64: nat
    var maxSeqNum: nat
    ghost var seen: set<nat>

    ghost predicate Valid()
      reads this
    {
      Describes(map64, maxSeqNum, seen)
    }

    constructor ()
      ensures Valid() && seen == {} && maxSeqNum == 0
    {
      map64, maxSeqNum, seen := 0, 0, {};
      new;
      forall i: nat | i < WINDOW_SIZE
        ensures !Bit(0, i)
      {
        ZeroBit(i);
      }
    }

    /** dtls1_bitmap_should_discard: recorded before, or too old to tell. */
    method ShouldDiscard(seqNum: Bytes) returns (discard: bool)
      requires Valid() && |seqNum| == 8
      ensures discard <==> FromBigEndian(seqNum) in seen || FromBigEndian(seqNum) + WINDOW_SIZE <= maxSeqNum
    {
      var n := ToU64Be(seqNum);
      if n > maxSeqNum {
        return false;
      }
      var idx := maxSeqNum - n;
      if idx >= WINDOW_SIZE {
        return true;
      }
      TestsBit(map64, idx);
      discard := And(map64, Pow2(idx)) != 0;
    }

    /** dtls1_bitmap_record */
    method Record(seqNum: Bytes)
      requires Valid() && |seqNum| == 8
      modifies this
      ensures Valid() && seen == old(seen) + {FromBigEndian(seqNum)}
      ensures maxSeqNum == if FromBigEndian(seqNum) > old(maxSeqNum) then FromBigEndian(seqNum) else old(maxSeqNum)
    {
      var n := ToU64Be(seqNum);
      if n > maxSeqNum {
        var shift := n - maxSeqNum;
        Slide(map64, maxSeqNum, seen, shift);
        map64 := if shift >= WINDOW_SIZE then 0 else Shl(map64, shift, WINDOW_SIZE);
        maxSeqNum := n;
      }
      Mark(map64, maxSeqNum, seen, n);
      var idx := maxSeqNum - n;
      if idx < WINDOW_SIZE {
        map64 := Or(map64, Pow2(idx));
      }
      seen := seen + {n};
    }

    /** `OPENSSL_memset(&bitmap, 0, sizeof(bitmap))` on an epoch change */
    method Clear()
      modifies this
      ensures Valid() && seen == {} && maxSeqNum == 0
    {
      map64, maxSeqNum, seen := 0, 0, {};
      forall i: nat | i < WINDOW_SIZE
        ensures !Bit(0, i)
      {
        ZeroBit(i);
      }
    }
  }
}
