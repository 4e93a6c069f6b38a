/**
 The wrapping field iterator of pb_common.c and the required-field mask of `pb_decode_noinit`.
 Descriptors end in a terminator with tag 0; extension fields are not part of this model.
 */
module PbCommon {
  import opened Basics
  import opened Schema
  import opened Bits
  import Arith

  // PB_LAST_FIELD: all zeros, which reads as a required varint of tag 0
  const LAST_FIELD := Field(0, Varint, Required, 0, 0, 0, [], None)

  predicate TagsNonzero(fields: seq<Field>) {
    forall i :: 0 <= i < |fields| ==> fields[i].tag != 0
  }

  class FieldIter {
    const fields: seq<Field>
    var pos: nat
    var requiredFieldIndex: nat

    /** The position never rests on the terminator of a non-empty descriptor. */
    ghost predicate Valid()
      reads this
    {
      && TagsNonzero(fields)
      && (if fields == [] then pos == 0 else pos < |fields|)
      && requiredFieldIndex == RequiredCount(fields[..pos])
    }

    function Entry(): Field
      reads this
    {
      if pos < |fields| then fields[pos] else LAST_FIELD
    }

    constructor (fields: seq<Field>)
      requires TagsNonzero(fields)
      ensures Valid() && this.fields == fields && pos == 0
    {
      this.fields := fields;
      pos := 0;
      requiredFieldIndex := 0;
    }

    method Begin() returns (ok: bool)
      requires TagsNonzero(fields)
      modifies this
      ensures Valid() && pos == 0 && (ok <==> fields != [])
    {
      pos := 0;
      requiredFieldIndex := 0;
      ok := Entry().tag != 0;
    }

    /** One step; false when it wrapped to the first entry, or when there is none. */
    method Next() returns (ok: bool)
      requires Valid()
      modifies this
      ensures Valid()
      ensures ok <==> old(pos) + 1 < |fields|
      ensures pos == if ok then old(pos) + 1 else 0
    {
      var prev := Entry();
      if prev.tag == 0 {
        return false;
      }
      RequiredCountSnoc(fields, pos);
      pos := pos + 1;
      if Entry().tag == 0 {
        ok := Begin();
        return false;
      }
      if prev.htype.OneOf? && Entry().htype.OneOf? && Entry().slot == prev.slot {
        return true;    // no advance of the data pointer inside a union
      }
      if prev.htype.Required? {
        requiredFieldIndex := requiredFieldIndex + 1;
      }
      return true;
    }

    /**
     From any position: stops at the entry with the tag if there is one, otherwise comes back to where it was.
     Tag 0 is found only as the terminator of an empty descriptor.
     */
    method Find(tag: nat) returns (ok: bool)
      requires Valid() && DistinctTags(fields)
      modifies this
      ensures Valid()
      ensures ok <==> Schema.Find(fields, tag).Some? || (fields == [] && tag == 0)
      ensures Schema.Find(fields, tag).Some? ==> pos == Schema.Find(fields, tag).value
      ensures !ok ==> pos == old(pos)
    {
      var start := pos;
      ghost var wrapped := false;
      while true
        invariant Valid()
        invariant if wrapped then pos < start else start <= pos
        invariant forall j :: start <= j < (if wrapped then |fields| else pos) ==> fields[j].tag != tag
        invariant wrapped ==> forall j :: 0 <= j < pos ==> fields[j].tag != tag
        decreases !wrapped, |fields| - pos
      {
        if Entry().tag == tag {
          if fields != [] { FindDistinct(fields, pos); }
          return true;
        }
        var more := Next();
        if pos == start {
          assert forall j :: 0 <= j < |fields| ==> fields[j].tag != tag;
          return false;
        }
        if !more { wrapped := true; }
      }
    }

    /** Seeks to the end of the descriptor to learn how many fields are required. */
    method CountRequired() returns (count: nat)
      requires Valid()
      modifies this
      ensures Valid() && count == RequiredCount(fields)
    {
      var more := true;
      var last := Entry();
      count := requiredFieldIndex;
      while more
        invariant Valid()
        invariant more ==> count == requiredFieldIndex && last == Entry()
        invariant !more ==> pos == 0
        invariant !more && fields != [] ==> last == fields[|fields| - 1]
        invariant !more && fields != [] ==> count == RequiredCount(fields[..|fields| - 1])
        invariant !more && fields == [] ==> count == 0
        decreases more, |fields| - pos
      {
        count := requiredFieldIndex;
        last := Entry();
        ghost var at := pos;
        more := Next();
        if more {
          count := requiredFieldIndex;
          last := Entry();
        } else if fields != [] {
          assert at == |fields| - 1;
        }
      }
      if last.htype.Required? && Entry().tag != 0 {
        count := count + 1;
      }
      assert fields != [] ==> fields[..|fields|] == fields;
    }
  }

  lemma RequiredCountSnoc(fields: seq<Field>, i: nat)
    requires i < |fields|
    ensures RequiredCount(fields[..i + 1])
         == RequiredCount(fields[..i]) + if fields[i].htype.Required? then 1 else 0
  {
    assert fields[..i + 1][..i] == fields[..i];
  }

  // ---------- the mask of required fields seen ----------

  const ALL_BITS: nat := 0xFFFF_FFFF

  lemma {:induction false} RequiredCountMonotone(fields: seq<Field>, i: nat, j: nat)
    requires i <= j <= |fields|
    ensures RequiredCount(fields[..i]) <= RequiredCount(fields[..j])
    decreases j
  {
    if i < j {
      RequiredCountSnoc(fields, j - 1);
      RequiredCountMonotone(fields, i, j - 1);
    }
  }

  /** Required fields have distinct bits, all below the count. */
  lemma RequiredIndex(fields: seq<Field>, i: nat, j: nat)
    requires i < j < |fields| && fields[i].htype.Required? && fields[j].htype.Required?
    ensures RequiredCount(fields[..i]) < RequiredCount(fields[..j])
  {
    RequiredCountSnoc(fields, i);
    RequiredCountMonotone(fields, i + 1, j);
  }

  lemma RequiredIndexBound(fields: seq<Field>, i: nat)
    requires i < |fields| && fields[i].htype.Required?
    ensures RequiredCount(fields[..i]) < RequiredCount(fields)
  {
    RequiredCountSnoc(fields, i);
    RequiredCountMonotone(fields, i + 1, |fields|);
    assert fields[..|fields|] == fields;
  }

  /** Every bit below the count belongs to some required field. */
  lemma {:induction false} RequiredAt(fields: seq<Field>, b: nat) returns (i: nat)
    requires b < RequiredCount(fields)
    ensures i < |fields| && fields[i].htype.Required? && RequiredCount(fields[..i]) == b
  {
    var n := |fields| - 1;
    if b < RequiredCount(fields[..n]) {
      i := RequiredAt(fields[..n], b);
      assert fields[..n][..i] == fields[..i];
    } else {
      i := n;
    }
  }

  predicate SeenBit(words: seq<nat>, b: nat)
    requires |words| == 2 && b < MAX_REQUIRED_FIELDS
  {
    Bit(words[b / 32], b % 32)
  }

  /** The two words hold the set of required fields seen, one bit each, and no other bits. */
  ghost predicate Mask(fields: seq<Field>, seen: set<nat>, words: seq<nat>) {
    && |words| == 2 && words[0] < Pow2(32) && words[1] < Pow2(32)
    && (forall i :: 0 <= i < |fields| && fields[i].htype.Required? && RequiredCount(fields[..i]) < 64 ==>
          (i in seen <==> SeenBit(words, RequiredCount(fields[..i]))))
    && (forall b :: RequiredCount(fields) <= b < 64 ==> !SeenBit(words, b))
  }

  function MarkBit(words: seq<nat>, b: nat): seq<nat>
    requires |words| == 2 && b < 64
  {
    words[b / 32 := Or(words[b / 32], Shl(1, b % 32, 32))]
  }

  /** `1 << b` has one bit. */
  lemma OneShifted(b: nat, c: nat)
    requires b < 32 && c < 32
    ensures Shl(1, b, 32) < Pow2(32) && (Bit(Shl(1, b, 32), c) <==> b == c)
  {
    Pow2Values();
    ShlBit(1, b, 32, c);
    if b <= c {
      Pow2Bit(0, c - b);
      assert Pow2(0) == 1;
    }
    hide Shl, Bit;
  }

  lemma MarkBitSets(words: seq<nat>, b: nat, c: nat)
    requires |words| == 2 && words[0] < Pow2(32) && words[1] < Pow2(32) && b < 64 && c < 64
    ensures var w := MarkBit(words, b);
            w[0] < Pow2(32) && w[1] < Pow2(32) && (SeenBit(w, c) <==> SeenBit(words, c) || b == c)
  {
    hide Or, Shl, Bit, Pow2;
    var tmp := Shl(1, b % 32, 32);
    OneShifted(b % 32, c % 32);
    OrBound(words[b / 32], tmp, 32);
    OrBit(words[b / 32], tmp, c % 32);
  }

  lemma {:induction false} MarkSeen(fields: seq<Field>, seen: set<nat>, words: seq<nat>, i: nat)
    requires Mask(fields, seen, words) && i < |fields| && fields[i].htype.Required?
    requires RequiredCount(fields) < 64
    ensures RequiredCount(fields[..i]) < 64
    ensures Mask(fields, seen + {i}, MarkBit(words, RequiredCount(fields[..i])))
  {
    RequiredIndexBound(fields, i);
    var b := RequiredCount(fields[..i]);
    var w := MarkBit(words, b);
    MarkBitSets(words, b, b);
    forall j | 0 <= j < |fields| && fields[j].htype.Required? && RequiredCount(fields[..j]) < 64
      ensures j in seen + {i} <==> SeenBit(w, RequiredCount(fields[..j]))
    {
      MarkBitSets(words, b, RequiredCount(fields[..j]));
      if i < j { RequiredIndex(fields, i, j); } else if j < i { RequiredIndex(fields, j, i); }
    }
    forall c | RequiredCount(fields) <= c < 64
      ensures !SeenBit(w, c)
    {
      MarkBitSets(words, b, c);
    }
  }

  /** The comparison at the end of `pb_decode_noinit`. */
  predicate MaskComplete(words: seq<nat>, count: nat)
    requires |words| == 2 && count < 64
  {
    count > 0 ==>
      && (forall i :: 0 <= i < count / 32 ==> words[i] == ALL_BITS)
      && words[count / 32] == ALL_BITS / Pow2(32 - count % 32)
  }

  lemma DivideMask(p: nat, h: nat)
    requires p > 0 && h > 0
    ensures p * h >= 1 && (p * h - 1) / h == p - 1
  {
    assert p * h - 1 == (p - 1) * h + (h - 1);
    assert (p - 1) * h >= 0;
    Arith.ModUnique(p * h - 1, h, p - 1, h - 1);
  }

  lemma ShiftedAllBits(k: nat)
    requires 0 < k <= 32
    ensures ALL_BITS / Pow2(32 - k) == Pow2(k) - 1
  {
    Pow2Sum(k, 32 - k);
    DivideMask(Pow2(k), Pow2(32 - k));
    Pow2Values();
  }

  /** Of the 32 bits of `w` the lowest `k` are set, and no others. */
  ghost predicate LowBits(w: nat, k: nat) {
    forall b :: 0 <= b < 32 ==> (Bit(w, b) <==> b < k)
  }

  lemma WordIsMask(w: nat, k: nat)
    requires w < Pow2(32) && k <= 32
    ensures w == Pow2(k) - 1 <==> LowBits(w, k)
  {
    var mask := Pow2(k) - 1;
    forall b | 0 <= b < 32 ensures Bit(mask, b) <==> b < k { MaskBit(k, b); }
    if LowBits(w, k) {
      Pow2Monotone(k, 32);
      SameBits(w, mask, 32);
    }
  }

  /** Word by word: which comparisons `MaskComplete` makes. */
  lemma MaskCompleteWords(words: seq<nat>, n: nat)
    requires |words| == 2 && 0 < n < 64 && n % 32 != 0
    ensures MaskComplete(words, n) <==>
            if n < 32 then words[0] == Pow2(n) - 1
            else words[0] == Pow2(32) - 1 && words[1] == Pow2(n - 32) - 1
  {
    hide Pow2;
    Pow2Values();
    ShiftedAllBits(n % 32);
    if n < 32 {
      assert n / 32 == 0 && n % 32 == n;
    } else {
      assert n / 32 == 1 && n % 32 == n - 32;
    }
  }

  /** All bits below `n` are set. */
  ghost predicate AllSeen(words: seq<nat>, n: nat)
    requires |words| == 2 && n <= 64
  {
    forall b :: 0 <= b < n ==> SeenBit(words, b)
  }

  lemma AllSeenWords(words: seq<nat>, n: nat)
    requires |words| == 2 && 0 < n < 64 && n % 32 != 0
    requires forall b :: n <= b < 64 ==> !SeenBit(words, b)
    ensures AllSeen(words, n) <==>
            if n < 32 then LowBits(words[0], n) else LowBits(words[0], 32) && LowBits(words[1], n - 32)
  {
    forall b | 0 <= b < 32
      ensures SeenBit(words, b) == Bit(words[0], b)
      ensures SeenBit(words, 32 + b) == Bit(words[1], b)
    {
    }
    if AllSeen(words, n) {
      forall b | 0 <= b < 32
        ensures Bit(words[0], b) <==> b < n
        ensures n > 32 ==> (Bit(words[1], b) <==> b < n - 32)
      {
        assert SeenBit(words, b) <==> b < n;
        assert SeenBit(words, 32 + b) <==> 32 + b < n;
      }
    } else {
      var b :| 0 <= b < n && !SeenBit(words, b);
      assert !Bit(words[b / 32], b % 32);
    }
  }

  /** The comparisons accept exactly when the lowest `n` bits are set, given that no higher bit is. */
  lemma MaskCompleteBits(words: seq<nat>, n: nat)
    requires |words| == 2 && words[0] < Pow2(32) && words[1] < Pow2(32)
    requires 0 < n < 64 && n % 32 != 0
    requires forall b :: n <= b < 64 ==> !SeenBit(words, b)
    ensures MaskComplete(words, n) <==> AllSeen(words, n)
  {
    MaskCompleteWords(words, n);
    AllSeenWords(words, n);
    if n < 32 {
      WordIsMask(words[0], n);
    } else {
      WordIsMask(words[0], 32);
      WordIsMask(words[1], n - 32);
    }
  }

  /** The end-of-message test succeeds exactly when every required field was seen. */
  lemma {:induction false} MaskCompleteExactly(fields: seq<Field>, seen: set<nat>, words: seq<nat>)
    requires Mask(fields, seen, words) && RequiredCountOk(fields)
    ensures MaskComplete(words, RequiredCount(fields))
        <==> forall i :: 0 <= i < |fields| && fields[i].htype.Required? ==> i in seen
  {
    if RequiredCount(fields) > 0 {
      MaskCompleteBits(words, RequiredCount(fields));
    }
    forall i | 0 <= i < |fields| && fields[i].htype.Required?
      ensures RequiredCount(fields[..i]) < RequiredCount(fields)
    {
      RequiredIndexBound(fields, i);
    }
    if RequiredCount(fields) > 0 && !AllSeen(words, RequiredCount(fields)) {
      var b :| 0 <= b < RequiredCount(fields) && !SeenBit(words, b);
      var i := RequiredAt(fields, b);
      assert i !in seen;
    }
  }
}
