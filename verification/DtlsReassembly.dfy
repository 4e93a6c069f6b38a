/**
 Reassembly of one handshake message (`hm_fragment` in d1_both.cc): the message buffer and the bit mask of
 the bytes received so far. The mask refines a set of byte positions and is released exactly when that set
 is the whole message.
 */
module DtlsReassembly {
  import opened Basics
  import opened Bits
  import opened DtlsWire

  // ---------- bit masks ----------

  /** `(uint8_t)(~((1u << start) - 1) & ((1u << end) - 1))` */
  function BitRange(start: nat, end: nat): (r: nat)
    requires start <= 8 && end <= 8
    ensures r < 0x100
  {
    Pow2Monotone(start, 32);
    And(Not(Pow2(start) - 1, 32), Pow2(end) - 1) % 0x100    // the cast to uint8_t
  }

  /** The cast drops nothing. */
  lemma BitRangeWord(start: nat, end: nat)
    requires start <= 8 && end <= 8 && Pow2(start) - 1 < Pow2(32)
    ensures BitRange(start, end) == And(Not(Pow2(start) - 1, 32), Pow2(end) - 1)
  {
    hide And, Not, Pow2;
    Pow2Monotone(end, 8);
    AndBound(Not(Pow2(start) - 1, 32), Pow2(end) - 1, 8);
    FitsByte(And(Not(Pow2(start) - 1, 32), Pow2(end) - 1));
  }

  lemma FitsByte(x: nat)
    requires x < Pow2(8)
    ensures x % 0x100 == x
  {
    Pow2Values();
  }

  lemma BitRangeBit(start: nat, end: nat, i: nat)
    requires start <= 8 && end <= 8 && i < 8
    ensures Bit(BitRange(start, end), i) <==> start <= i < end
  {
    Pow2Monotone(start, 32);
    BitRangeWord(start, end);
    AndBit(Not(Pow2(start) - 1, 32), Pow2(end) - 1, i);
    NotBit(Pow2(start) - 1, 32, i);
    MaskBit(start, i);
    MaskBit(end, i);
  }

  /** Bit `k` of a mask stored eight bits to the byte. */
  predicate Holds(mask: seq<byte>, k: nat) {
    k / 8 < |mask| && Bit(mask[k / 8], k % 8)
  }

  /** Exactly the bits from `lo` to `hi` were added. */
  ghost predicate Added(before: seq<byte>, after: seq<byte>, lo: nat, hi: nat) {
    && |after| == |before|
    && forall k: nat :: k < 8 * |before| ==> (Holds(after, k) <==> Holds(before, k) || lo <= k < hi)
  }

  lemma AddedTwice(a: seq<byte>, b: seq<byte>, c: seq<byte>, lo: nat, mid: nat, hi: nat)
    requires Added(a, b, lo, mid) && Added(b, c, mid, hi) && lo <= mid <= hi
    ensures Added(a, c, lo, hi)
  {
  }

  /** `mask[i] |= bit_range(s, e)` */
  method OrRange(mask: array<byte>, i: nat, s: nat, e: nat)
    requires i < mask.Length && s <= 8 && e <= 8
    modifies mask
    ensures Added(old(mask[..]), mask[..], 8 * i + s, 8 * i + e)
  {
    Pow2Values();
    OrBound(mask[i], BitRange(s, e), 8);
    mask[i] := Or(mask[i], BitRange(s, e));
    forall k: nat | k < 8 * mask.Length
      ensures Holds(mask[..], k) <==> Holds(old(mask[..]), k) || 8 * i + s <= k < 8 * i + e
    {
      if k / 8 == i {
        OrBit(old(mask[i]), BitRange(s, e), k % 8);
        BitRangeBit(s, e, k % 8);
      }
    }
  }

  /** The bits from `lo` to `hi` of one byte are set. */
  ghost predicate BitsSet(b: nat, lo: nat, hi: nat) {
    forall j: nat :: lo <= j < hi ==> Bit(b, j)
  }

  lemma SetByRange(r: nat)
    requires r <= 8
    ensures BitsSet(BitRange(0, r), 0, r)
  {
    forall j: nat | j < r
      ensures Bit(BitRange(0, r), j)
    {
      BitRangeBit(0, r, j);
    }
  }

  /** A byte with no bit set from `r` on is the mask of its `r` low bits exactly if they are set. */
  lemma LowBitsSet(b: byte, r: nat)
    requires r <= 8 && forall j: nat :: r <= j < 8 ==> !Bit(b, j)
    ensures b == BitRange(0, r) <==> BitsSet(b, 0, r)
  {
    SetByRange(r);
    if BitsSet(b, 0, r) {
      forall j: nat | j < 8
        ensures Bit(b, j) <==> Bit(BitRange(0, r), j)
      {
        BitRangeBit(0, r, j);
      }
      Pow2Values();
      SameBits(b, BitRange(0, r), 8);
    }
  }

  lemma LowestBits(n: nat)
    ensures BitsSet(Pow2(n) - 1, 0, n)
  {
    var mask := Pow2(n) - 1;
    forall j: nat | j < n
      ensures Bit(mask, j)
    {
      MaskBit(n, j);
    }
  }

  lemma OnlyLowestBits(b: nat, n: nat)
    requires b < Pow2(n) && BitsSet(b, 0, n)
    ensures b == Pow2(n) - 1
  {
    LowestBits(n);
    SameBits(b, Pow2(n) - 1, n);
  }

  lemma FullByte(b: byte)
    ensures b == 0xff <==> BitsSet(b, 0, 8)
  {
    Pow2Values();
    LowestBits(8);
    if BitsSet(b, 0, 8) {
      OnlyLowestBits(b, 8);
    }
  }

  /** The loop over the bytes strictly between the first and the last one of a range. */
  method FillBytes(mask: array<byte>, lo: nat, hi: nat)
    requires lo <= hi <= mask.Length
    modifies mask
    ensures Added(old(mask[..]), mask[..], 8 * lo, 8 * hi)
  {
    for i := lo to hi
      invariant forall j :: lo <= j < i ==> mask[j] == 0xff
      invariant forall j :: 0 <= j < lo || i <= j < mask.Length ==> mask[j] == old(mask[j])
    {
      mask[i] := 0xff;
    }
    forall k: nat | k < 8 * mask.Length
      ensures Holds(mask[..], k) <==> Holds(old(mask[..]), k) || 8 * lo <= k < 8 * hi
    {
      FullByte(0xff);
      assert Bit(0xff, k % 8);
    }
  }

  /** The part of dtls1_hm_fragment_mark that sets bits. */
  method MarkRange(mask: array<byte>, start: nat, end: nat)
    requires start < end <= 8 * mask.Length
    modifies mask
    ensures Added(old(mask[..]), mask[..], start, end)
  {
    if start / 8 == end / 8 {
      OrRange(mask, start / 8, start % 8, end % 8);
    } else {
      ghost var a := mask[..];
      OrRange(mask, start / 8, start % 8, 8);
      ghost var b := mask[..];
      FillBytes(mask, start / 8 + 1, end / 8);
      AddedTwice(a, b, mask[..], start, 8 * (start / 8 + 1), 8 * (end / 8));
      if end % 8 != 0 {
        ghost var c := mask[..];
        OrRange(mask, end / 8, 0, end % 8);
        AddedTwice(a, c, mask[..], start, 8 * (end / 8), end);
      }
    }
  }

  /** The bits past the message are clear; they share a byte with its last ones. */
  ghost predicate TailClear(mask: seq<byte>, n: nat) {
    |mask| == (n + 7) / 8 && forall k: nat :: n <= k < 8 * |mask| ==> !Holds(mask, k)
  }

  ghost predicate HeldFrom(mask: seq<byte>, lo: nat, hi: nat) {
    forall k: nat :: lo <= k < hi ==> Holds(mask, k)
  }

  lemma HeldBits(mask: seq<byte>, i: nat, r: nat)
    requires i < |mask| && r <= 8
    ensures HeldFrom(mask, 8 * i, 8 * i + r) <==> BitsSet(mask[i], 0, r)
  {
    forall j: nat | j < 8
      ensures Bit(mask[i], j) <==> Holds(mask, 8 * i + j)
    {
    }
    if BitsSet(mask[i], 0, r) {
      forall k: nat | 8 * i <= k < 8 * i + r
        ensures Holds(mask, k)
      {
        assert Bit(mask[i], k - 8 * i);
      }
    }
  }

  lemma LastByte(mask: seq<byte>, n: nat)
    requires TailClear(mask, n) && n % 8 != 0
    ensures mask[n / 8] == BitRange(0, n % 8) <==> HeldFrom(mask, 8 * (n / 8), n)
  {
    var b, r := mask[n / 8], n % 8;
    forall j: nat | r <= j < 8
      ensures !Bit(b, j)
    {
      assert !Holds(mask, 8 * (n / 8) + j);
    }
    LowBitsSet(b, r);
    HeldBits(mask, n / 8, r);
  }

  lemma WholeByte(mask: seq<byte>, i: nat)
    requires i < |mask|
    ensures mask[i] == 0xff <==> HeldFrom(mask, 8 * i, 8 * i + 8)
  {
    FullByte(mask[i]);
    HeldBits(mask, i, 8);
  }

  /** The completeness check: whole bytes first, then the bits of a partial last byte. */
  method IsComplete(mask: array<byte>, n: nat) returns (complete: bool)
    requires TailClear(mask[..], n)
    ensures complete <==> HeldFrom(mask[..], 0, n)
  {
    for i := 0 to n / 8
      invariant HeldFrom(mask[..], 0, 8 * i)
    {
      WholeByte(mask[..], i);
      if mask[i] != 0xff {
        return false;
      }
    }
    if n % 8 != 0 {
      LastByte(mask[..], n);
      if mask[n / 8] != BitRange(0, n % 8) {
        return false;
      }
    }
    return true;
  }

  // ---------- a message under reassembly ----------

  predicate Within(k: nat, lo: nat, hi: nat) {
    lo <= k < hi
  }

  /** The bytes a fragment contributes. */
  function Placed(off: nat, body: Bytes): (m: map<nat, byte>)
    ensures forall k: nat :: k in m <==> off <= k < off + |body|
  {
    var end := off + |body|;
    map k: nat | off <= k < end && Within(k, off, end) :: body[k - off]
  }

  /** The positions of a message of `n` bytes. */
  function Positions(n: nat): (s: set<nat>)
    ensures forall k: nat :: k in s <==> k < n
  {
    set k: nat | k < n && Within(k, 0, n)
  }

  /** Byte `k` has been received: the mask says so, or there is no mask any more. */
  predicate HasByte(mask: Option<Bytes>, k: nat) {
    mask.None? || Holds(mask.value, k)
  }

  /** The bytes received so far of a message of `n` bytes. */
  function Collected(n: nat, mask: Option<Bytes>, data: Bytes): (m: map<nat, byte>)
    requires |data| == HM_HEADER_LENGTH + n
    ensures forall k: nat :: k in m <==> k < n && HasByte(mask, k)
  {
    map k: nat | k < n && HasByte(mask, k) :: data[HM_HEADER_LENGTH + k]
  }

  /** `body` was copied over the buffer at `off`. */
  ghost predicate Overwritten(data: Bytes, data': Bytes, off: nat, body: Bytes) {
    && |data'| == |data|
    && forall j :: 0 <= j < |data| ==>
         data'[j] == if off <= j < off + |body| then body[j - off] else data[j]
  }

  lemma CollectedMore(n: nat, mask: Option<Bytes>, data: Bytes, mask': Option<Bytes>, data': Bytes, off: nat, body: Bytes)
    requires |data| == HM_HEADER_LENGTH + n && off + |body| <= n
    requires Overwritten(data, data', HM_HEADER_LENGTH + off, body)
    requires forall k: nat :: k < n ==> (HasByte(mask', k) <==> HasByte(mask, k) || off <= k < off + |body|)
    ensures Collected(n, mask', data') == Collected(n, mask, data) + Placed(off, body)
  {
    var was, now := Collected(n, mask, data), Collected(n, mask', data');
    forall k | k in now
      ensures now[k] == (was + Placed(off, body))[k]
    {
      assert now[k] == data'[HM_HEADER_LENGTH + k];
    }
  }

  class HmFragment {
    const mtype: byte
    const seqno: nat
    const msgLen: nat
    const data: array<byte>
    var reassembly: array?<byte>    // null once the message is complete

    ghost predicate Valid()
      reads this, data, reassembly
    {
      && msgLen < TWO_TO_24 && seqno < TWO_TO_16
      && data.Length == HM_HEADER_LENGTH + msgLen
      && data[..HM_HEADER_LENGTH] == HeaderBytes(Header(mtype, msgLen, seqno, 0, msgLen))
      && (reassembly != null ==>
            reassembly != data && TailClear(reassembly[..], msgLen) && !HeldFrom(reassembly[..], 0, msgLen))
    }

    ghost function Repr(): set<object>
      reads this
    {
      if reassembly == null then {this, data} else {this, data, reassembly}
    }

    ghost function Mask(): Option<Bytes>
      reads this, reassembly
    {
      if reassembly == null then None else Some(reassembly[..])
    }

    /** The bytes received so far. */
    ghost function Received(): map<nat, byte>
      requires Valid()
      reads this, data, reassembly
    {
      Collected(msgLen, Mask(), data[..])
    }

    /** dtls1_hm_fragment_new */
    constructor (h: Header)
      requires HeaderOk(h)
      ensures Valid() && fresh(Repr())
      ensures mtype == h.mtype && seqno == h.seqno && msgLen == h.msgLen
      ensures Received() == map[]
    {
      var n := h.msgLen;
      var header := HeaderBytes(Header(h.mtype, n, h.seqno, 0, n));
      var buffer := new byte[HM_HEADER_LENGTH + n](i => if 0 <= i < HM_HEADER_LENGTH then header[i] else 0);
      var mask: array?<byte> := null;
      if n > 0 {
        mask := new byte[(n + 7) / 8](_ => 0);
      }
      mtype, seqno, msgLen, data, reassembly := h.mtype, h.seqno, n, buffer, mask;
      new;
      assert data[..HM_HEADER_LENGTH] == header;
      forall k: nat | reassembly != null && k < 8 * reassembly.Length
        ensures !Holds(reassembly[..], k)
      {
        ZeroBit(k % 8);
      }
      assert n > 0 ==> !Holds(reassembly[..], 0);
    }

    /** dtls1_hm_fragment_mark */
    method Mark(start: nat, end: nat)
      requires Valid() && reassembly != null && start <= end <= msgLen
      modifies this`reassembly, reassembly
      ensures Valid() && (reassembly == null || reassembly == old(reassembly))
      ensures data[..] == old(data[..])
      ensures forall k: nat :: k < msgLen ==>
                (HasByte(Mask(), k) <==> HasByte(old(Mask()), k) || start <= k < end)
    {
      if start == end {
        return;
      }
      MarkRange(reassembly, start, end);
      var complete := IsComplete(reassembly, msgLen);
      if complete {
        reassembly := null;
      }
    }

    /** The copy of a fragment's body into the buffer, and the mark. */
    method Absorb(off: nat, body: Bytes)
      requires Valid() && reassembly != null && off + |body| <= msgLen
      modifies Repr()
      ensures Valid() && (reassembly == null || reassembly == old(reassembly))
      ensures Received() == old(Received()) + Placed(off, body)
    {
      ghost var mask, was := Mask(), data[..];
      CopyBody(off, body);
      ghost var copied := data[..];
      Mark(off, off + |body|);
      CollectedMore(msgLen, mask, was, Mask(), copied, off, body);
    }

    method CopyBody(off: nat, body: Bytes)
      requires Valid() && off + |body| <= msgLen
      modifies data
      ensures Valid()
      ensures Overwritten(old(data[..]), data[..], HM_HEADER_LENGTH + off, body)
    {
      var at := HM_HEADER_LENGTH + off;
      for i := 0 to |body|
        invariant Overwritten(old(data[..]), data[..], at, body[..i])
      {
        data[at + i] := body[i];
      }
      assert body[..|body|] == body;
      assert data[..HM_HEADER_LENGTH] == old(data[..HM_HEADER_LENGTH]);
    }

    /** The mask is released exactly when every byte of the message has been received. */
    lemma ReleasedExactly()
      requires Valid()
      ensures reassembly == null <==> Received().Keys == Positions(msgLen)
    {
      if reassembly != null {
        var k: nat :| k < msgLen && !Holds(reassembly[..], k);
        assert k in Positions(msgLen);
      }
    }
  }
}
