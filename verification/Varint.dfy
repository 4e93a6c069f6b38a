/**
 Base 128 varints, as written by `pb_encode_varint` and read by `pb_decode_varint` and
 `pb_decode_varint32`. Bit operations are stated arithmetically: the OR of disjoint bit
 groups is addition, and a shift to the left by 7 bits is multiplication by 128.
 */
module Varint {
  import opened Basics
  import Arith

  /** The canonical encoding: least significant group first, top bit set on all but the last byte. */
  function Encode(v: nat): (bs: seq<byte>)
    ensures bs != []
  {
    if v < 0x80 then [v] else [v % 0x80 + 0x80] + Encode(v / 0x80)
  }

  /** Reads a varint of at most `groups` bytes off the front of `bs`; the value is not yet truncated. */
  function Parse(bs: seq<byte>, groups: nat): (r: Option<(nat, seq<byte>)>)
    ensures r.Some? ==> |r.value.1| < |bs| && r.value.1 == bs[|bs| - |r.value.1|..]
  {
    if bs == [] || groups == 0 then None
    else if bs[0] < 0x80 then Some((bs[0], bs[1..]))
    else
      match Parse(bs[1..], groups - 1)
      case None => None
      case Some((v, rest)) => Some((bs[0] - 0x80 + 0x80 * v, rest))
  }

  // uint_fast8_t bitpos runs to 64: ten groups. For uint32_t it runs to 32: five groups.
  const GROUPS_64: nat := 10
  const GROUPS_32: nat := 5

  function Parse64(bs: seq<byte>): (r: Option<(nat, seq<byte>)>)
    ensures r.Some? ==> r.value.0 < TWO_TO_64 && |r.value.1| < |bs|
  {
    match Parse(bs, GROUPS_64)
    case None => None
    case Some((v, rest)) => Some((v % TWO_TO_64, rest))
  }

  function Parse32(bs: seq<byte>): (r: Option<(nat, seq<byte>)>)
    ensures r.Some? ==> r.value.0 < TWO_TO_32 && |r.value.1| < |bs|
  {
    match Parse(bs, GROUPS_32)
    case None => None
    case Some((v, rest)) => Some((v % TWO_TO_32, rest))
  }

  /** `n` groups of seven bits hold exactly the numbers below this. */
  function Capacity(n: nat): nat {
    if n == 0 then 1 else 0x80 * Capacity(n - 1)
  }

  lemma CapacityOf64()
    ensures Capacity(GROUPS_64) >= TWO_TO_64
    ensures Capacity(GROUPS_32) >= TWO_TO_32
  {
    assert Capacity(5) == 0x80 * 0x80 * 0x80 * 0x80 * 0x80;
    assert Capacity(10) == 0x80 * 0x80 * 0x80 * 0x80 * 0x80 * Capacity(5);
  }

  /** Reading undoes writing, whatever follows, as soon as the groups suffice. */
  lemma {:induction false} ParseEncode(v: nat, tail: seq<byte>, groups: nat)
    requires 0 < groups && v < Capacity(groups)
    ensures Parse(Encode(v) + tail, groups) == Some((v, tail))
  {
    var bs := Encode(v) + tail;
    if v < 0x80 {
      assert bs[1..] == tail;
    } else {
      assert bs[1..] == Encode(v / 0x80) + tail;
      ParseEncode(v / 0x80, tail, groups - 1);
    }
  }

  lemma Parse64Encode(v: nat, tail: seq<byte>)
    requires v < TWO_TO_64
    ensures Parse64(Encode(v) + tail) == Some((v, tail))
  {
    CapacityOf64();
    ParseEncode(v, tail, GROUPS_64);
  }

  lemma Parse32Encode(v: nat, tail: seq<byte>)
    requires v < TWO_TO_32
    ensures Parse32(Encode(v) + tail) == Some((v, tail))
  {
    CapacityOf64();
    ParseEncode(v, tail, GROUPS_32);
  }

  /** A longer number is cut to the bits of the word it is read into. */
  lemma ParseCuts(v: nat, tail: seq<byte>)
    ensures v < Capacity(GROUPS_64) ==> Parse64(Encode(v) + tail) == Some((v % TWO_TO_64, tail))
    ensures v < Capacity(GROUPS_32) ==> Parse32(Encode(v) + tail) == Some((v % TWO_TO_32, tail))
  {
    if v < Capacity(GROUPS_64) {
      ParseEncode(v, tail, GROUPS_64);
    }
    if v < Capacity(GROUPS_32) {
      ParseEncode(v, tail, GROUPS_32);
    }
  }

  /** A successful read never looks past the varint. */
  lemma {:induction false} ParseStable(bs: seq<byte>, more: seq<byte>, groups: nat)
    requires Parse(bs, groups).Some?
    ensures Parse(bs + more, groups) == Some((Parse(bs, groups).value.0, Parse(bs, groups).value.1 + more))
  {
    assert (bs + more)[1..] == bs[1..] + more;
    if bs[0] >= 0x80 {
      ParseStable(bs[1..], more, groups - 1);
    }
  }

  /** A read fails exactly when the bytes it may look at are all continuation bytes. */
  lemma {:induction false} ParseFails(bs: seq<byte>, groups: nat)
    ensures Parse(bs, groups).None? <==> forall i :: 0 <= i < |bs| && i < groups ==> bs[i] >= 0x80
  {
    if bs != [] && groups != 0 {
      ParseFails(bs[1..], groups - 1);
      if bs[0] >= 0x80 {
        assert forall i :: 0 < i < |bs| ==> bs[i] == bs[1..][i - 1];
        if Parse(bs, groups).Some? {
          var i :| 0 <= i < |bs[1..]| && i < groups - 1 && bs[1..][i] < 0x80;
          assert bs[i + 1] < 0x80;
        }
      }
    }
  }

  /** No other bytes that read as `v` are fewer. */
  lemma {:induction false} EncodeShortest(v: nat, bs: seq<byte>, groups: nat)
    requires Parse(bs, groups) == Some((v, []))
    ensures |Encode(v)| <= |bs|
  {
    if bs[0] >= 0x80 && v >= 0x80 {
      EncodeShortest(v / 0x80, bs[1..], groups - 1);
    }
  }

  // ---------- zigzag ----------

  /** `~((uint64_t)value << 1)` for a negative value, `(uint64_t)value << 1` otherwise. */
  function ZigZag(n: int): (u: nat)
    ensures -0x8000_0000_0000_0000 <= n < 0x8000_0000_0000_0000 ==> u < TWO_TO_64
  {
    if n < 0 then -2 * n - 1 else 2 * n
  }

  /** `~(value >> 1)` for an odd value, `value >> 1` otherwise. */
  function UnZigZag(u: nat): int {
    if u % 2 == 1 then -(u / 2) - 1 else u / 2
  }

  lemma ZigZagBijective(n: int, u: nat)
    ensures UnZigZag(ZigZag(n)) == n
    ensures ZigZag(UnZigZag(u)) == u
  {
  }

  /** 0, -1, 1, -2, 2 and so on are numbered from 0. */
  lemma ZigZagCounts(n: int)
    requires n >= 0
    ensures ZigZag(0) == 0 && ZigZag(-n - 1) == ZigZag(n) + 1 && ZigZag(n + 1) == ZigZag(-n - 1) + 1
  {
  }

  // ---------- two's complement and little-endian words ----------

  /** Reinterprets an unsigned word of value range `m` as a signed one. */
  function ToSigned(u: nat, m: nat): int {
    if u < m / 2 then u else u - m
  }

  function ToUnsigned(n: int, m: nat): (u: int)
    ensures -(m as int) <= n < m ==> 0 <= u < m
  {
    if n < 0 then n + m else n
  }

  /** Two's complement: the word of a number is the number, modulo the range of the word. */
  lemma WordOf(u: nat, n: int, m: nat)
    requires (m == TWO_TO_32 || m == TWO_TO_64) && u < m && -(m as int) <= 2 * n < m
    ensures ToSigned(u, m) == n <==> (u - n) % m == 0
    ensures ToUnsigned(n, m) == u <==> (u - n) % m == 0
  {
  }

  function LittleEndian(n: nat, width: nat): (bs: seq<byte>)
    ensures |bs| == width
  {
    if width == 0 then [] else [n % 0x100] + LittleEndian(n / 0x100, width - 1)
  }

  function FromLittleEndian(bs: seq<byte>): nat {
    if bs == [] then 0 else bs[0] + 0x100 * FromLittleEndian(bs[1..])
  }

  lemma {:induction false} LittleEndianRoundTrip(n: nat, width: nat)
    requires n < Pow256(width)
    ensures FromLittleEndian(LittleEndian(n, width)) == n
  {
    if width != 0 {
      LittleEndianRoundTrip(n / 0x100, width - 1);
    }
  }

  /** Byte `i` of a fixed32 or fixed64 has the weight 256^i. */
  lemma {:induction false} LittleEndianByte(n: nat, width: nat, i: nat)
    requires i < width
    ensures LittleEndian(n, width)[i] == n / Pow256(i) % 0x100
  {
    if i > 0 {
      LittleEndianByte(n / 0x100, width - 1, i - 1);
      Arith.DivideTwice(n / 0x100, n % 0x100, Pow256(i - 1));
    }
  }
}
