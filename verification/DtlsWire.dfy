/** The DTLS handshake fragment header (section 4.2.2 of RFC 6347) as bytes. */
module DtlsWire {
  import opened Basics
  import Arith

  type Bytes = seq<byte>

  const HM_HEADER_LENGTH: nat := 12
  const TWO_TO_16: nat := 0x1_0000
  const TWO_TO_24: nat := 0x100_0000
  const FLIGHT: nat := 7                    // SSL_MAX_HANDSHAKE_FLIGHT

  // Record types, and the body of a ChangeCipherSpec.
  const RT_CHANGE_CIPHER_SPEC: byte := 20
  const RT_ALERT: byte := 21
  const RT_HANDSHAKE: byte := 22
  const RT_APPLICATION_DATA: byte := 23
  const MT_CCS: byte := 1

  function BigEndian(n: nat, width: nat): (bs: Bytes)
    ensures |bs| == width
  {
    if width == 0 then [] else BigEndian(n / 0x100, width - 1) + [n % 0x100]
  }

  function FromBigEndian(bs: Bytes): nat {
    if bs == [] then 0 else 0x100 * FromBigEndian(bs[..|bs| - 1]) + bs[|bs| - 1]
  }

  lemma {:induction false} BigEndianRoundTrip(n: nat, width: nat)
    requires n < Pow256(width)
    ensures FromBigEndian(BigEndian(n, width)) == n
  {
    if width > 0 {
      BigEndianRoundTrip(n / 0x100, width - 1);
      assert BigEndian(n, width)[..width - 1] == BigEndian(n / 0x100, width - 1);
    }
  }

  /** Byte `i` from the end has the weight 256^i. */
  lemma {:induction false} BigEndianByte(n: nat, width: nat, i: nat)
    requires i < width
    ensures BigEndian(n, width)[width - 1 - i] == n / Pow256(i) % 0x100
  {
    if i > 0 {
      BigEndianByte(n / 0x100, width - 1, i - 1);
      Arith.DivideTwice(n / 0x100, n % 0x100, Pow256(i - 1));
    }
  }

  lemma {:induction false} FromBigEndianBound(bs: Bytes)
    ensures FromBigEndian(bs) < Pow256(|bs|)
  {
    if bs != [] {
      FromBigEndianBound(bs[..|bs| - 1]);
    }
  }

  // hm_header_st
  datatype Header = Header(mtype: byte, msgLen: nat, seqno: nat, off: nat, len: nat)

  predicate HeaderOk(h: Header) {
    h.msgLen < TWO_TO_24 && h.seqno < TWO_TO_16 && h.off < TWO_TO_24 && h.len < TWO_TO_24
  }

  function HeaderBytes(h: Header): (bs: Bytes)
    ensures |bs| == HM_HEADER_LENGTH
  {
    [h.mtype] + BigEndian(h.msgLen, 3) + BigEndian(h.seqno, 2) + BigEndian(h.off, 3) + BigEndian(h.len, 3)
  }

  function ReadHeader(bs: Bytes): (h: Header)
    requires |bs| == HM_HEADER_LENGTH
    ensures HeaderOk(h)
  {
    FromBigEndianBound(bs[1..4]);
    FromBigEndianBound(bs[4..6]);
    FromBigEndianBound(bs[6..9]);
    FromBigEndianBound(bs[9..12]);
    Pow256Values();
    Header(bs[0], FromBigEndian(bs[1..4]), FromBigEndian(bs[4..6]), FromBigEndian(bs[6..9]), FromBigEndian(bs[9..12]))
  }

  /** dtls1_parse_fragment: a header, its body, and the rest of the record. */
  function ParseFragment(bs: Bytes): (r: Option<(Header, Bytes, Bytes)>)
    ensures r.Some? ==> HeaderOk(r.value.0) && |r.value.1| == r.value.0.len
    ensures r.Some? ==> |r.value.2| < |bs|
  {
    if |bs| < HM_HEADER_LENGTH then None
    else
      var h := ReadHeader(bs[..HM_HEADER_LENGTH]);
      if |bs| - HM_HEADER_LENGTH < h.len then None
      else Some((h, bs[HM_HEADER_LENGTH..HM_HEADER_LENGTH + h.len], bs[HM_HEADER_LENGTH + h.len..]))
  }

  lemma Pow256Values()
    ensures Pow256(2) == TWO_TO_16 && Pow256(3) == TWO_TO_24
  {
    assert Pow256(1) == 0x100;
  }

  lemma HeaderRoundTrip(h: Header)
    requires HeaderOk(h)
    ensures ReadHeader(HeaderBytes(h)) == h
  {
    var bs := HeaderBytes(h);
    Pow256Values();
    assert bs[1..4] == BigEndian(h.msgLen, 3);
    assert bs[4..6] == BigEndian(h.seqno, 2);
    assert bs[6..9] == BigEndian(h.off, 3);
    assert bs[9..12] == BigEndian(h.len, 3);
    BigEndianRoundTrip(h.msgLen, 3);
    BigEndianRoundTrip(h.seqno, 2);
    BigEndianRoundTrip(h.off, 3);
    BigEndianRoundTrip(h.len, 3);
  }

  /** What seal_next_message assembles is what dtls1_parse_fragment reads back, whatever follows. */
  lemma FragmentRoundTrip(h: Header, body: Bytes, rest: Bytes)
    requires HeaderOk(h) && |body| == h.len
    ensures ParseFragment(HeaderBytes(h) + body + rest) == Some((h, body, rest))
  {
    var bs := HeaderBytes(h) + body + rest;
    assert bs[..HM_HEADER_LENGTH] == HeaderBytes(h);
    HeaderRoundTrip(h);
    assert bs[HM_HEADER_LENGTH..HM_HEADER_LENGTH + h.len] == body;
    assert bs[HM_HEADER_LENGTH + h.len..] == rest;
  }

  /** Where each byte of a fragment header stands (section 4.2.2 of RFC 6347). */
  lemma HeaderLayout(h: Header, i: nat)
    requires i < 12
    ensures HeaderBytes(h)[i] ==
      if i == 0 then h.mtype
      else if i < 4 then h.msgLen / Pow256(3 - i) % 0x100
      else if i < 6 then h.seqno / Pow256(5 - i) % 0x100
      else if i < 9 then h.off / Pow256(8 - i) % 0x100
      else h.len / Pow256(11 - i) % 0x100
  {
    hide BigEndian, Pow256;
    if 0 < i < 4 {
      BigEndianByte(h.msgLen, 3, 3 - i);
    } else if 4 <= i < 6 {
      BigEndianByte(h.seqno, 2, 5 - i);
    } else if 6 <= i < 9 {
      BigEndianByte(h.off, 3, 8 - i);
    } else if 9 <= i {
      BigEndianByte(h.len, 3, 11 - i);
    }
  }
}
