/**
 The stream decoder of pb_decode.c. Each method is proved against the reader functions of Wire.dfy.
 Only buffer streams are modelled (`callback == buf_read`).
 */
module PbDecode {
  import opened Basics
  import opened Bits
  import Arith
  import V = Varint
  import opened Decoded
  import opened Schema
  import opened Wire
  import opened PbCommon

  // ---------- what a run of continuation bytes contributes ----------

  /** The seven-bit groups of `bs`, least significant first, whatever their top bits. */
  function Groups(bs: Bytes): nat {
    if bs == [] then 0
    else Groups(bs[..|bs| - 1]) + V.Capacity(|bs| - 1) * (bs[|bs| - 1] % 0x80)
  }

  ghost predicate Continues(bs: Bytes, n: nat)
    requires n <= |bs|
  {
    forall i :: 0 <= i < n ==> bs[i] >= 0x80
  }

  lemma {:induction false} GroupsBound(bs: Bytes)
    ensures Groups(bs) < V.Capacity(|bs|)
  {
    if bs != [] {
      var n := |bs| - 1;
      GroupsBound(bs[..n]);
      Arith.MulAtMost(V.Capacity(n), bs[n] % 0x80, 0x7F);
    }
  }

  /** `lo + cap * (d + 0x80 * v)`, regrouped for the next group */
  lemma GroupShift(cap: nat, d: nat, v: nat)
    ensures cap * (d + 0x80 * v) == cap * d + 0x80 * cap * v
  {
    Arith.MulDistributes(cap, d, 0x80 * v);
    Arith.MulAssoc(cap, 0x80, v);
  }

  lemma SuffixStep(c: Bytes, i: nat)
    requires i < |c|
    ensures c[i..] != [] && c[i..][0] == c[i] && c[i..][1..] == c[i + 1..]
  {
  }

  lemma GroupsSnoc(c: Bytes, i: nat)
    requires i < |c|
    ensures Groups(c[..i + 1]) == Groups(c[..i]) + V.Capacity(i) * (c[i] % 0x80)
  {
    assert c[..i + 1][..i] == c[..i];
  }

  /** The value of a varint whose first `i` groups are those of `c` and whose other groups are worth `v`. */
  function Refill(c: Bytes, i: nat, v: nat): nat
    requires i <= |c|
  {
    if i == 0 then v else Refill(c, i - 1, c[i - 1] % 0x80 + 0x80 * v)
  }

  lemma {:induction false} RefillValue(c: Bytes, i: nat, v: nat)
    requires i <= |c|
    ensures Refill(c, i, v) == Groups(c[..i]) + V.Capacity(i) * v
  {
    if i > 0 {
      RefillValue(c, i - 1, c[i - 1] % 0x80 + 0x80 * v);
      GroupsSnoc(c, i - 1);
      GroupShift(V.Capacity(i - 1), c[i - 1] % 0x80, v);
    }
  }

  /** Reading past `i` continuation bytes. */
  lemma {:induction false} ParsePast(c: Bytes, i: nat, groups: nat)
    requires i <= |c| && i <= groups && Continues(c, i)
    ensures V.Parse(c, groups) ==
      match V.Parse(c[i..], groups - i)
      case None => None
      case Some((v, rest)) => Some((Refill(c, i, v), rest))
  {
    if i == 0 {
      assert c[0..] == c;
    } else {
      ParsePast(c, i - 1, groups);
      SuffixStep(c, i - 1);
    }
  }

  /** A final byte after `i` continuation bytes ends the varint. */
  lemma ParseEnds(c: Bytes, i: nat, groups: nat)
    requires i < |c| && i < groups && Continues(c, i) && c[i] < 0x80
    ensures V.Parse(c, groups) == Some((Groups(c[..i + 1]), c[i + 1..]))
  {
    ParsePast(c, i, groups);
    SuffixStep(c, i);
    RefillValue(c, i, c[i]);
    GroupsSnoc(c, i);
  }

  lemma ContinuesSnoc(c: Bytes, i: nat)
    requires i < |c| && Continues(c, i) && c[i] >= 0x80
    ensures Continues(c, i + 1)
  {
  }

  lemma ParseExhausted(c: Bytes, i: nat, groups: nat)
    requires i <= |c| && i <= groups && Continues(c, i)
    requires i == groups || i == |c|
    ensures V.Parse(c, groups).None?
  {
    ParsePast(c, i, groups);
  }

  lemma {:induction false} Pow2Groups(i: nat)
    ensures Pow2(7 * i) == V.Capacity(i)
  {
    if i > 0 {
      Pow2Groups(i - 1);
      Pow2Sum(7, 7 * (i - 1));
      assert Pow2(7) == 0x80;
    }
  }

  /** One more group in the accumulator of a varint loop. */
  lemma GroupAdded(c: Bytes, i: nat, bitpos: nat, result: nat, w: nat)
    requires i < |c| && bitpos == 7 * i && w > 0 && result == Groups(c[..i]) % w
    ensures (result + (c[i] % 0x80) * Pow2(bitpos)) % w == Groups(c[..i + 1]) % w
  {
    Pow2Groups(i);
    GroupsSnoc(c, i);
    Arith.MulCommutes(c[i] % 0x80, Pow2(bitpos));
    Arith.AddModulo(Groups(c[..i]), V.Capacity(i) * (c[i] % 0x80), w);
  }

  /** The bits OR-ed in lie above those accumulated so far, so that OR and addition agree. */
  lemma GroupDisjoint(c: Bytes, i: nat, bitpos: nat, result: nat, w: nat)
    requires i <= |c| && bitpos == 7 * i && w > 0 && result == Groups(c[..i]) % w
    ensures result < Pow2(bitpos)
  {
    Pow2Groups(i);
    GroupsBound(c[..i]);
    Arith.ModAtMost(Groups(c[..i]), w);
  }

  // ---------- streams ----------

  class IStream {
    const source: Bytes
    var state: nat        // where the next byte is
    var bytesLeft: nat

    ghost predicate Valid()
      reads this
    {
      state + bytesLeft <= |source|
    }

    /** The bytes not yet read. */
    ghost function Contents(): Bytes
      reads this
      requires Valid()
    {
      source[state..state + bytesLeft]
    }

    ghost function End(): nat
      reads this
    {
      state + bytesLeft
    }

    constructor FromBuffer(buf: Bytes)
      ensures Valid() && Contents() == buf && source == buf
    {
      source := buf;
      state := 0;
      bytesLeft := |buf|;
    }

    /** `*substream = *stream`, limited to `size` bytes */
    constructor Limited(stream: IStream, size: nat)
      requires stream.Valid() && size <= stream.bytesLeft
      ensures Valid() && source == stream.source && state == stream.state && bytesLeft == size
    {
      source := stream.source;
      state := stream.state;
      bytesLeft := size;
    }

    /** pb_read; the caller that passes NULL ignores `buf`. */
    method Read(count: nat) returns (ok: bool, buf: Bytes)
      requires Valid()
      modifies this
      ensures Valid() && End() == old(End())
      ensures ok <==> count <= old(bytesLeft)
      ensures ok ==> buf == old(Contents())[..count] && Contents() == old(Contents())[count..]
      ensures !ok ==> Contents() == old(Contents())
    {
      if bytesLeft < count {
        return false, [];
      }
      buf := source[state..state + count];
      state := state + count;
      bytesLeft := bytesLeft - count;
      ok := true;
    }

    method ReadByte() returns (ok: bool, b: byte)
      requires Valid()
      modifies this
      ensures Valid() && End() == old(End())
      ensures ok <==> old(Contents()) != []
      ensures ok ==> b == old(Contents())[0] && Contents() == old(Contents())[1..]
      ensures !ok ==> Contents() == []
    {
      if bytesLeft == 0 {
        return false, 0;
      }
      b := source[state];
      state := state + 1;
      bytesLeft := bytesLeft - 1;
      ok := true;
    }

    /** pb_decode_varint32 */
    method DecodeVarint32() returns (ok: bool, dest: nat)
      requires Valid()
      modifies this
      ensures Valid() && End() == old(End())
      ensures ok <==> V.Parse32(old(Contents())).Some?
      ensures ok ==> dest == V.Parse32(old(Contents())).value.0
      ensures ok ==> Contents() == V.Parse32(old(Contents())).value.1
      ensures !ok ==> (Contents() == [] <==> |old(Contents())| <= V.GROUPS_32)
    {
      ghost var c := Contents();
      dest := 0;
      var b: byte;
      ok, b := ReadByte();
      if !ok {
        return;
      }
      if b < 0x80 {
        dest := b;
      } else {
        ok, dest := MultibyteVarint32(b, c);
      }
    }

    /** The multibyte case of pb_decode_varint32, after the first byte of `c`. */
    method MultibyteVarint32(first: byte, ghost c: Bytes) returns (ok: bool, dest: nat)
      requires Valid() && c != [] && first == c[0] && first >= 0x80 && Contents() == c[1..]
      modifies this
      ensures Valid() && End() == old(End())
      ensures ok <==> V.Parse32(c).Some?
      ensures ok ==> dest == V.Parse32(c).value.0 && Contents() == V.Parse32(c).value.1
      ensures !ok ==> (Contents() == [] <==> |c| <= V.GROUPS_32)
    {
      var bitpos := 7;
      dest := first % 0x80;
      ghost var i := 1;
      GroupsSnoc(c, 0);
      while true
        invariant Valid() && End() == old(End())
        invariant 1 <= i <= |c| && i <= V.GROUPS_32 && bitpos == 7 * i
        invariant Continues(c, i) && Contents() == c[i..]
        invariant dest == Groups(c[..i]) % TWO_TO_32
        decreases |c| - i
      {
        if bitpos >= 32 {
          ParseExhausted(c, i, V.GROUPS_32);
          return false, 0;
        }
        var b: byte;
        ok, b := ReadByte();
        if !ok {
          ParseExhausted(c, i, V.GROUPS_32);
          return;
        }
        GroupDisjoint(c, i, bitpos, dest, TWO_TO_32);
        GroupAdded(c, i, bitpos, dest, TWO_TO_32);
        assert dest < Pow2(bitpos);
        dest := (dest + (b % 0x80) * Pow2(bitpos)) % TWO_TO_32;
        bitpos := bitpos + 7;
        if b < 0x80 {
          ParseEnds(c, i, V.GROUPS_32);
          return true, dest;
        }
        ContinuesSnoc(c, i);
        i := i + 1;
      }
    }

    /** pb_decode_varint */
    method DecodeVarint() returns (ok: bool, dest: nat)
      requires Valid()
      modifies this
      ensures Valid() && End() == old(End())
      ensures ok <==> V.Parse64(old(Contents())).Some?
      ensures ok ==> dest == V.Parse64(old(Contents())).value.0
      ensures ok ==> Contents() == V.Parse64(old(Contents())).value.1
    {
      ghost var c := Contents();
      var bitpos := 0;
      dest := 0;
      ghost var i := 0;
      while true
        invariant Valid() && End() == old(End())
        invariant 0 <= i <= |c| && i <= V.GROUPS_64 && bitpos == 7 * i
        invariant Continues(c, i) && Contents() == c[i..]
        invariant dest == Groups(c[..i]) % TWO_TO_64
        decreases |c| - i
      {
        if bitpos >= 64 {
          ParseExhausted(c, i, V.GROUPS_64);
          return false, 0;
        }
        var b: byte;
        ok, b := ReadByte();
        if !ok {
          ParseExhausted(c, i, V.GROUPS_64);
          return;
        }
        GroupDisjoint(c, i, bitpos, dest, TWO_TO_64);
        GroupAdded(c, i, bitpos, dest, TWO_TO_64);
        assert dest < Pow2(bitpos);
        dest := (dest + (b % 0x80) * Pow2(bitpos)) % TWO_TO_64;
        bitpos := bitpos + 7;
        if b < 0x80 {
          ParseEnds(c, i, V.GROUPS_64);
          return true, dest;
        }
        ContinuesSnoc(c, i);
        i := i + 1;
      }
    }

    /** pb_skip_varint: no limit on the length */
    method SkipVarint() returns (ok: bool)
      requires Valid()
      modifies this
      ensures Valid() && End() == old(End())
      ensures ok <==> Wire.SkipVarint(old(Contents())).Some?
      ensures ok ==> Contents() == Wire.SkipVarint(old(Contents())).value
    {
      ghost var c := Contents();
      while true
        invariant Valid() && End() == old(End())
        invariant Wire.SkipVarint(c) == Wire.SkipVarint(Contents())
        decreases bytesLeft
      {
        var b: byte;
        ok, b := ReadByte();
        if !ok || b < 0x80 {
          return;
        }
      }
    }

    /** pb_skip_string */
    method SkipString() returns (ok: bool)
      requires Valid()
      modifies this
      ensures Valid() && End() == old(End())
      ensures ok <==> ReadDelimited(old(Contents())).Some?
      ensures ok ==> Contents() == ReadDelimited(old(Contents())).value.1
    {
      var length;
      ok, length := DecodeVarint32();
      if ok {
        var skipped;
        ok, skipped := Read(length);
      }
    }

    /** pb_skip_field */
    method SkipField(wire: nat) returns (ok: bool)
      requires Valid()
      modifies this
      ensures Valid() && End() == old(End())
      ensures ok <==> Wire.SkipField(wire, old(Contents())).Some?
      ensures ok ==> Contents() == Wire.SkipField(wire, old(Contents())).value
    {
      var skipped;
      if wire == WT_VARINT {
        ok := SkipVarint();
      } else if wire == WT_64BIT {
        ok, skipped := Read(8);
      } else if wire == WT_STRING {
        ok := SkipString();
      } else if wire == WT_32BIT {
        ok, skipped := Read(4);
      } else {
        ok := false;
      }
    }

    /** pb_decode_tag */
    method DecodeTag() returns (ok: bool, wire: nat, tag: nat, eof: bool)
      requires Valid()
      modifies this
      ensures Valid() && End() == old(End())
      ensures match ReadTag(old(Contents()))
              case Eof(rest) => !ok && eof && Contents() == rest
              case Malformed => !ok && !eof
              case Tag(t, w, rest) => ok && !eof && tag == t && wire == w && Contents() == rest
    {
      eof, wire, tag := false, 0, 0;
      var temp;
      ok, temp := DecodeVarint32();
      if !ok {
        if bytesLeft == 0 {
          eof := true;
        }
        return;
      }
      if temp == 0 {
        eof := true;
        return false, wire, tag, eof;
      }
      tag := temp / 8;
      wire := temp % 8;
    }

    /** pb_make_string_substream: afterwards the parent counts only the bytes behind the substream. */
    method MakeStringSubstream() returns (ok: bool, sub: IStream)
      requires Valid()
      modifies this
      ensures Valid()
      ensures ok <==> ReadDelimited(old(Contents())).Some?
      ensures ok ==> fresh(sub) && sub.Valid() && sub.source == source
      ensures ok ==> sub.Contents() == ReadDelimited(old(Contents())).value.0
      ensures ok ==> sub.End() + bytesLeft == old(End())
      ensures ok ==> source[sub.End()..old(End())] == ReadDelimited(old(Contents())).value.1
    {
      hide V.Parse32, V.Parse;
      var size;
      sub := this;
      ok, size := DecodeVarint32();
      if !ok {
        return;
      }
      if bytesLeft < size {
        return false, this;
      }
      ghost var rest := Contents();
      sub := new IStream.Limited(this, size);
      bytesLeft := bytesLeft - size;
      assert sub.Contents() == rest[..size];
      assert source[sub.End()..old(End())] == rest[size..];
    }

    /** pb_close_string_substream: what the substream left unread is skipped. */
    method CloseStringSubstream(sub: IStream)
      requires Valid() && sub.Valid() && sub != this && sub.source == source
      requires sub.End() + bytesLeft <= |source|
      modifies this, sub
      ensures Valid() && End() == old(sub.End() + bytesLeft)
      ensures Contents() == source[old(sub.End())..old(sub.End() + bytesLeft)]
    {
      if sub.bytesLeft > 0 {
        var ok, skipped := sub.Read(sub.bytesLeft);
      }
      state := sub.state;
    }
  }

  // ---------- scalar field decoders ----------

  /** pb_dec_varint */
  method DecVarint(stream: IStream, f: Field) returns (ok: bool, v: Value)
    requires stream.Valid() && f.ltype.Varint?
    modifies stream
    ensures stream.Valid() && stream.End() == old(stream.End())
    ensures ok <==> DecodeScalar(f, old(stream.Contents())).Some?
    ensures ok ==> DecodeScalar(f, old(stream.Contents())) == Some((v, stream.Contents()))
  {
    v := Num(0);
    var value;
    ok, value := stream.DecodeVarint();
    if !ok {
      return;
    }
    var svalue := if f.dataSize == 8 then V.ToSigned(value, TWO_TO_64)
                  else V.ToSigned(value % TWO_TO_32, TWO_TO_32);
    if !IntegerSize(f.dataSize) || !FitsSigned(svalue, f.dataSize) {
      return false, v;
    }
    v := Num(svalue);
  }

  /** pb_dec_uvarint */
  method DecUvarint(stream: IStream, f: Field) returns (ok: bool, v: Value)
    requires stream.Valid() && f.ltype.UVarint?
    modifies stream
    ensures stream.Valid() && stream.End() == old(stream.End())
    ensures ok <==> DecodeScalar(f, old(stream.Contents())).Some?
    ensures ok ==> DecodeScalar(f, old(stream.Contents())) == Some((v, stream.Contents()))
  {
    v := Num(0);
    var value;
    ok, value := stream.DecodeVarint();
    if !ok {
      return;
    }
    if !IntegerSize(f.dataSize) || !FitsUnsigned(value, f.dataSize) {
      return false, v;
    }
    v := Num(value);
  }

  /** pb_dec_svarint */
  method DecSvarint(stream: IStream, f: Field) returns (ok: bool, v: Value)
    requires stream.Valid() && f.ltype.SVarint?
    modifies stream
    ensures stream.Valid() && stream.End() == old(stream.End())
    ensures ok <==> DecodeScalar(f, old(stream.Contents())).Some?
    ensures ok ==> DecodeScalar(f, old(stream.Contents())) == Some((v, stream.Contents()))
  {
    v := Num(0);
    var value;
    ok, value := stream.DecodeVarint();
    if !ok {
      return;
    }
    var half: int := value / 2;
    var svalue := if value % 2 == 1 then -half - 1 else half;
    if !IntegerSize(f.dataSize) || !FitsSigned(svalue, f.dataSize) {
      return false, v;
    }
    v := Num(svalue);
  }

  /** pb_dec_fixed32 and pb_dec_fixed64: bytes shifted into place, least significant first */
  method DecFixed(stream: IStream, f: Field) returns (ok: bool, v: Value)
    requires stream.Valid() && (f.ltype.Fixed32? || f.ltype.Fixed64?)
    modifies stream
    ensures stream.Valid() && stream.End() == old(stream.End())
    ensures ok <==> DecodeScalar(f, old(stream.Contents())).Some?
    ensures ok ==> DecodeScalar(f, old(stream.Contents())) == Some((v, stream.Contents()))
  {
    v := Num(0);
    var width := if f.ltype.Fixed32? then 4 else 8;
    var bytes;
    ok, bytes := stream.Read(width);
    if !ok {
      return;
    }
    v := Num(V.FromLittleEndian(bytes));
  }

  /** pb_dec_bytes, pb_dec_string and pb_dec_fixed_length_bytes */
  method DecBlob(stream: IStream, f: Field) returns (ok: bool, v: Value)
    requires stream.Valid() && (f.ltype.Bytes? || f.ltype.String? || f.ltype.FixedLengthBytes?)
    modifies stream
    ensures stream.Valid() && stream.End() == old(stream.End())
    ensures ok <==> DecodeScalar(f, old(stream.Contents())).Some?
    ensures ok ==> DecodeScalar(f, old(stream.Contents())) == Some((v, stream.Contents()))
  {
    v := Num(0);
    var size;
    ok, size := stream.DecodeVarint32();
    if !ok {
      return;
    }
    if f.ltype.FixedLengthBytes? {
      if size == 0 {
        return true, Blob(seq(f.dataSize, _ => 0));
      }
      if size != f.dataSize {
        return false, v;
      }
    } else if f.ltype.Bytes? {
      if size + BYTES_HEADER > f.dataSize {
        return false, v;
      }
    } else {
      var allocSize := (size + 1) % TWO_TO_32;
      if allocSize < size || allocSize > f.dataSize {
        return false, v;
      }
    }
    var bytes;
    ok, bytes := stream.Read(size);
    v := Blob(bytes);
  }

  /** The decoders of PB_DECODERS other than the one for submessages. */
  method DecScalar(stream: IStream, f: Field) returns (ok: bool, v: Value)
    requires stream.Valid() && !f.ltype.Submessage?
    modifies stream
    ensures stream.Valid() && stream.End() == old(stream.End())
    ensures ok <==> DecodeScalar(f, old(stream.Contents())).Some?
    ensures ok ==> DecodeScalar(f, old(stream.Contents())) == Some((v, stream.Contents()))
  {
    match f.ltype {
      case Varint => ok, v := DecVarint(stream, f);
      case UVarint => ok, v := DecUvarint(stream, f);
      case SVarint => ok, v := DecSvarint(stream, f);
      case Fixed32 => ok, v := DecFixed(stream, f);
      case Fixed64 => ok, v := DecFixed(stream, f);
      case Bytes => ok, v := DecBlob(stream, f);
      case String => ok, v := DecBlob(stream, f);
      case FixedLengthBytes => ok, v := DecBlob(stream, f);
    }
  }

  /** The loop over a packed payload: stops at its end, at the first bad value, and when the array is full. */
  method DecodePackedItems(stream: IStream, f: Field, have: seq<Value>) returns (ok: bool, items: seq<Value>)
    requires stream.Valid() && !f.ltype.Submessage?
    modifies stream
    ensures stream.Valid() && stream.End() == old(stream.End())
    ensures ok && stream.bytesLeft == 0 <==> DecodePacked(f, have, old(stream.Contents())).Some?
    ensures ok && stream.bytesLeft == 0 ==> DecodePacked(f, have, old(stream.Contents())) == Some(items)
  {
    ghost var payload := stream.Contents();
    items := have;
    ok := true;
    while stream.bytesLeft > 0 && |items| < f.arraySize
      invariant stream.Valid() && stream.End() == old(stream.End())
      invariant ok && DecodePacked(f, items, stream.Contents()) == DecodePacked(f, have, payload)
      decreases stream.bytesLeft
    {
      var v;
      ok, v := DecScalar(stream, f);
      if !ok {
        return;
      }
      items := items + [v];
    }
  }

  // ---------- defaults ----------

  /** pb_message_set_to_defaults */
  method SetToDefaults(fields: seq<Field>) returns (m: Message)
    requires WellFormed(fields)
    ensures m == Defaults(fields)
    decreases fields
  {
    m := map[];
    FieldsOk(fields);
    var iter := new FieldIter(fields);
    if fields == [] {
      return;
    }
    var more := true;
    while more
      invariant iter.Valid() && iter.fields == fields && fresh(iter)
      invariant more ==> m == Defaults(fields[..iter.pos])
      invariant !more ==> m == Defaults(fields)
      decreases more, |fields| - iter.pos
    {
      ghost var at := iter.pos;
      var slot := FieldSetToDefault(iter.Entry());
      m := m[iter.Entry().slot := slot];
      DefaultsSnoc(fields, at);
      more := iter.Next();
      if !more { assert fields[..at + 1] == fields; }
    }
  }

  lemma FieldsOk(fields: seq<Field>)
    requires WellFormed(fields)
    ensures TagsNonzero(fields) && RequiredCountOk(fields)
    ensures forall i :: 0 <= i < |fields| ==> FieldOk(fields[i])
  {
    forall i | 0 <= i < |fields| ensures fields[i].tag != 0 {
      assert FieldOk(fields[i]);
    }
  }

  lemma DefaultsSnoc(fields: seq<Field>, i: nat)
    requires i < |fields|
    ensures Defaults(fields[..i + 1]) == Defaults(fields[..i])[fields[i].slot := DefaultSlot(fields[i])]
  {
    assert fields[..i + 1][..i] == fields[..i];
  }

  /** pb_field_set_to_default */
  method FieldSetToDefault(f: Field) returns (s: Slot)
    requires FieldOk(f)
    ensures s == DefaultSlot(f)
    decreases f
  {
    if f.htype.Repeated? {
      return Array([]);
    }
    if f.htype.OneOf? {
      return EMPTY_UNION;
    }
    var v;
    if f.ltype.Submessage? {
      var sub := SetToDefaults(f.sub);
      v := Struct(sub);
    } else if f.dflt.Some? {
      v := f.dflt.value;
    } else {
      v := ZeroValue(f);
    }
    s := if f.htype == Optional(true) then Flagged(false, v) else Plain(v);
  }

  // ---------- fields and messages ----------

  /** What a submessage is decoded onto: array entries are initialised, others were when the message was. */
  function SubmessageBase(f: Field, base: Message): Message {
    if f.htype.Repeated? then Defaults(f.sub) else base
  }

  /** pb_dec_submessage */
  method DecSubmessage(stream: IStream, f: Field, base: Message) returns (ok: bool, v: Value)
    requires stream.Valid() && f.ltype.Submessage? && WellFormed(f.sub)
    modifies stream
    ensures stream.Valid()
    ensures ok <==> DecodeValue(f, Struct(SubmessageBase(f, base)), old(stream.Contents())).Some?
    ensures ok ==> stream.End() == old(stream.End())
    ensures ok ==>
      DecodeValue(f, Struct(SubmessageBase(f, base)), old(stream.Contents())) == Some((v, stream.Contents()))
    decreases stream.bytesLeft, 0
  {
    v := Num(0);
    var sub;
    ok, sub := stream.MakeStringSubstream();
    if !ok {
      return;
    }
    var init := base;
    if f.htype.Repeated? {
      init := SetToDefaults(f.sub);
    }
    var m;
    ok, m := DecodeNoinit(sub, f.sub, init);
    if !ok {
      return;
    }
    stream.CloseStringSubstream(sub);
    v := Struct(m);
  }

  /** The decoder of PB_DECODERS for the type of `f`. */
  method DecValue(stream: IStream, f: Field, base: Value) returns (ok: bool, v: Value)
    requires stream.Valid() && (f.ltype.Submessage? ==> base.Struct? && WellFormed(f.sub))
    requires f.ltype.Submessage? && f.htype.Repeated? ==> base == DefaultValue(f)
    modifies stream
    ensures stream.Valid()
    ensures ok <==> DecodeValue(f, base, old(stream.Contents())).Some?
    ensures ok ==> stream.End() == old(stream.End())
    ensures ok ==> DecodeValue(f, base, old(stream.Contents())) == Some((v, stream.Contents()))
    decreases stream.bytesLeft, 1
  {
    if f.ltype.Submessage? {
      ok, v := DecSubmessage(stream, f, base.slots);
    } else {
      ok, v := DecScalar(stream, f);
    }
  }

  /** The packed branch of decode_static_field. */
  method DecPackedArray(stream: IStream, f: Field, have: seq<Value>) returns (ok: bool, items: seq<Value>)
    requires stream.Valid() && !f.ltype.Submessage?
    modifies stream
    ensures stream.Valid()
    ensures ok <==> ReadDelimited(old(stream.Contents())).Some?
                    && DecodePacked(f, have, ReadDelimited(old(stream.Contents())).value.0).Some?
    ensures ok ==> stream.End() == old(stream.End())
                   && DecodePacked(f, have, ReadDelimited(old(stream.Contents())).value.0) == Some(items)
                   && stream.Contents() == ReadDelimited(old(stream.Contents())).value.1
  {
    items := have;
    var sub;
    ok, sub := stream.MakeStringSubstream();
    if !ok {
      return;
    }
    var status;
    status, items := DecodePackedItems(sub, f, have);
    if sub.bytesLeft != 0 {
      return false, items;
    }
    stream.CloseStringSubstream(sub);
    ok := status;
  }

  /** decode_static_field: stores one occurrence of the field. */
  method DecodeStaticField(stream: IStream, wire: nat, f: Field, m: Message) returns (ok: bool, m': Message)
    requires stream.Valid() && (f.ltype.Submessage? ==> WellFormed(f.sub))
    modifies stream
    ensures stream.Valid()
    ensures ok <==> DecodeField(f, wire, m, old(stream.Contents())).Some?
    ensures ok ==> stream.End() == old(stream.End())
    ensures ok ==> DecodeField(f, wire, m, old(stream.Contents())) == Some((m', stream.Contents()))
    decreases stream.bytesLeft, 2
  {
    m' := m;
    var v;
    match f.htype {
      case Required =>
        ok, v := DecValue(stream, f, StructValue(f, m));
        OldValueSuffices(f, m, old(stream.Contents()));
        m' := m[f.slot := Plain(v)];
      case Optional(flag) =>
        ok, v := DecValue(stream, f, StructValue(f, m));
        OldValueSuffices(f, m, old(stream.Contents()));
        m' := m[f.slot := if flag then Flagged(true, v) else Plain(v)];
      case Repeated =>
        var items := OldItems(f, m);
        if wire == WT_STRING && Packable(f.ltype) {
          ok, items := DecPackedArray(stream, f, items);
          m' := m[f.slot := Array(items)];
        } else if |items| >= f.arraySize {
          ok := false;
        } else {
          ok, v := DecValue(stream, f, DefaultValue(f));
          m' := m[f.slot := Array(items + [v])];
        }
      case OneOf =>
        ok, v := DecValue(stream, f, DefaultValue(f));
        m' := m[f.slot := Union(f.tag, v)];
    }
  }

  /** The memory of a singular field, read as a value of its type. */
  function StructValue(f: Field, m: Message): (v: Value)
    ensures f.ltype.Submessage? ==> v.Struct?
  {
    if f.ltype.Submessage? && !OldValue(f, m).Struct? then Struct(map[]) else OldValue(f, m)
  }

  lemma OldValueSuffices(f: Field, m: Message, bs: Bytes)
    ensures DecodeValue(f, StructValue(f, m), bs) == DecodeValue(f, OldValue(f, m), bs)
  {
  }

  /** Sets the bit of the field the iterator rests on, if it is required. */
  method MarkRequired(iter: FieldIter, fieldsSeen: array<nat>, ghost seen: set<nat>) returns (ghost seen': set<nat>)
    requires iter.Valid() && Mask(iter.fields, seen, fieldsSeen[..]) && RequiredCount(iter.fields) < 64
    modifies fieldsSeen
    ensures seen' == if iter.Entry().htype.Required? then seen + {iter.pos} else seen
    ensures iter.fields != [] ==> Mask(iter.fields, seen', fieldsSeen[..])
  {
    seen' := seen;
    if iter.Entry().htype.Required? {
      seen' := seen + {iter.pos};
      if iter.requiredFieldIndex < MAX_REQUIRED_FIELDS {
        var index := iter.requiredFieldIndex;
        ghost var before := fieldsSeen[..];
        fieldsSeen[index / 32] := Or(fieldsSeen[index / 32], Shl(1, index % 32, 32));
        assert fieldsSeen[..] == MarkBit(before, index);
      }
      if iter.fields != [] {
        MarkSeen(iter.fields, seen, old(fieldsSeen[..]), iter.pos);
      }
    }
  }

  /** The comparison of the mask against the number of required fields. */
  method RequiredPresent(iter: FieldIter, fieldsSeen: array<nat>, ghost seen: set<nat>) returns (ok: bool)
    requires iter.Valid() && Mask(iter.fields, seen, fieldsSeen[..]) && RequiredCountOk(iter.fields)
    modifies iter
    ensures ok <==> AllRequiredSeen(iter.fields, seen)
  {
    var count := iter.CountRequired();
    MaskCompleteExactly(iter.fields, seen, fieldsSeen[..]);
    if count > 0 {
      for i := 0 to count / 32
        invariant forall j :: 0 <= j < i ==> fieldsSeen[j] == ALL_BITS
      {
        if fieldsSeen[i] != ALL_BITS {
          assert !MaskComplete(fieldsSeen[..], count);
          return false;
        }
      }
      if fieldsSeen[count / 32] != ALL_BITS / Pow2(32 - count % 32) {
        return false;
      }
    }
    ok := true;
  }

  lemma StepUnknown(fields: seq<Field>, p: Progress, tag: nat, wire: nat, rest: Bytes)
    requires p.rest != [] && ReadTag(p.rest) == Tag(tag, wire, rest)
    requires Find(fields, tag).None? && !(fields == [] && tag == 0)
    ensures Step(fields, p) == match Wire.SkipField(wire, rest)
                               case None => None
                               case Some(rest') => Some((p.(rest := rest'), true))
  {
  }

  lemma StepTerminator(p: Progress, wire: nat, rest: Bytes)
    requires p.rest != [] && ReadTag(p.rest) == Tag(0, wire, rest)
    ensures Step([], p).None? && DecodeField(LAST_FIELD, wire, p.m, rest).None?
  {
  }

  lemma StepKnown(fields: seq<Field>, p: Progress, tag: nat, wire: nat, rest: Bytes, i: nat)
    requires p.rest != [] && ReadTag(p.rest) == Tag(tag, wire, rest)
    requires Find(fields, tag) == Some(i)
    ensures Step(fields, p) ==
      match DecodeField(fields[i], wire, p.m, rest)
      case None => None
      case Some((m', rest')) =>
        Some((Progress(m', if fields[i].htype.Required? then p.seen + {i} else p.seen, rest'), true))
  {
  }

  /** Stores the field the iterator was found to rest on; `p` is the progress before its key. */
  method StoreFound(
      stream: IStream, iter: FieldIter, fieldsSeen: array<nat>, wire: nat, tag: nat, m: Message, ghost p: Progress)
    returns (ok: bool, m': Message, ghost seen': set<nat>)
    requires stream.Valid() && iter.Valid() && WellFormed(iter.fields)
    requires Mask(iter.fields, p.seen, fieldsSeen[..]) && p.m == m
    requires p.rest != [] && ReadTag(p.rest) == Tag(tag, wire, stream.Contents())
    requires if iter.fields == [] then tag == 0 else Find(iter.fields, tag) == Some(iter.pos)
    modifies stream, fieldsSeen
    ensures stream.Valid()
    ensures ok <==> Step(iter.fields, p).Some?
    ensures ok ==> stream.End() == old(stream.End()) && Mask(iter.fields, seen', fieldsSeen[..])
    ensures ok ==> Step(iter.fields, p) == Some((Progress(m', seen', stream.Contents()), true))
    decreases stream.bytesLeft, 3
  {
    ghost var rest := stream.Contents();
    var f := iter.Entry();
    if iter.fields == [] {
      StepTerminator(p, wire, rest);
    } else {
      StepKnown(iter.fields, p, tag, wire, rest, iter.pos);
      assert FieldOk(f);
    }
    seen' := MarkRequired(iter, fieldsSeen, p.seen);
    ok, m' := DecodeStaticField(stream, wire, f, m);
  }

  /** Stores or skips the field whose key was read; `p` is the progress before the key. */
  method DecodeKeyed(
      stream: IStream, iter: FieldIter, fieldsSeen: array<nat>, wire: nat, tag: nat, m: Message, ghost p: Progress)
    returns (ok: bool, m': Message, ghost seen': set<nat>)
    requires stream.Valid() && iter.Valid() && WellFormed(iter.fields)
    requires Mask(iter.fields, p.seen, fieldsSeen[..]) && p.m == m
    requires p.rest != [] && ReadTag(p.rest) == Tag(tag, wire, stream.Contents())
    modifies stream, iter, fieldsSeen
    ensures stream.Valid() && iter.Valid()
    ensures ok <==> Step(iter.fields, p).Some?
    ensures ok ==> stream.End() == old(stream.End()) && Mask(iter.fields, seen', fieldsSeen[..])
    ensures ok ==> Step(iter.fields, p) == Some((Progress(m', seen', stream.Contents()), true))
    decreases stream.bytesLeft, 4
  {
    m', seen' := m, p.seen;
    var found := iter.Find(tag);
    if found {
      ok, m', seen' := StoreFound(stream, iter, fieldsSeen, wire, tag, m, p);
    } else {
      StepUnknown(iter.fields, p, tag, wire, stream.Contents());
      ok := stream.SkipField(wire);
    }
  }

  /** One round of the loop of pb_decode_noinit; `more` is false once the end of the message was read. */
  method DecodeRound(stream: IStream, iter: FieldIter, fieldsSeen: array<nat>, m: Message, ghost p: Progress)
    returns (ok: bool, more: bool, m': Message, ghost seen': set<nat>)
    requires stream.Valid() && stream.bytesLeft > 0 && iter.Valid() && WellFormed(iter.fields)
    requires Mask(iter.fields, p.seen, fieldsSeen[..]) && p.m == m && p.rest == stream.Contents()
    modifies stream, iter, fieldsSeen
    ensures stream.Valid() && iter.Valid()
    ensures ok <==> Step(iter.fields, p).Some?
    ensures ok ==> stream.End() == old(stream.End()) && Mask(iter.fields, seen', fieldsSeen[..])
    ensures ok ==> Step(iter.fields, p) == Some((Progress(m', seen', stream.Contents()), more))
    ensures more ==> stream.bytesLeft < old(stream.bytesLeft)
    decreases stream.bytesLeft, 5
  {
    m', seen' := m, p.seen;
    var wire, tag, eof;
    ok, wire, tag, eof := stream.DecodeTag();
    more := ok;
    if ok {
      ok, m', seen' := DecodeKeyed(stream, iter, fieldsSeen, wire, tag, m, p);
      more := ok;
    } else {
      ok := eof;
    }
  }

  /** pb_decode_noinit: a loop over the fields on the wire, then the check of the required ones. */
  method DecodeNoinit(stream: IStream, fields: seq<Field>, m: Message) returns (ok: bool, m': Message)
    requires stream.Valid() && WellFormed(fields)
    modifies stream
    ensures stream.Valid()
    ensures ok <==> DecodeMessage(fields, m, old(stream.Contents())).Some?
    ensures ok ==> stream.End() == old(stream.End())
    ensures ok ==> DecodeMessage(fields, m, old(stream.Contents())) == Some((m', stream.Contents()))
    // whatever the bytes are, nothing is stored that does not fit
    ensures ok && DefaultsFit(fields) && Tidy(fields, m) ==> Tidy(fields, m')
    decreases stream.bytesLeft, 6
  {
    hide Tidy, DefaultsFit, Step, Mask, WellFormed, AllRequiredSeen;
    FieldsOk(fields);
    m' := m;
    ghost var c := stream.Contents();
    ghost var seen: set<nat> := {};
    var fieldsSeen := new nat[2](_ => 0);
    EmptyMask(fields, fieldsSeen[..]);
    var iter := new FieldIter(fields);
    var more := true;

    while stream.bytesLeft > 0 && more
      invariant stream.Valid() && stream.End() == old(stream.End())
      invariant iter.Valid() && iter.fields == fields && Mask(fields, seen, fieldsSeen[..])
      invariant more ==> Loop(fields, Progress(m, {}, c)) == Loop(fields, Progress(m', seen, stream.Contents()))
      invariant !more ==> Loop(fields, Progress(m, {}, c)) == Some(Progress(m', seen, stream.Contents()))
      decreases more, stream.bytesLeft
    {
      ghost var p := Progress(m', seen, stream.Contents());
      LoopUnfolds(fields, p);
      ok, more, m', seen := DecodeRound(stream, iter, fieldsSeen, m', p);
      if !ok {
        return;
      }
    }
    ok := RequiredPresent(iter, fieldsSeen, seen);
    if ok && DefaultsFit(fields) && Tidy(fields, m) {
      MessageKeepsTidy(fields, m, c);
    }
  }

  lemma LoopUnfolds(fields: seq<Field>, p: Progress)
    requires p.rest != []
    ensures Step(fields, p).None? ==> Loop(fields, p).None?
    ensures Step(fields, p).Some? && Step(fields, p).value.1 ==> Loop(fields, p) == Loop(fields, Step(fields, p).value.0)
    ensures Step(fields, p).Some? && !Step(fields, p).value.1 ==> Loop(fields, p) == Some(Step(fields, p).value.0)
  {
  }

  lemma EmptyMask(fields: seq<Field>, words: seq<nat>)
    requires words == [0, 0]
    ensures Mask(fields, {}, words)
  {
    forall b | 0 <= b < 64 ensures !SeenBit(words, b) {
      ZeroBit(b % 32);
    }
  }

  /** pb_decode: the bytes of one message into a struct of its own. */
  method Decode(stream: IStream, fields: seq<Field>) returns (ok: bool, m: Message)
    requires stream.Valid() && WellFormed(fields)
    modifies stream
    ensures stream.Valid()
    ensures ok <==> Wire.Decode(fields, old(stream.Contents())).Some?
    ensures ok ==> Wire.Decode(fields, old(stream.Contents())) == Some((m, stream.Contents()))
    ensures ok && DefaultsFit(fields) ==> Tidy(fields, m)
  {
    hide Tidy, DefaultsFit;
    m := SetToDefaults(fields);
    if DefaultsFit(fields) {
      DefaultsTidy(fields);
    }
    ok, m := DecodeNoinit(stream, fields, m);
  }
}
