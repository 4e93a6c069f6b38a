/**
 What decoding leaves in the struct, whatever the bytes are: nothing is stored that does not fit its C buffer, and
 an optional field that is absent still holds its declared default.
 */
module Decoded {
  import opened Basics
  import opened Schema
  import opened Wire
  import V = Varint

  // ---------- the defaults a descriptor declares ----------

  predicate PristineValue(f: Field, v: Value)
    decreases f, 0
  {
    if f.ltype.Submessage? then v.Struct? && Pristine(f.sub, v.slots)
    else if f.dflt.Some? then v == f.dflt.value
    else if f.ltype.Bytes? || f.ltype.String? then v == Blob([])
    else if f.ltype.FixedLengthBytes? then v.Blob? && |v.b| == f.dataSize && forall i :: 0 <= i < |v.b| ==> v.b[i] == 0
    else v == Num(0)
  }

  predicate PristineSlot(f: Field, s: Slot)
    decreases f, 1
  {
    match f.htype
    case Required => s.Plain? && PristineValue(f, s.v)
    case Optional(true) => s.Flagged? && !s.has && PristineValue(f, s.v)
    case Optional(false) => s.Plain? && PristineValue(f, s.v)
    case Repeated => s == Array([])
    case OneOf => s.Union? && s.which == 0
  }

  /** Every field of the struct holds what the descriptor declares. */
  predicate Pristine(fields: seq<Field>, m: Message)
    decreases fields
  {
    forall i :: 0 <= i < |fields| ==> fields[i].slot in m && PristineSlot(fields[i], m[fields[i].slot])
  }

  // ---------- structs within their buffers ----------

  predicate SignedIn(n: int, size: nat) {
    -(Pow256(size) as int) <= 2 * n < Pow256(size)
  }

  predicate UnsignedIn(n: int, size: nat) {
    0 <= n < Pow256(size)
  }

  predicate ValueTidy(f: Field, v: Value)
    decreases f, 0
  {
    match f.ltype
    case Varint => v.Num? && SignedIn(v.n, f.dataSize)
    case SVarint => v.Num? && SignedIn(v.n, f.dataSize)
    case UVarint => v.Num? && UnsignedIn(v.n, f.dataSize)
    case Fixed32 => v.Num? && UnsignedIn(v.n, 4)
    case Fixed64 => v.Num? && UnsignedIn(v.n, 8)
    case Bytes => v.Blob? && |v.b| + BYTES_HEADER <= f.dataSize
    case String => v.Blob? && |v.b| + 1 <= f.dataSize
    case FixedLengthBytes => v.Blob? && |v.b| == f.dataSize
    case Submessage => v.Struct? && Tidy(f.sub, v.slots)
  }

  predicate ItemsTidy(f: Field, items: seq<Value>)
    decreases f, 1
  {
    |items| <= f.arraySize && forall i :: 0 <= i < |items| ==> ValueTidy(f, items[i])
  }

  predicate SlotTidy(f: Field, s: Slot)
    decreases f, 2
  {
    match f.htype
    case Required => s.Plain? && ValueTidy(f, s.v)
    case Optional(true) => s.Flagged? && ValueTidy(f, s.v) && (!s.has ==> PristineValue(f, s.v))
    case Optional(false) => s.Plain? && ValueTidy(f, s.v)
    case Repeated => s.Array? && ItemsTidy(f, s.items)
    case OneOf => s.Union? && (s.which == f.tag ==> ValueTidy(f, s.v))
  }

  /** At every depth: what is stored fits its buffer, and what is absent holds its declared default. */
  predicate Tidy(fields: seq<Field>, m: Message)
    decreases fields
  {
    forall i :: 0 <= i < |fields| ==> fields[i].slot in m && SlotTidy(fields[i], m[fields[i].slot])
  }

  /** The buffers hold at least what the descriptor itself puts into them. */
  predicate DefaultsFit(fields: seq<Field>)
    decreases fields
  {
    forall i :: 0 <= i < |fields| ==>
      var f := fields[i];
      if f.ltype.Submessage? then DefaultsFit(f.sub)
      else f.htype.Required? || f.htype.Optional? ==> ValueTidy(f, DefaultValue(f))
  }

  lemma RangeIsPow256(size: nat)
    requires IntegerSize(size)
    ensures Range(size) == Pow256(size)
  {
    assert Pow256(4) == 0x100 * 0x100 * 0x100 * 0x100;
    assert Pow256(8) == 0x100 * 0x100 * 0x100 * 0x100 * Pow256(4);
  }

  /** The guards of the integer coders are the ranges of the C types. */
  lemma RangesExactly(n: int, size: nat)
    requires IntegerSize(size)
    ensures FitsSigned(n, size) <==> SignedIn(n, size)
    ensures FitsUnsigned(n, size) <==> UnsignedIn(n, size)
  {
    RangeIsPow256(size);
  }

  lemma {:induction false} LittleEndianRange(bs: Bytes)
    ensures V.FromLittleEndian(bs) < Pow256(|bs|)
  {
    if bs != [] {
      LittleEndianRange(bs[1..]);
    }
  }

  // ---------- the defaults ----------

  lemma {:induction false} DefaultPristine(f: Field)
    requires FieldOk(f)
    ensures PristineValue(f, DefaultValue(f))
    decreases f, 0
  {
    if f.ltype.Submessage? {
      DefaultsPristine(f.sub);
    }
  }

  /** `pb_message_set_to_defaults` gives every field what the descriptor declares. */
  lemma {:induction false} DefaultsPristine(fields: seq<Field>)
    requires WellFormed(fields)
    ensures Pristine(fields, Defaults(fields))
    decreases fields
  {
    forall i | 0 <= i < |fields|
      ensures fields[i].slot in Defaults(fields) && PristineSlot(fields[i], Defaults(fields)[fields[i].slot])
    {
      DefaultsAt(fields, i);
      assert FieldOk(fields[i]);
      if !fields[i].htype.Repeated? && !fields[i].htype.OneOf? {
        DefaultPristine(fields[i]);
      }
    }
  }

  lemma {:induction false} DefaultTidy(f: Field)
    requires FieldOk(f) && f.ltype.Submessage? && DefaultsFit(f.sub)
    ensures ValueTidy(f, DefaultValue(f))
    decreases f, 0
  {
    DefaultsTidy(f.sub);
  }

  lemma {:induction false} DefaultsTidy(fields: seq<Field>)
    requires WellFormed(fields) && DefaultsFit(fields)
    ensures Tidy(fields, Defaults(fields))
    decreases fields
  {
    forall i | 0 <= i < |fields|
      ensures fields[i].slot in Defaults(fields) && SlotTidy(fields[i], Defaults(fields)[fields[i].slot])
    {
      var f := fields[i];
      DefaultsAt(fields, i);
      assert FieldOk(f);
      if f.htype.Required? || f.htype.Optional? {
        DefaultPristine(f);
        if f.ltype.Submessage? {
          DefaultTidy(f);
        }
      }
    }
  }

  // ---------- any bytes ----------

  lemma ScalarTidy(f: Field, bs: Bytes)
    requires !f.ltype.Submessage? && DecodeScalar(f, bs).Some?
    ensures ValueTidy(f, DecodeScalar(f, bs).value.0)
  {
    var v := DecodeScalar(f, bs).value.0;
    match f.ltype {
      case Varint => RangesExactly(v.n, f.dataSize);
      case UVarint => RangesExactly(v.n, f.dataSize);
      case SVarint => RangesExactly(v.n, f.dataSize);
      case Fixed32 => LittleEndianRange(bs[..4]);
      case Fixed64 => LittleEndianRange(bs[..8]);
      case _ =>
    }
  }

  lemma {:induction false} PackedTidy(f: Field, items: seq<Value>, payload: Bytes)
    requires !f.ltype.Submessage? && DecodePacked(f, items, payload).Some?
    requires ItemsTidy(f, items)
    ensures ItemsTidy(f, DecodePacked(f, items, payload).value)
    decreases |payload|
  {
    hide DecodeScalar;
    if payload != [] {
      ScalarTidy(f, payload);
      var (v, rest) := DecodeScalar(f, payload).value;
      PackedTidy(f, items + [v], rest);
    }
  }

  /** One value, onto whatever was there. */
  lemma {:induction false} ValueKeepsTidy(f: Field, base: Value, bs: Bytes)
    requires FieldOk(f) && (f.ltype.Submessage? ==> DefaultsFit(f.sub) && ValueTidy(f, base))
    requires DecodeValue(f, base, bs).Some?
    ensures ValueTidy(f, DecodeValue(f, base, bs).value.0)
    decreases |bs|, 1
  {
    hide DecodeScalar;
    if f.ltype.Submessage? {
      MessageKeepsTidy(f.sub, base.slots, ReadDelimited(bs).value.0);
    } else {
      ScalarTidy(f, bs);
    }
  }

  /** What a field is decoded onto, if that matters. */
  lemma BaseTidy(fields: seq<Field>, m: Message, i: nat)
    requires i < |fields| && WellFormed(fields) && DefaultsFit(fields) && Tidy(fields, m)
    ensures FieldOk(fields[i]) && SlotTidy(fields[i], m[fields[i].slot])
    ensures var f := fields[i];
            f.ltype.Submessage? ==>
              && DefaultsFit(f.sub) && ValueTidy(f, DefaultValue(f))
              && (f.htype.Required? || f.htype.Optional? ==> ValueTidy(f, OldValue(f, m)))
  {
    var f := fields[i];
    assert FieldOk(f) && SlotTidy(f, m[f.slot]);
    if f.ltype.Submessage? {
      DefaultTidy(f);
    }
  }

  lemma {:induction false} SlotAfter(fields: seq<Field>, i: nat, wire: nat, m: Message, bs: Bytes)
    requires i < |fields| && WellFormed(fields) && DefaultsFit(fields) && Tidy(fields, m)
    requires DecodeField(fields[i], wire, m, bs).Some?
    ensures var (m', f) := (DecodeField(fields[i], wire, m, bs).value.0, fields[i]);
            && f.slot in m' && SlotTidy(f, m'[f.slot]) && m' == m[f.slot := m'[f.slot]]
            && (f.htype.OneOf? ==> m'[f.slot].which == f.tag)
    decreases |bs|, 2
  {
    hide DecodeValue, WellFormed, DefaultsFit, Tidy, FieldOk, ValueTidy, PristineValue;
    var f := fields[i];
    BaseTidy(fields, m, i);
    match f.htype {
      case Required => ValueKeepsTidy(f, OldValue(f, m), bs);
      case Optional(_) => ValueKeepsTidy(f, OldValue(f, m), bs);
      case Repeated =>
        if wire == WT_STRING && Packable(f.ltype) {
          PackedTidy(f, OldItems(f, m), ReadDelimited(bs).value.0);
        } else {
          ValueKeepsTidy(f, DefaultValue(f), bs);
        }
      case OneOf => ValueKeepsTidy(f, DefaultValue(f), bs);
    }
  }

  /** Storing one field touches no other, except that it takes over its union. */
  lemma OthersTidy(fields: seq<Field>, i: nat, m: Message, m': Message)
    requires i < |fields| && WellFormed(fields) && Tidy(fields, m)
    requires var f := fields[i];
             && f.slot in m' && SlotTidy(f, m'[f.slot]) && m' == m[f.slot := m'[f.slot]]
             && (f.htype.OneOf? ==> m'[f.slot].which == f.tag)
    ensures Tidy(fields, m')
  {
    hide ValueTidy, ItemsTidy, PristineValue;
    forall j | 0 <= j < |fields|
      ensures fields[j].slot in m' && SlotTidy(fields[j], m'[fields[j].slot])
    {
      assert SlotTidy(fields[j], m[fields[j].slot]);
      if j != i && fields[j].slot == fields[i].slot {
        assert fields[j].htype.OneOf? && fields[j].tag != fields[i].tag;
      }
    }
  }

  lemma {:induction false} LoopKeepsTidy(fields: seq<Field>, p: Progress)
    requires WellFormed(fields) && DefaultsFit(fields) && Tidy(fields, p.m) && Loop(fields, p).Some?
    ensures Tidy(fields, Loop(fields, p).value.m)
    decreases |p.rest|, 3
  {
    hide DecodeField, SkipField, WellFormed, DefaultsFit, Tidy;
    if p.rest != [] {
      match ReadTag(p.rest)
      case Eof(_) =>
      case Tag(tag, wire, rest) =>
        var i := Find(fields, tag);
        if i.Some? {
          SlotAfter(fields, i.value, wire, p.m, rest);
          OthersTidy(fields, i.value, p.m, DecodeField(fields[i.value], wire, p.m, rest).value.0);
        }
        LoopKeepsTidy(fields, Step(fields, p).value.0);
    }
  }

  /** Whatever the bytes are: a message that is accepted leaves a tidy struct tidy. */
  lemma {:induction false} MessageKeepsTidy(fields: seq<Field>, m: Message, bs: Bytes)
    requires WellFormed(fields) && DefaultsFit(fields) && Tidy(fields, m) && DecodeMessage(fields, m, bs).Some?
    ensures Tidy(fields, DecodeMessage(fields, m, bs).value.0)
    decreases |bs|, 4
  {
    hide Loop, WellFormed, DefaultsFit, Tidy;
    LoopKeepsTidy(fields, Progress(m, {}, bs));
  }

  /** And a message that `pb_decode` accepts makes one. */
  lemma DecodedTidy(fields: seq<Field>, bs: Bytes)
    requires WellFormed(fields) && DefaultsFit(fields) && Decode(fields, bs).Some?
    ensures Tidy(fields, Decode(fields, bs).value.0)
  {
    DefaultsTidy(fields);
    MessageKeepsTidy(fields, Defaults(fields), bs);
  }

  // ---------- exactly which values ----------

  /** The range of the field, and the word the number is cut to first: 32 bits for the narrower signed fields. */
  predicate ReadsAs(f: Field, u: nat, n: int) {
    match f.ltype
    case Varint => SignedIn(n, f.dataSize) && (u - n) % (if f.dataSize == 8 then TWO_TO_64 else TWO_TO_32) == 0
    case SVarint => SignedIn(n, f.dataSize) && V.ZigZag(n) == u
    case UVarint => UnsignedIn(n, f.dataSize) && n == u
    case _ => false
  }

  lemma SmallRanges(n: int, size: nat)
    requires IntegerSize(size)
    ensures SignedIn(n, size) ==> -0x8000_0000_0000_0000 <= n < 0x8000_0000_0000_0000
    ensures SignedIn(n, size) && size != 8 ==> -0x8000_0000 <= n < 0x8000_0000
  {
    RangeIsPow256(size);
  }

  lemma SignedExactly(f: Field, bs: Bytes, n: int)
    requires f.ltype.Varint? && IntegerSize(f.dataSize) && V.Parse64(bs).Some?
    ensures var (u, rest) := V.Parse64(bs).value;
            DecodeScalar(f, bs) == Some((Num(n), rest)) <==> ReadsAs(f, u, n)
  {
    var (u, rest) := V.Parse64(bs).value;
    SmallRanges(n, f.dataSize);
    RangesExactly(n, f.dataSize);
    hide V.Parse64, Pow256, Range, SignedIn, FitsSigned;
    if SignedIn(n, f.dataSize) {
      if f.dataSize == 8 {
        V.WordOf(u, n, TWO_TO_64);
      } else {
        V.WordOf(u % TWO_TO_32, n, TWO_TO_32);
      }
    }
  }

  /** A number is stored exactly if the field can hold what the varint stands for. */
  lemma NumberExactly(f: Field, bs: Bytes, n: int)
    requires f.ltype.Varint? || f.ltype.SVarint? || f.ltype.UVarint?
    requires IntegerSize(f.dataSize) && V.Parse64(bs).Some?
    ensures var (u, rest) := V.Parse64(bs).value;
            DecodeScalar(f, bs) == Some((Num(n), rest)) <==> ReadsAs(f, u, n)
  {
    var u := V.Parse64(bs).value.0;
    if f.ltype.Varint? {
      SignedExactly(f, bs, n);
    } else {
      RangesExactly(n, f.dataSize);
      V.ZigZagBijective(n, u);
    }
  }

  function Zeros(n: nat): (bs: Bytes)
    ensures |bs| == n && forall i :: 0 <= i < n ==> bs[i] == 0
  {
    seq(n, _ => 0)
  }

  /** A string of bytes is stored exactly if it fits, except that an empty one fills a fixed-length field with zeros. */
  lemma BlobExactly(f: Field, bs: Bytes)
    requires f.dataSize < TWO_TO_32 && (f.ltype.Bytes? || f.ltype.String? || f.ltype.FixedLengthBytes?)
    ensures ReadDelimited(bs).None? ==> DecodeScalar(f, bs).None?
    ensures ReadDelimited(bs).Some? ==>
              var (b, rest) := ReadDelimited(bs).value;
              DecodeScalar(f, bs) == if ValueTidy(f, Blob(b)) then Some((Blob(b), rest))
                                     else if f.ltype.FixedLengthBytes? && b == []
                                     then Some((Blob(Zeros(f.dataSize)), rest)) else None
  {
    hide ReadDelimited;
    assert ZeroValue(f) == Blob(Zeros(f.dataSize)) || !f.ltype.FixedLengthBytes?;
    assert f.dataSize == 0 ==> Zeros(f.dataSize) == [];
  }

  /** A key of zero ends the message, whatever follows. */
  lemma ZeroKeyEnds(fields: seq<Field>, p: Progress)
    requires p.rest != [] && p.rest[0] == 0
    ensures Loop(fields, p) == Some(p.(rest := p.rest[1..]))
  {
  }

  // ---------- required fields ----------

  /** The tags of the fields the loop gets to, stored or skipped. */
  function TagsRead(fields: seq<Field>, p: Progress): seq<nat>
    decreases |p.rest|
  {
    if p.rest == [] then []
    else
      match Step(fields, p)
      case None => []
      case Some((p', more)) => if more then [ReadTag(p.rest).tag] + TagsRead(fields, p') else []
  }

  lemma {:induction false} SeenExactly(fields: seq<Field>, p: Progress, i: nat)
    requires DistinctTags(fields) && Loop(fields, p).Some? && i < |fields|
    ensures i in Loop(fields, p).value.seen <==>
              i in p.seen || (fields[i].htype.Required? && fields[i].tag in TagsRead(fields, p))
    decreases |p.rest|
  {
    hide DecodeField, SkipField;
    if p.rest != [] {
      match ReadTag(p.rest)
      case Eof(_) =>
      case Tag(tag, _, _) =>
        FindDistinct(fields, i);
        SeenExactly(fields, Step(fields, p).value.0, i);
    }
  }

  /** `pb_decode_noinit` insists on exactly the required fields, whichever come with the bytes. */
  lemma RequiredExactly(fields: seq<Field>, m: Message, bs: Bytes)
    requires DistinctTags(fields)
    ensures var p := Progress(m, {}, bs);
            DecodeMessage(fields, m, bs).Some? <==>
              && Loop(fields, p).Some?
              && forall i :: 0 <= i < |fields| && fields[i].htype.Required? ==> fields[i].tag in TagsRead(fields, p)
  {
    hide Loop, TagsRead;
    var p := Progress(m, {}, bs);
    if Loop(fields, p).Some? {
      forall i: nat | i < |fields|
        ensures i in Loop(fields, p).value.seen <==> fields[i].htype.Required? && fields[i].tag in TagsRead(fields, p)
      {
        SeenExactly(fields, p, i);
      }
    }
  }

  // ---------- fields nobody knows ----------

  lemma {:induction false} SkipVarintExactly(bs: Bytes)
    ensures SkipVarint(bs).Some? <==> exists i :: 0 <= i < |bs| && bs[i] < 0x80
    ensures SkipVarint(bs).Some? ==>
              var n := |bs| - |SkipVarint(bs).value|;
              0 < n <= |bs| && SkipVarint(bs).value == bs[n..] && bs[n - 1] < 0x80
              && forall i :: 0 <= i < n - 1 ==> bs[i] >= 0x80
  {
    if bs != [] {
      SkipVarintExactly(bs[1..]);
      assert forall i :: 0 < i < |bs| ==> bs[i] == bs[1..][i - 1];
      if bs[0] >= 0x80 {
        if i :| 0 <= i < |bs| && bs[i] < 0x80 {
          assert bs[1..][i - 1] < 0x80;
        }
        if i :| 0 <= i < |bs[1..]| && bs[1..][i] < 0x80 {
          assert bs[i + 1] < 0x80;
        }
      }
    }
  }

  /** Of the eight wire types four can be skipped, by as many bytes as their value takes. */
  lemma SkipExactly(wire: nat, bs: Bytes)
    ensures var r := SkipField(wire, bs);
            if wire == 0 then r == SkipVarint(bs)
            else if wire == 1 then r == if |bs| < 8 then None else Some(bs[8..])
            else if wire == 2 then r == if ReadDelimited(bs).None? then None else Some(ReadDelimited(bs).value.1)
            else if wire == 5 then r == if |bs| < 4 then None else Some(bs[4..])
            else r.None?
  {
  }
}
