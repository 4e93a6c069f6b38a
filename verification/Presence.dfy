/** Which fields of a struct are put on the wire, and behind which key. */
module Presence {
  import opened Basics
  import opened Decoded
  import opened Schema
  import opened Wire
  import V = Varint

  /** A field that has nothing to say: absent, empty, or, without a has_ flag, as good as zero. */
  predicate Unset(f: Field, s: Slot) {
    match s
    case Plain(Num(n)) => f.htype.Optional? && n == 0
    case Plain(Blob(b)) => f.htype.Optional? && (b == [] || (f.ltype.String? && b[0] == 0))
    case Plain(Struct(_)) => false
    case Flagged(has, _) => !has
    case Array(items) => items == []
    case Union(which, _) => which != f.tag
  }

  /** The number in the low three bits of a key. */
  function WireNumber(l: LType): nat {
    if l.Fixed64? then 1
    else if l.Fixed32? then 5
    else if l.Varint? || l.UVarint? || l.SVarint? then 0
    else 2
  }

  /** Every value is put behind its field's number and the wire type of the protocol, as one varint. */
  lemma KeyedBytes(f: Field, v: Value)
    requires FieldOk(f) && EncodeKeyed(f, v).Some?
    ensures EncodeKeyed(f, v).value == V.Encode(8 * f.tag + WireNumber(f.ltype)) + EncodeValue(f, v).value
    ensures V.Parse32(EncodeKeyed(f, v).value) == Some((8 * f.tag + WireNumber(f.ltype), EncodeValue(f, v).value))
  {
    V.Parse32Encode(8 * f.tag + WireNumber(f.ltype), EncodeValue(f, v).value);
  }

  /** A string goes up to its first NUL, or to the end of its buffer. */
  lemma StringBytes(f: Field, b: Bytes, tail: Bytes) returns (text: Bytes)
    requires FieldOk(f) && f.ltype.String?
    ensures EncodeValue(f, Blob(b)).Some? && ReadDelimited(EncodeValue(f, Blob(b)).value + tail) == Some((text, tail))
    ensures text <= b && 0 !in text && |text| <= f.dataSize
    ensures |text| == f.dataSize || |text| == |b| || b[|text|] == 0
  {
    text := CString(b, f.dataSize);
    var bs := Delimited(text) + tail;
    assert bs == V.Encode(|text|) + (text + tail);
    V.Parse32Encode(|text|, text + tail);
    assert (text + tail)[..|text|] == text && (text + tail)[|text|..] == tail;
  }

  /** A packed array is one length-delimited value. */
  lemma PackedBytes(f: Field, items: seq<Value>)
    requires FieldOk(f) && Packable(f.ltype) && items != [] && EncodeArray(f, items).Some?
    ensures V.Parse32(EncodeArray(f, items).value) == Some((8 * f.tag + 2, Delimited(EncodePacked(f, items).value)))
  {
    V.Parse32Encode(8 * f.tag + 2, Delimited(EncodePacked(f, items).value));
  }

  /** A field writes nothing exactly if it has nothing to say. */
  lemma SilentExactly(f: Field, s: Slot)
    requires FieldOk(f) && SlotTyped(f, s)
    ensures EncodeSlot(f, s) == Some([]) <==> Unset(f, s)
  {
    if s.Array? && s.items != [] && !Packable(f.ltype) {
      assert EncodeUnpacked(f, s.items).Some? ==> EncodeKeyed(f, s.items[0]).Some?;
    }
  }

  /** A field of a fixed length is written even when it is all zeros. */
  predicate AlwaysWritten(f: Field) {
    f.htype.Required? || (f.htype == Optional(false) && f.ltype.FixedLengthBytes? && f.dataSize > 0)
  }

  lemma PristineSilent(f: Field, s: Slot)
    requires FieldOk(f) && PristineSlot(f, s)
    ensures EncodeSlot(f, s) == Some([]) <==> !AlwaysWritten(f)
  {
  }

  /** A struct of defaults takes no bytes, exactly if none of its fields is written whatever it holds. */
  lemma {:induction false} PristineEncodesToNothing(fields: seq<Field>, m: Message)
    requires (forall i :: 0 <= i < |fields| ==> FieldOk(fields[i])) && Pristine(fields, m)
    ensures EncodeFields(fields, m) == Some([]) <==> forall i :: 0 <= i < |fields| ==> !AlwaysWritten(fields[i])
    decreases |fields|
  {
    if fields != [] {
      PristineSilent(fields[0], m[fields[0].slot]);
      var rest := fields[1..];
      assert fields == [fields[0]] + rest;
      assert Pristine(rest, m);
      PristineEncodesToNothing(rest, m);
      assert forall i :: 0 < i < |fields| ==> fields[i] == rest[i - 1];
      assert forall i :: 0 <= i < |rest| ==> rest[i] == fields[i + 1];
      hide AlwaysWritten;
    }
  }

  lemma DefaultsEncodeToNothing(fields: seq<Field>)
    requires WellFormed(fields)
    ensures EncodeFields(fields, Defaults(fields)) == Some([]) <==>
              forall i :: 0 <= i < |fields| ==> !AlwaysWritten(fields[i])
  {
    DefaultsPristine(fields);
    PristineEncodesToNothing(fields, Defaults(fields));
  }

  // ---------- what can be written ----------

  predicate ValueWritable(f: Field, v: Value)
    decreases f, 0
  {
    match f.ltype
    case Bytes => v.Blob? && |v.b| + BYTES_HEADER <= f.dataSize
    case Submessage => v.Struct? && Writable(f.sub, v.slots)
    case _ => true
  }

  predicate SlotWritable(f: Field, s: Slot)
    decreases f, 1
  {
    match s
    case Array(items) => |items| <= f.arraySize && forall i :: 0 <= i < |items| ==> ValueWritable(f, items[i])
    case _ => Unset(f, s) || ValueWritable(f, s.v)
  }

  /** No array is longer, and no byte string larger, than its member of the struct. */
  predicate Writable(fields: seq<Field>, m: Message)
    decreases fields
  {
    forall i :: 0 <= i < |fields| && fields[i].slot in m ==> SlotWritable(fields[i], m[fields[i].slot])
  }

  lemma {:induction false} ValueEncodesExactly(f: Field, v: Value)
    requires FieldOk(f) && ValueTyped(f, v)
    ensures EncodeValue(f, v).Some? <==> ValueWritable(f, v)
    decreases f, 0
  {
    if f.ltype.Submessage? {
      EncodesExactly(f.sub, v.slots);
    }
  }

  lemma {:induction false} ItemsEncodeExactly(f: Field, items: seq<Value>)
    requires FieldOk(f) && forall i :: 0 <= i < |items| ==> ValueTyped(f, items[i])
    ensures EncodePacked(f, items).Some? <==> forall i :: 0 <= i < |items| ==> ValueWritable(f, items[i])
    ensures EncodeUnpacked(f, items).Some? <==> forall i :: 0 <= i < |items| ==> ValueWritable(f, items[i])
    decreases f, 1, |items|
  {
    if items != [] {
      ValueEncodesExactly(f, items[0]);
      ItemsEncodeExactly(f, items[1..]);
      assert forall i :: 0 < i < |items| ==> items[i] == items[1..][i - 1];
      assert forall i :: 0 <= i < |items| - 1 ==> items[1..][i] == items[i + 1];
    }
  }

  lemma {:induction false} SlotEncodesExactly(f: Field, s: Slot)
    requires FieldOk(f) && SlotTyped(f, s)
    ensures EncodeSlot(f, s).Some? <==> SlotWritable(f, s)
    decreases f, 2
  {
    SilentExactly(f, s);
    if s.Array? {
      ItemsEncodeExactly(f, s.items);
    } else if !Unset(f, s) {
      ValueEncodesExactly(f, s.v);
    }
    hide ValueWritable, ValueTyped, EncodeValue;
  }

  /** The encoder reports an error exactly for what does not fit the struct in the first place. */
  lemma {:induction false} EncodesExactly(fields: seq<Field>, m: Message)
    requires WellFormed(fields) && MessageTyped(fields, m)
    ensures EncodeFields(fields, m).Some? <==> Writable(fields, m)
    decreases fields, 1
  {
    EachEncodesExactly(fields, m);
  }

  lemma {:induction false} EachEncodesExactly(fields: seq<Field>, m: Message)
    requires (forall i :: 0 <= i < |fields| ==> FieldOk(fields[i])) && MessageTyped(fields, m)
    ensures EncodeFields(fields, m).Some? <==> Writable(fields, m)
    decreases fields, 0
  {
    if fields != [] {
      var rest := fields[1..];
      assert FieldOk(fields[0]) && SlotTyped(fields[0], m[fields[0].slot]);
      SlotEncodesExactly(fields[0], m[fields[0].slot]);
      assert forall i :: 0 <= i < |rest| ==> rest[i] == fields[i + 1];
      EachEncodesExactly(rest, m);
      assert forall i :: 0 < i < |fields| ==> fields[i] == rest[i - 1];
      hide SlotWritable, SlotTyped, EncodeSlot, FieldOk;
    }
  }
}
