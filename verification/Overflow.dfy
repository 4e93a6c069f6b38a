/**
 Where an array has no room for an entry, decoding fails: the first field of the writer's for which the reader has
 no room ends the loop with an error.
 */
module Overflow {
  import opened Basics
  import opened Schema
  import opened Wire
  import opened Merged
  import opened RoundTrip

  /** A known tag whose value does not decode ends the loop. */
  lemma FieldFails(fields: seq<Field>, p: Progress, i: nat, wire: nat, val: Bytes, tail: Bytes)
    requires i < |fields| && Find(fields, fields[i].tag) == Some(i)
    requires 0 < fields[i].tag < 0x2000_0000 && wire < 8
    requires p.rest == Key(fields[i].tag, wire) + val + tail
    requires DecodeField(fields[i], wire, p.m, val + tail).None?
    ensures Loop(fields, p).None?
  {
    Assoc(Key(fields[i].tag, wire), val, tail);
    KeyParses(fields[i].tag, wire, val + tail);
  }

  lemma {:induction false} PackedOverflows(f: Field, have: seq<Value>, items: seq<Value>)
    requires FieldOk(f) && Packable(f.ltype)
    requires |have| <= f.arraySize < |have| + |items|
    requires forall i :: 0 <= i < |items| ==> ValueFits(f, items[i])
    requires EncodePacked(f, items).Some?
    ensures DecodePacked(f, have, EncodePacked(f, items).value).None?
    decreases |items|
  {
    hide EncodeValue, DecodeScalar, ValueFits;
    var rest := EncodePacked(f, items[1..]).value;
    ScalarRoundTrip(f, items[0], rest);
    if |have| < f.arraySize {
      PackedOverflows(f, have + [items[0]], items[1..]);
    }
  }

  lemma {:induction false} UnpackedOverflows(
      fields': seq<Field>, p: Progress, i: nat, f: Field, items: seq<Value>, have: seq<Value>, tail: Bytes)
    requires WellFormed(fields') && i < |fields'| && FieldOk(f) && Narrower(fields'[i], f) && f.htype.Repeated?
    requires !Packable(f.ltype) && |have| <= f.arraySize < |have| + |items|
    requires forall j :: 0 <= j < |items| ==> ValueFits(f, items[j])
    requires EncodeUnpacked(f, items).Some? && ShortItems(f, items)
    requires p.rest == EncodeUnpacked(f, items).value + tail
    requires f.slot in p.m && p.m[f.slot] == Array(have)
    ensures Loop(fields', p).None?
    decreases |items|
  {
    var more := EncodeUnpacked(f, items[1..]).value;
    Assoc(EncodeKeyed(f, items[0]).value, more, tail);
    if |have| == f.arraySize {
      FindDistinct(fields', i);
      FieldFails(fields', p, i, WireType(f.ltype), EncodeValue(f, items[0]).value, more + tail);
    } else {
      var v := ItemStored(fields', p, i, f, items[0], have, more + tail);
      var next := p.(m := p.m[f.slot := Array(have + [v])], rest := more + tail);
      UnpackedOverflows(fields', next, i, f, items[1..], have + [v], tail);
      AdvancesLoop(fields', p, next);
    }
  }

  lemma ArrayOverflows(
      fields': seq<Field>, p: Progress, i: nat, f: Field, have: seq<Value>, items: seq<Value>, tail: Bytes)
    requires WellFormed(fields') && i < |fields'| && FieldOk(f) && Narrower(fields'[i], f) && f.htype.Repeated?
    requires SlotFits(f, Array(items)) && |have| <= f.arraySize < |have| + |items|
    requires EncodeArray(f, items).Some? && ShortSlot(f, Array(items))
    requires p.rest == EncodeArray(f, items).value + tail
    requires f.slot in p.m && p.m[f.slot] == Array(have)
    ensures Loop(fields', p).None?
  {
    if Packable(f.ltype) {
      var payload := EncodePacked(f, items).value;
      PackedOverflows(f, have, items);
      DelimitedParses(payload, tail);
      FindDistinct(fields', i);
      FieldFails(fields', p, i, WT_STRING, Delimited(payload), tail);
    } else {
      UnpackedOverflows(fields', p, i, f, items, have, tail);
    }
  }

  /** A submessage fails when one of its fields does. */
  lemma {:induction false} SingleFails(
      fields': seq<Field>, p: Progress, i: nat, f: Field, slot: Slot, tail: Bytes)
    requires WellFormed(fields') && i < |fields'| && FieldOk(f) && Narrower(fields'[i], f)
    requires !f.htype.Repeated? && SlotFits(f, slot)
    requires EncodeSlot(f, slot).Some? && ShortSlot(f, slot) && p.rest == EncodeSlot(f, slot).value + tail
    requires f.slot in p.m && ShapedSlot(fields'[i], p.m[f.slot], slot) && !RoomSlot(fields'[i], p.m[f.slot], slot)
    ensures Loop(fields', p).None?
    decreases f, 0
  {
    var f', val := fields'[i], EncodeValue(f, slot.v).value;
    var base := OldValue(f', p.m);
    var bs := EncodeFields(f.sub, slot.v.slots).value;
    MessageFails(f'.sub, f.sub, base.slots, slot.v.slots);
    DelimitedParses(bs, tail);
    assert DecodeValue(f', base, val + tail).None?;
    FindDistinct(fields', i);
    FieldFails(fields', p, i, WireType(f.ltype), val, tail);
  }

  lemma {:induction false} ChunkFails(
      fields': seq<Field>, fields: seq<Field>, base: Message, m: Message, k: nat, p: Progress, tail: Bytes)
    requires WellFormed(fields) && WellFormed(fields') && NarrowerAll(fields', fields)
    requires Fits(fields, m) && k < |fields| && Shaped(fields', base, m) && !RoomFor(fields', fields[k], base, m)
    requires EncodeSlot(fields[k], m[fields[k].slot]).Some? && ShortSlot(fields[k], m[fields[k].slot])
    requires p.rest == EncodeSlot(fields[k], m[fields[k].slot]).value + tail
    requires Consistent(fields', base, m, Tags(fields[..k]), p)
    ensures Loop(fields', p).None?
    decreases fields, 0
  {
    var f := fields[k];
    assert FieldOk(f);
    TagsSnoc(fields, k);
    var i := Find(fields', f.tag).value;
    FindDistinct(fields, k);
    assert Narrower(fields'[i], f);
    assert ShapedSlot(fields'[i], base[f.slot], m[f.slot]);
    BaseKept(fields', base, m, Tags(fields[..k]), p.m, i);
    if f.htype.Repeated? {
      ArrayOverflows(fields', p, i, f, base[f.slot].items, m[f.slot].items, tail);
    } else {
      SingleFails(fields', p, i, f, m[f.slot], tail);
    }
  }

  lemma {:induction false} ChunksFail(
      fields': seq<Field>, fields: seq<Field>, base: Message, m: Message, k: nat, j: nat, p: Progress)
    requires WellFormed(fields) && WellFormed(fields') && NarrowerAll(fields', fields)
    requires Fits(fields, m) && k <= j < |fields| && Shaped(fields', base, m) && !RoomFor(fields', fields[j], base, m)
    requires EncodeFields(fields[k..], m).Some? && ShortFields(fields, m)
    requires p.rest == EncodeFields(fields[k..], m).value
    requires Consistent(fields', base, m, Tags(fields[..k]), p)
    ensures Loop(fields', p).None?
    decreases fields, 1, |fields| - k
  {
    assert fields[k..][1..] == fields[k + 1..];
    var more := EncodeFields(fields[k + 1..], m).value;
    if RoomFor(fields', fields[k], base, m) {
      var next := ChunkAbsorbed(fields', fields, base, m, k, p, more);
      ChunksFail(fields', fields, base, m, k + 1, j, next);
      AdvancesLoop(fields', p, next);
    } else {
      ChunkFails(fields', fields, base, m, k, p, more);
    }
  }

  /** A message fails to decode onto a struct that has no room for it. */
  lemma {:induction false} MessageFails(fields': seq<Field>, fields: seq<Field>, base: Message, m: Message)
    requires WellFormed(fields) && WellFormed(fields') && NarrowerAll(fields', fields)
    requires Fits(fields, m) && Shaped(fields', base, m) && !Room(fields', base, m)
    requires EncodeFields(fields, m).Some? && ShortFields(fields, m)
    ensures Loop(fields', Progress(base, {}, EncodeFields(fields, m).value)).None?
    decreases fields, 2
  {
    var i :| 0 <= i < |fields'| && !RoomSlot(fields'[i], base[fields'[i].slot], m[fields'[i].slot]);
    var j := Find(fields, fields'[i].tag).value;
    FindDistinct(fields', i);
    assert fields[0..] == fields;
    ChunksFail(fields', fields, base, m, 0, j, Progress(base, {}, EncodeFields(fields, m).value));
  }
  /**
   Decoding a message onto a struct succeeds exactly if its arrays have room, and then merges the message into it,
   field by field.
   */
  lemma {:induction false} RoomDecides(fields': seq<Field>, fields: seq<Field>, base: Message, m: Message)
    requires WellFormed(fields) && WellFormed(fields') && NarrowerAll(fields', fields)
    requires Fits(fields, m) && Shaped(fields', base, m) && ShortFields(fields, m)
    ensures EncodeFields(fields, m).Some?
    ensures var r := DecodeMessage(fields', base, EncodeFields(fields, m).value);
            && (r.Some? <==> Room(fields', base, m))
            && (r.Some? ==> r.value.1 == [] && MergedMessage(fields', base, m, r.value.0))
  {
    FieldsEncode(fields, m);
    if Room(fields', base, m) {
      MessageMerged(fields', fields, base, m);
    } else {
      MessageFails(fields', fields, base, m);
    }
  }
}
