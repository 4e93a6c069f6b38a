/**
 What it means that one struct is merged into another, field by field: the last singular value wins, submessages
 are merged, array entries are appended, and a union takes the member that comes last.
 */
module Merged {
  import opened Basics
  import opened Schema
  import opened Wire

  /** Whether the writer puts this field on the wire. */
  predicate Written(f: Field, s: Slot) {
    match (f.htype, s)
    case (Required, _) => true
    case (Optional(true), Flagged(has, _)) => has
    case (Optional(false), Plain(v)) => !IsZero(f, v)
    case (Repeated, Array(items)) => items != []
    case (OneOf, Union(which, _)) => which == f.tag
    case _ => false
  }

  // ---------- lengths ----------

  // Every length on the wire is read back as a 32-bit number. Keys and scalars add up to any total.

  predicate Short(payload: Option<Bytes>) {
    payload.Some? ==> |payload.value| < TWO_TO_32
  }

  predicate ShortValue(f: Field, v: Value)
    decreases f, 0
  {
    match (f.ltype, v)
    case (Bytes, Blob(b)) => |b| < TWO_TO_32
    case (String, Blob(b)) => |CString(b, f.dataSize)| < TWO_TO_32
    case (FixedLengthBytes, Blob(b)) => |b| < TWO_TO_32
    case (Submessage, Struct(slots)) => Short(EncodeFields(f.sub, slots)) && ShortFields(f.sub, slots)
    case _ => true
  }

  predicate ShortItems(f: Field, items: seq<Value>)
    decreases f, 1
  {
    forall i :: 0 <= i < |items| ==> ShortValue(f, items[i])
  }

  predicate ShortSlot(f: Field, s: Slot)
    decreases f, 2
  {
    if s.Array? then ShortItems(f, s.items) && (Packable(f.ltype) ==> Short(EncodePacked(f, s.items)))
    else Written(f, s) ==> ShortValue(f, s.v)
  }

  /** No delimited payload of the message, at any depth, is 2^32 bytes or longer. */
  predicate ShortFields(fields: seq<Field>, m: Message)
    decreases fields
  {
    forall i :: 0 <= i < |fields| && fields[i].slot in m ==> ShortSlot(fields[i], m[fields[i].slot])
  }

  lemma {:induction false} ShortEncodedValue(f: Field, v: Value)
    requires Short(EncodeValue(f, v)) && EncodeValue(f, v).Some?
    ensures ShortValue(f, v)
    decreases f, 0
  {
    if f.ltype.Submessage? {
      ShortEncoding(f.sub, v.slots);
    }
  }

  lemma {:induction false} ShortEncodedItems(f: Field, items: seq<Value>)
    requires (EncodePacked(f, items).Some? && Short(EncodePacked(f, items)))
             || (EncodeUnpacked(f, items).Some? && Short(EncodeUnpacked(f, items)))
    ensures ShortItems(f, items)
    decreases f, 1, |items|
  {
    if items != [] {
      ShortEncodedValue(f, items[0]);
      ShortEncodedItems(f, items[1..]);
      assert forall i :: 0 < i < |items| ==> items[i] == items[1..][i - 1];
    }
  }

  lemma {:induction false} ShortEncodedSlot(f: Field, s: Slot)
    requires EncodeSlot(f, s).Some? && Short(EncodeSlot(f, s))
    ensures ShortSlot(f, s)
    decreases f, 2
  {
    if s.Array? {
      if s.items != [] {
        ShortEncodedItems(f, s.items);
      } else {
        assert EncodePacked(f, s.items) == Some([]);
      }
    } else if Written(f, s) {
      ShortEncodedValue(f, s.v);
    }
  }

  /** An encoding below 2^32 bytes has no longer payload inside. */
  lemma {:induction false} ShortEncoding(fields: seq<Field>, m: Message)
    requires EncodeFields(fields, m).Some? && Short(EncodeFields(fields, m))
    ensures ShortFields(fields, m)
    decreases fields
  {
    if fields != [] {
      ShortEncodedSlot(fields[0], m[fields[0].slot]);
      ShortEncoding(fields[1..], m);
      assert forall i :: 0 < i < |fields| ==> fields[i] == fields[1..][i - 1];
    }
  }

  // ---------- merging ----------

  /** `c` is what becomes of `a` when `b` is decoded onto it. */
  predicate MergedValue(f: Field, a: Value, b: Value, c: Value)
    decreases f, 0
  {
    if f.ltype.Submessage? then
      a.Struct? && b.Struct? && c.Struct? && MergedMessage(f.sub, a.slots, b.slots, c.slots)
    else c == b
  }

  /** Entries are appended; new ones start from the defaults. */
  predicate Appended(f: Field, a: seq<Value>, b: seq<Value>, c: seq<Value>) {
    && |c| == |a| + |b| && c[..|a|] == a
    && forall i :: 0 <= i < |b| ==> SameValue(f, b[i], c[|a| + i])
  }

  /** One field, as far as it depends on no other; a union also depends on its other members. */
  predicate MergedSlot(f: Field, a: Slot, b: Slot, c: Slot)
    decreases f, 1
  {
    match f.htype
    case Required => a.Plain? && b.Plain? && c.Plain? && MergedValue(f, a.v, b.v, c.v)
    case Optional(flag) =>
      if flag then
        a.Flagged? && b.Flagged? && if b.has then c.Flagged? && c.has && MergedValue(f, a.v, b.v, c.v) else c == a
      else a.Plain? && b.Plain? && if IsZero(f, b.v) then c == a else c.Plain? && MergedValue(f, a.v, b.v, c.v)
    case Repeated => a.Array? && b.Array? && c.Array? && Appended(f, a.items, b.items, c.items)
    case OneOf =>
      a.Union? && b.Union? && c.Union? && (b.which == f.tag ==> c.which == f.tag && SameValue(f, b.v, c.v))
  }

  /** The descriptor has a member of this tag in this union. */
  predicate HasMember(fields: seq<Field>, slot: nat, tag: nat) {
    exists i :: 0 <= i < |fields| && fields[i].htype.OneOf? && fields[i].slot == slot && fields[i].tag == tag
  }

  predicate MergedMessage(fields: seq<Field>, a: Message, b: Message, c: Message)
    decreases fields
  {
    forall i :: 0 <= i < |fields| ==>
      var s := fields[i].slot;
      && s in a && s in b && s in c && MergedSlot(fields[i], a[s], b[s], c[s])
      && (fields[i].htype.OneOf? ==>
            if HasMember(fields, s, b[s].which) then c[s].which == b[s].which else c[s] == a[s])
  }

  // ---------- where there is room ----------

  predicate ShapedValue(f: Field, a: Value, b: Value)
    decreases f, 0
  {
    f.ltype.Submessage? ==> a.Struct? && b.Struct? && Shaped(f.sub, a.slots, b.slots)
  }

  predicate ShapedSlot(f: Field, a: Slot, b: Slot)
    decreases f, 1
  {
    match f.htype
    case Required => a.Plain? && b.Plain? && ShapedValue(f, a.v, b.v)
    case Optional(flag) =>
      if flag then a.Flagged? && b.Flagged? && (b.has ==> ShapedValue(f, a.v, b.v)) else a.Plain? && b.Plain?
    case Repeated => a.Array? && b.Array? && |a.items| <= f.arraySize
    case OneOf => a.Union? && b.Union?
  }

  /** `a` is a struct of the descriptor, as far as `b` will be decoded onto it. */
  predicate Shaped(fields: seq<Field>, a: Message, b: Message)
    decreases fields
  {
    forall i :: 0 <= i < |fields| ==>
      fields[i].slot in a && fields[i].slot in b && ShapedSlot(fields[i], a[fields[i].slot], b[fields[i].slot])
  }

  predicate RoomValue(f: Field, a: Value, b: Value)
    requires ShapedValue(f, a, b)
    decreases f, 0
  {
    f.ltype.Submessage? ==> Room(f.sub, a.slots, b.slots)
  }

  predicate RoomSlot(f: Field, a: Slot, b: Slot)
    requires ShapedSlot(f, a, b)
    decreases f, 1
  {
    match f.htype
    case Required => RoomValue(f, a.v, b.v)
    case Optional(flag) => flag && b.has ==> RoomValue(f, a.v, b.v)
    case Repeated => |a.items| + |b.items| <= f.arraySize
    case OneOf => true
  }

  /** The arrays of `a` have room for the entries of `b`, at every depth. */
  predicate Room(fields: seq<Field>, a: Message, b: Message)
    requires Shaped(fields, a, b)
    decreases fields
  {
    forall i :: 0 <= i < |fields| ==> RoomSlot(fields[i], a[fields[i].slot], b[fields[i].slot])
  }

  // ---------- merging into the defaults is reading ----------

  lemma {:induction false} RoomInDefaultValue(f: Field, b: Value)
    requires FieldOk(f) && ValueFits(f, b)
    ensures ShapedValue(f, DefaultValue(f), b) && RoomValue(f, DefaultValue(f), b)
    decreases f, 0
  {
    if f.ltype.Submessage? {
      RoomInDefaults(f.sub, b.slots);
    }
  }

  lemma {:induction false} RoomInDefaults(fields: seq<Field>, b: Message)
    requires WellFormed(fields) && Fits(fields, b)
    ensures Shaped(fields, Defaults(fields), b) && Room(fields, Defaults(fields), b)
    decreases fields
  {
    forall i | 0 <= i < |fields|
      ensures var s := fields[i].slot;
              && s in Defaults(fields) && s in b && ShapedSlot(fields[i], Defaults(fields)[s], b[s])
              && RoomSlot(fields[i], Defaults(fields)[s], b[s])
    {
      var f := fields[i];
      DefaultsAt(fields, i);
      assert FieldOk(f) && SlotFits(f, b[f.slot]);
      if f.htype.Required? || f.htype == Optional(false) || (f.htype == Optional(true) && b[f.slot].has) {
        RoomInDefaultValue(f, b[f.slot].v);
      }
    }
  }

  lemma ZeroIsDefault(f: Field, s: Slot)
    requires FieldOk(f) && SlotFits(f, s) && !Written(f, s) && !f.htype.OneOf?
    ensures SameSlot(f, s, DefaultSlot(f))
  {
    if f.htype == Optional(false) {
      match f.ltype {
        case FixedLengthBytes =>
          assert s.v.b == [] && ZeroValue(f).b == [];
        case _ =>
      }
    }
  }

  lemma {:induction false} MergedIntoDefaultValue(f: Field, b: Value, c: Value)
    requires FieldOk(f) && ValueFits(f, b) && MergedValue(f, DefaultValue(f), b, c)
    ensures SameValue(f, b, c)
    decreases f, 0
  {
    if f.ltype.Submessage? {
      MergedIntoDefaults(f.sub, b.slots, c.slots);
    }
  }

  lemma {:induction false} MergedIntoDefaultSlot(f: Field, b: Slot, c: Slot)
    requires FieldOk(f) && SlotFits(f, b) && MergedSlot(f, DefaultSlot(f), b, c) && !f.htype.OneOf?
    ensures SameSlot(f, b, c)
    decreases f, 1
  {
    if !Written(f, b) {
      ZeroIsDefault(f, b);
    } else if !f.htype.Repeated? {
      MergedIntoDefaultValue(f, b.v, c.v);
    }
  }

  lemma {:induction false} MergedIntoDefaults(fields: seq<Field>, b: Message, c: Message)
    requires WellFormed(fields) && Fits(fields, b) && MergedMessage(fields, Defaults(fields), b, c)
    ensures SameMessage(fields, b, c)
    decreases fields
  {
    forall i | 0 <= i < |fields|
      ensures fields[i].slot in b && fields[i].slot in c && SameSlot(fields[i], b[fields[i].slot], c[fields[i].slot])
    {
      var f := fields[i];
      DefaultsAt(fields, i);
      assert FieldOk(f) && SlotFits(f, b[f.slot]) && MergedSlot(f, DefaultSlot(f), b[f.slot], c[f.slot]);
      if !f.htype.OneOf? {
        MergedIntoDefaultSlot(f, b[f.slot], c[f.slot]);
      }
    }
  }
  // ---------- room behind a message that has been read ----------

  predicate RoomBehindValue(f: Field, a: Value, b: Value)
    decreases f, 0
  {
    f.ltype.Submessage? ==> a.Struct? && b.Struct? && RoomBehind(f.sub, a.slots, b.slots)
  }

  predicate RoomBehindSlot(f: Field, a: Slot, b: Slot)
    decreases f, 1
  {
    match f.htype
    case Required => a.Plain? && b.Plain? && RoomBehindValue(f, a.v, b.v)
    case Optional(flag) => flag ==> a.Flagged? && b.Flagged? && (a.has && b.has ==> RoomBehindValue(f, a.v, b.v))
    case Repeated => a.Array? && b.Array? && |a.items| + |b.items| <= f.arraySize
    case OneOf => true
  }

  /** Arrays have room for the entries of `b` behind those of `a`, wherever both messages have them. */
  predicate RoomBehind(fields: seq<Field>, a: Message, b: Message)
    decreases fields
  {
    forall i :: 0 <= i < |fields| ==>
      fields[i].slot in a && fields[i].slot in b && RoomBehindSlot(fields[i], a[fields[i].slot], b[fields[i].slot])
  }

  lemma {:induction false} RoomAfterValue(f: Field, a: Value, c: Value, b: Value)
    requires FieldOk(f) && ValueFits(f, a) && ValueFits(f, b) && MergedValue(f, DefaultValue(f), a, c)
    ensures ShapedValue(f, c, b) && (RoomValue(f, c, b) <==> RoomBehindValue(f, a, b))
    decreases f, 0
  {
    if f.ltype.Submessage? {
      RoomAfter(f.sub, a.slots, c.slots, b.slots);
    }
  }

  lemma {:induction false} RoomAfterSlot(f: Field, a: Slot, c: Slot, b: Slot)
    requires FieldOk(f) && SlotFits(f, a) && SlotFits(f, b) && MergedSlot(f, DefaultSlot(f), a, c)
    ensures ShapedSlot(f, c, b) && (RoomSlot(f, c, b) <==> RoomBehindSlot(f, a, b))
    decreases f, 1
  {
    if f.htype.Required? {
      RoomAfterValue(f, a.v, c.v, b.v);
    } else if f.htype == Optional(true) && b.has {
      if a.has {
        RoomAfterValue(f, a.v, c.v, b.v);
      } else {
        RoomInDefaultValue(f, b.v);
      }
    }
  }

  /** There is room behind `a` exactly if there is room in the struct `a` has been read into. */
  lemma {:induction false} RoomAfter(fields: seq<Field>, a: Message, c: Message, b: Message)
    requires WellFormed(fields) && Fits(fields, a) && Fits(fields, b)
    requires MergedMessage(fields, Defaults(fields), a, c)
    ensures Shaped(fields, c, b) && (Room(fields, c, b) <==> RoomBehind(fields, a, b))
    decreases fields
  {
    forall i | 0 <= i < |fields|
      ensures var f, s := fields[i], fields[i].slot;
              && s in c && s in b && ShapedSlot(f, c[s], b[s])
              && (RoomSlot(f, c[s], b[s]) <==> RoomBehindSlot(f, a[s], b[s]))
    {
      var f, s := fields[i], fields[i].slot;
      DefaultsAt(fields, i);
      assert FieldOk(f) && SlotFits(f, a[s]) && SlotFits(f, b[s]) && MergedSlot(f, DefaultSlot(f), a[s], c[s]);
      RoomAfterSlot(f, a[s], c[s], b[s]);
    }
  }
}
