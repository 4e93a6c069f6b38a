/**
 Message descriptors (`pb_field_t`) and the structs they describe, as values.

 A struct is a map from storage places to contents. A place stands for the offset of a struct member:
 the members of one `oneof` share a place, all other fields have their own. What C leaves unspecified is
 not represented: array entries past the count, and a union while its `which_` tag is 0.
 */
module Schema {
  import opened Basics

  datatype LType = Varint | UVarint | SVarint | Fixed32 | Fixed64
                 | Bytes | String | Submessage | FixedLengthBytes

  // Optional(false) is the proto3 style: no has_ flag, written when its value is not zero.
  datatype HType = Required | Optional(hasFlag: bool) | Repeated | OneOf

  datatype Value = Num(n: int) | Blob(b: seq<byte>) | Struct(slots: map<nat, Slot>)

  datatype Slot =
    | Plain(v: Value)                 // required, or proto3 singular
    | Flagged(has: bool, v: Value)    // optional with has_ flag
    | Array(items: seq<Value>)        // items beyond _count are not represented
    | Union(which: nat, v: Value)     // which_ tag and the union's contents

  datatype Field = Field(
    tag: nat, ltype: LType, htype: HType, slot: nat,
    dataSize: nat, arraySize: nat, sub: seq<Field>, dflt: Option<Value>)

  type Message = map<nat, Slot>

  predicate Packable(l: LType) {
    l.Varint? || l.UVarint? || l.SVarint? || l.Fixed32? || l.Fixed64?
  }

  predicate IntegerSize(n: nat) { n == 1 || n == 2 || n == 4 || n == 8 }

  /** Number of values of an integer of `size` bytes. */
  function Range(size: nat): nat
    requires IntegerSize(size)
  {
    match size
    case 1 => 0x100
    case 2 => 0x1_0000
    case 4 => TWO_TO_32
    case 8 => TWO_TO_64
  }

  predicate FitsSigned(n: int, size: nat)
    requires IntegerSize(size)
  {
    -(Range(size) / 2) <= n < Range(size) / 2
  }

  predicate FitsUnsigned(n: int, size: nat)
    requires IntegerSize(size)
  {
    0 <= n < Range(size)
  }

  // offsetof(pb_bytes_array_t, bytes), with the 32-bit pb_size_t of this build
  const BYTES_HEADER: nat := 4

  /** The descriptor entry with this tag, as an index. */
  function Find(fields: seq<Field>, tag: nat): (r: Option<nat>)
    ensures r.Some? ==> r.value < |fields| && fields[r.value].tag == tag
    ensures r.Some? ==> forall j :: 0 <= j < r.value ==> fields[j].tag != tag
    ensures r.None? ==> forall j :: 0 <= j < |fields| ==> fields[j].tag != tag
  {
    if fields == [] then None
    else if fields[0].tag == tag then Some(0)
    else
      match Find(fields[1..], tag)
      case None => None
      case Some(i) => Some(i + 1)
  }

  // ---------- defaults ----------

  function ZeroValue(f: Field): Value {
    match f.ltype
    case Bytes => Blob([])
    case String => Blob([])
    case FixedLengthBytes => Blob(seq(f.dataSize, _ => 0))
    case Submessage => Struct(map[])
    case _ => Num(0)
  }

  function DefaultValue(f: Field): Value
    decreases f, 0
  {
    if f.ltype.Submessage? then Struct(Defaults(f.sub))
    else if f.dflt.Some? then f.dflt.value
    else ZeroValue(f)
  }

  const EMPTY_UNION := Union(0, Num(0))

  function DefaultSlot(f: Field): Slot
    decreases f, 1
  {
    match f.htype
    case Required => Plain(DefaultValue(f))
    case Optional(flag) => if flag then Flagged(false, DefaultValue(f)) else Plain(DefaultValue(f))
    case Repeated => Array([])
    case OneOf => EMPTY_UNION
  }

  /** What `pb_message_set_to_defaults` leaves in the struct. */
  function Defaults(fields: seq<Field>): Message
    decreases fields
  {
    if fields == [] then map[]
    else
      Defaults(fields[..|fields| - 1])[fields[|fields| - 1].slot := DefaultSlot(fields[|fields| - 1])]
  }

  // ---------- descriptors the generator can produce ----------

  // The code counts required fields in a 64-bit mask and shifts by 32 - count % 32.
  const MAX_REQUIRED_FIELDS: nat := 64

  function RequiredCount(fields: seq<Field>): nat {
    if fields == [] then 0
    else RequiredCount(fields[..|fields| - 1]) + if fields[|fields| - 1].htype.Required? then 1 else 0
  }

  predicate RequiredCountOk(fields: seq<Field>) {
    var n := RequiredCount(fields);
    n < MAX_REQUIRED_FIELDS && (n == 0 || n % 32 != 0)
  }

  predicate DistinctTags(fields: seq<Field>) {
    forall i, j :: 0 <= i < j < |fields| ==> fields[i].tag != fields[j].tag
  }

  predicate SlotsShared(fields: seq<Field>) {
    forall i, j :: 0 <= i < j < |fields| && fields[i].slot == fields[j].slot ==>
      fields[i].htype.OneOf? && fields[j].htype.OneOf?
  }

  predicate FieldOk(f: Field)
    decreases f, 0
  {
    && 0 < f.tag < 0x2000_0000
    && f.dataSize < TWO_TO_32
    && (match f.ltype
        case Varint => IntegerSize(f.dataSize)
        case UVarint => IntegerSize(f.dataSize)
        case SVarint => IntegerSize(f.dataSize)
        case Fixed32 => f.dataSize == 4
        case Fixed64 => f.dataSize == 8
        case Submessage => WellFormed(f.sub)
        case _ => true)
    && (f.htype == Optional(false) ==> f.dflt.None? && !f.ltype.Submessage?)
  }

  predicate WellFormed(fields: seq<Field>)
    decreases fields
  {
    && DistinctTags(fields)
    && SlotsShared(fields)
    && RequiredCountOk(fields)
    && forall i :: 0 <= i < |fields| ==> FieldOk(fields[i])
  }

  // ---------- structs of the C type the descriptor describes ----------

  predicate ValueTyped(f: Field, v: Value)
    decreases f, 0
  {
    match f.ltype
    case Varint => v.Num? && (IntegerSize(f.dataSize) ==> FitsSigned(v.n, f.dataSize))
    case SVarint => v.Num? && (IntegerSize(f.dataSize) ==> FitsSigned(v.n, f.dataSize))
    case UVarint => v.Num? && (IntegerSize(f.dataSize) ==> FitsUnsigned(v.n, f.dataSize))
    case Fixed32 => v.Num? && FitsUnsigned(v.n, 4)
    case Fixed64 => v.Num? && FitsUnsigned(v.n, 8)
    case Bytes => v.Blob?
    case String => v.Blob?
    case FixedLengthBytes => v.Blob? && |v.b| == f.dataSize
    case Submessage => v.Struct? && MessageTyped(f.sub, v.slots)
  }

  predicate SlotTyped(f: Field, s: Slot)
    decreases f, 1
  {
    match f.htype
    case Required => s.Plain? && ValueTyped(f, s.v)
    case Optional(flag) => if flag then s.Flagged? && ValueTyped(f, s.v) else s.Plain? && ValueTyped(f, s.v)
    case Repeated => s.Array? && forall i :: 0 <= i < |s.items| ==> ValueTyped(f, s.items[i])
    case OneOf => s.Union? && (s.which == f.tag ==> ValueTyped(f, s.v))
  }

  predicate MessageTyped(fields: seq<Field>, m: Message)
    decreases fields
  {
    forall i :: 0 <= i < |fields| ==> fields[i].slot in m && SlotTyped(fields[i], m[fields[i].slot])
  }

  // ---------- structs whose contents fit their buffers ----------

  predicate ValueFits(f: Field, v: Value)
    decreases f, 0
  {
    match f.ltype
    case Varint => v.Num? && IntegerSize(f.dataSize) && FitsSigned(v.n, f.dataSize)
    case SVarint => v.Num? && IntegerSize(f.dataSize) && FitsSigned(v.n, f.dataSize)
    case UVarint => v.Num? && IntegerSize(f.dataSize) && FitsUnsigned(v.n, f.dataSize)
    case Fixed32 => v.Num? && FitsUnsigned(v.n, 4)
    case Fixed64 => v.Num? && FitsUnsigned(v.n, 8)
    case Bytes => v.Blob? && |v.b| + BYTES_HEADER <= f.dataSize
    case String => v.Blob? && |v.b| < f.dataSize && 0 !in v.b    // NUL-terminated within its buffer
    case FixedLengthBytes => v.Blob? && |v.b| == f.dataSize
    case Submessage => v.Struct? && Fits(f.sub, v.slots)
  }

  predicate SlotFits(f: Field, s: Slot)
    decreases f, 1
  {
    match f.htype
    case Required => s.Plain? && ValueFits(f, s.v)
    case Optional(flag) =>
      if flag then s.Flagged? && (s.has ==> ValueFits(f, s.v)) else s.Plain? && ValueFits(f, s.v)
    case Repeated =>
      s.Array? && |s.items| <= f.arraySize && forall i :: 0 <= i < |s.items| ==> ValueFits(f, s.items[i])
    case OneOf => s.Union? && (s.which == f.tag ==> ValueFits(f, s.v))
  }

  predicate Fits(fields: seq<Field>, m: Message)
    decreases fields
  {
    forall i :: 0 <= i < |fields| ==> fields[i].slot in m && SlotFits(fields[i], m[fields[i].slot])
  }

  // ---------- equality up to what C leaves unspecified ----------

  predicate SameValue(f: Field, a: Value, b: Value)
    decreases f, 0
  {
    if f.ltype.Submessage? then a.Struct? && b.Struct? && SameMessage(f.sub, a.slots, b.slots) else a == b
  }

  /** Equal as far as the struct means something: the value of an absent optional does not. */
  predicate SameSlot(f: Field, a: Slot, b: Slot)
    decreases f, 1
  {
    match f.htype
    case Required => a.Plain? && b.Plain? && SameValue(f, a.v, b.v)
    case Optional(flag) =>
      if flag then a.Flagged? && b.Flagged? && a.has == b.has && (a.has ==> SameValue(f, a.v, b.v))
      else a.Plain? && b.Plain? && SameValue(f, a.v, b.v)
    case Repeated =>
      && a.Array? && b.Array? && |a.items| == |b.items|
      && forall i :: 0 <= i < |a.items| ==> SameValue(f, a.items[i], b.items[i])
    case OneOf =>
      && a.Union? && b.Union? && (a.which == f.tag <==> b.which == f.tag)
      && (a.which == f.tag ==> SameValue(f, a.v, b.v))
  }

  /** `a` and `b` hold the same content in every field of the descriptor. */
  predicate SameMessage(fields: seq<Field>, a: Message, b: Message)
    decreases fields
  {
    forall i :: 0 <= i < |fields| ==>
      && fields[i].slot in a && fields[i].slot in b
      && SameSlot(fields[i], a[fields[i].slot], b[fields[i].slot])
  }

  // ---------- schema evolution: some fields removed, at any depth ----------

  predicate Narrower(f': Field, f: Field)
    decreases f'
  {
    if f.ltype.Submessage? then f' == f.(sub := f'.sub) && NarrowerAll(f'.sub, f.sub) else f' == f
  }

  predicate NarrowerAll(fields': seq<Field>, fields: seq<Field>)
    decreases fields'
  {
    forall i :: 0 <= i < |fields'| ==>
      var j := Find(fields, fields'[i].tag);
      j.Some? && Narrower(fields'[i], fields[j.value])
  }

  lemma FindDistinct(fields: seq<Field>, i: nat)
    requires DistinctTags(fields) && i < |fields|
    ensures Find(fields, fields[i].tag) == Some(i)
  {
    var j := Find(fields, fields[i].tag);
    assert j.value <= i;
  }

  lemma {:induction false} NarrowerReflexive(fields: seq<Field>)
    requires WellFormed(fields)
    ensures NarrowerAll(fields, fields)
    decreases fields
  {
    forall i | 0 <= i < |fields|
      ensures Find(fields, fields[i].tag) == Some(i) && Narrower(fields[i], fields[i])
    {
      FindDistinct(fields, i);
      assert FieldOk(fields[i]);
      if fields[i].ltype.Submessage? {
        NarrowerReflexive(fields[i].sub);
      }
    }
  }

  // ---------- the default struct ----------

  /** The last descriptor entry of a place decides; entries sharing a place agree. */
  lemma {:induction false} DefaultsAt(fields: seq<Field>, i: nat)
    requires SlotsShared(fields) && i < |fields|
    ensures fields[i].slot in Defaults(fields) && Defaults(fields)[fields[i].slot] == DefaultSlot(fields[i])
  {
    var n := |fields| - 1;
    if i < n {
      DefaultsAt(fields[..n], i);
    }
  }

  lemma {:induction false} DefaultsKeys(fields: seq<Field>, s: nat)
    ensures s in Defaults(fields) <==> exists i :: 0 <= i < |fields| && fields[i].slot == s
  {
    if fields != [] {
      var n := |fields| - 1;
      DefaultsKeys(fields[..n], s);
      if s in Defaults(fields[..n]) {
        var i :| 0 <= i < n && fields[..n][i].slot == s;
        assert fields[i].slot == s;
      }
      if i :| 0 <= i < |fields| && fields[i].slot == s {
        if i < n {
          assert fields[..n][i].slot == s;
        }
      }
    }
  }
}
