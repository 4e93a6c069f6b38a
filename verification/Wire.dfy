/**
 The wire format of `pb_encode` and the reader of `pb_decode_noinit`, as functions of bytes.
 They are the specification of the stream methods in PbEncode.dfy and PbDecode.dfy.
 */
module Wire {
  import opened Basics
  import V = Varint
  import opened Schema

  type Bytes = seq<byte>

  // pb_wire_type_t
  const WT_VARINT: nat := 0
  const WT_64BIT: nat := 1
  const WT_STRING: nat := 2
  const WT_32BIT: nat := 5

  function WireType(l: LType): nat {
    match l
    case Varint => WT_VARINT
    case UVarint => WT_VARINT
    case SVarint => WT_VARINT
    case Fixed32 => WT_32BIT
    case Fixed64 => WT_64BIT
    case _ => WT_STRING
  }

  // ================= writing =================

  function Key(tag: nat, wire: nat): Bytes {
    V.Encode(8 * tag + wire)
  }

  function Delimited(payload: Bytes): Bytes {
    V.Encode(|payload|) + payload
  }

  /** A C string: the bytes before the first NUL, at most `max` of them. */
  function CString(b: Bytes, max: nat): (r: Bytes)
    ensures |r| <= max && r <= b && 0 !in r
    ensures |r| == max || |r| == |b| || b[|r|] == 0
  {
    if b == [] || max == 0 || b[0] == 0 then [] else [b[0]] + CString(b[1..], max - 1)
  }

  /** Whether a proto3 singular field is left out (pb_check_proto3_default_value, scalars only). */
  predicate IsZero(f: Field, v: Value) {
    match f.ltype
    case Bytes => v == Blob([])
    case String => v.Blob? && (v.b == [] || v.b[0] == 0)
    case FixedLengthBytes => f.dataSize == 0
    case Submessage => false
    case _ => v == Num(0)
  }

  /** The bytes of one value without its key; None where the encoder reports an error. */
  function EncodeValue(f: Field, v: Value): Option<Bytes>
    decreases f, 0
  {
    match (f.ltype, v)
    case (Varint, Num(n)) =>
      if IntegerSize(f.dataSize) && FitsSigned(n, f.dataSize)
      then Some(V.Encode(V.ToUnsigned(n, TWO_TO_64))) else None
    case (UVarint, Num(n)) =>
      if IntegerSize(f.dataSize) && FitsUnsigned(n, f.dataSize) then Some(V.Encode(n)) else None
    case (SVarint, Num(n)) =>
      if IntegerSize(f.dataSize) && FitsSigned(n, f.dataSize) then Some(V.Encode(V.ZigZag(n))) else None
    case (Fixed32, Num(n)) => if FitsUnsigned(n, 4) then Some(V.LittleEndian(n, 4)) else None
    case (Fixed64, Num(n)) => if FitsUnsigned(n, 8) then Some(V.LittleEndian(n, 8)) else None
    case (Bytes, Blob(b)) => if |b| + BYTES_HEADER > f.dataSize then None else Some(Delimited(b))
    case (String, Blob(b)) => Some(Delimited(CString(b, f.dataSize)))
    case (FixedLengthBytes, Blob(b)) => if |b| == f.dataSize then Some(Delimited(b)) else None
    case (Submessage, Struct(slots)) =>
      (match EncodeFields(f.sub, slots)
       case None => None
       case Some(bs) => Some(Delimited(bs)))
    case _ => None    // a value of another C type: not expressible in the source
  }

  function EncodeKeyed(f: Field, v: Value): Option<Bytes>
    decreases f, 1
  {
    match EncodeValue(f, v)
    case None => None
    case Some(bs) => Some(Key(f.tag, WireType(f.ltype)) + bs)
  }

  /** Values back to back: the payload of a packed array. */
  function EncodePacked(f: Field, items: seq<Value>): Option<Bytes>
    decreases f, 1, |items|
  {
    if items == [] then Some([])
    else
      match (EncodeValue(f, items[0]), EncodePacked(f, items[1..]))
      case (Some(a), Some(b)) => Some(a + b)
      case _ => None
  }

  /** Every value behind its own key. */
  function EncodeUnpacked(f: Field, items: seq<Value>): Option<Bytes>
    decreases f, 2, |items|
  {
    if items == [] then Some([])
    else
      match (EncodeKeyed(f, items[0]), EncodeUnpacked(f, items[1..]))
      case (Some(a), Some(b)) => Some(a + b)
      case _ => None
  }

  function EncodeArray(f: Field, items: seq<Value>): Option<Bytes>
    decreases f, 3
  {
    if items == [] then Some([])
    else if |items| > f.arraySize then None
    else if Packable(f.ltype) then
      match EncodePacked(f, items)
      case None => None
      case Some(bs) => Some(Key(f.tag, WT_STRING) + Delimited(bs))
    else EncodeUnpacked(f, items)
  }

  function EncodeSlot(f: Field, s: Slot): Option<Bytes>
    decreases f, 4
  {
    match (f.htype, s)
    case (Required, Plain(v)) => EncodeKeyed(f, v)
    case (Optional(true), Flagged(has, v)) => if has then EncodeKeyed(f, v) else Some([])
    case (Optional(false), Plain(v)) => if IsZero(f, v) then Some([]) else EncodeKeyed(f, v)
    case (Repeated, Array(items)) => EncodeArray(f, items)
    case (OneOf, Union(which, v)) => if which == f.tag then EncodeKeyed(f, v) else Some([])
    case _ => None    // a member of another C type: not expressible in the source
  }

  /** The whole message: its fields in descriptor order. */
  function EncodeFields(fields: seq<Field>, m: Message): Option<Bytes>
    decreases fields, 0
  {
    if fields == [] then Some([])
    else if fields[0].slot !in m then None
    else
      match (EncodeSlot(fields[0], m[fields[0].slot]), EncodeFields(fields[1..], m))
      case (Some(a), Some(b)) => Some(a + b)
      case _ => None
  }

  // ================= reading =================

  function TakeBytes(bs: Bytes, n: nat): (r: Option<(Bytes, Bytes)>)
    ensures r.Some? <==> n <= |bs|
    ensures r.Some? ==> |r.value.0| == n && |r.value.1| == |bs| - n
  {
    if n <= |bs| then Some((bs[..n], bs[n..])) else None
  }

  /** A length and that many bytes. */
  function ReadDelimited(bs: Bytes): (r: Option<(Bytes, Bytes)>)
    ensures r.Some? ==> |r.value.0| + |r.value.1| < |bs|
  {
    match V.Parse32(bs)
    case None => None
    case Some((n, rest)) => TakeBytes(rest, n)
  }

  datatype Tagged = Eof(rest: Bytes) | Malformed | Tag(tag: nat, wire: nat, rest: Bytes)

  /**
   The key of the next field. A zero key ends the message, and so does a key whose varint fails
   once no byte is left: `pb_decode_tag` looks only at `bytes_left`.
   */
  function ReadTag(bs: Bytes): (r: Tagged)
    ensures r.Tag? ==> |r.rest| < |bs|
  {
    match V.Parse32(bs)
    case None => if |bs| <= V.GROUPS_32 then Eof([]) else Malformed
    case Some((v, rest)) => if v == 0 then Eof(rest) else Tag(v / 8, v % 8, rest)
  }

  function SkipVarint(bs: Bytes): (r: Option<Bytes>)
    ensures r.Some? ==> |r.value| < |bs|
  {
    if bs == [] then None
    else if bs[0] < 0x80 then Some(bs[1..])
    else SkipVarint(bs[1..])
  }

  function SkipField(wire: nat, bs: Bytes): (r: Option<Bytes>)
    ensures r.Some? ==> |r.value| <= |bs|
  {
    if wire == WT_VARINT then SkipVarint(bs)
    else if wire == WT_64BIT then (if 8 <= |bs| then Some(bs[8..]) else None)
    else if wire == WT_STRING then
      match ReadDelimited(bs)
      case None => None
      case Some((_, rest)) => Some(rest)
    else if wire == WT_32BIT then (if 4 <= |bs| then Some(bs[4..]) else None)
    else None
  }

  function CheckedSigned(s: int, size: nat, rest: Bytes): Option<(Value, Bytes)> {
    if IntegerSize(size) && FitsSigned(s, size) then Some((Num(s), rest)) else None
  }

  /** One value that is not a submessage. */
  function DecodeScalar(f: Field, bs: Bytes): (r: Option<(Value, Bytes)>)
    requires !f.ltype.Submessage?
    ensures r.Some? ==> |r.value.1| < |bs|
  {
    match f.ltype
    case Varint =>
      (match V.Parse64(bs)
       case None => None
       case Some((u, rest)) =>
         // fields of 32 bits and less are cut to int32_t first
         var s := if f.dataSize == 8 then V.ToSigned(u, TWO_TO_64) else V.ToSigned(u % TWO_TO_32, TWO_TO_32);
         CheckedSigned(s, f.dataSize, rest))
    case UVarint =>
      (match V.Parse64(bs)
       case None => None
       case Some((u, rest)) =>
         if IntegerSize(f.dataSize) && FitsUnsigned(u, f.dataSize) then Some((Num(u), rest)) else None)
    case SVarint =>
      (match V.Parse64(bs)
       case None => None
       case Some((u, rest)) => CheckedSigned(V.UnZigZag(u), f.dataSize, rest))
    case Fixed32 =>
      if 4 <= |bs| then Some((Num(V.FromLittleEndian(bs[..4])), bs[4..])) else None
    case Fixed64 =>
      if 8 <= |bs| then Some((Num(V.FromLittleEndian(bs[..8])), bs[8..])) else None
    case Bytes =>
      (match ReadDelimited(bs)
       case None => None
       case Some((b, rest)) => if |b| + BYTES_HEADER > f.dataSize then None else Some((Blob(b), rest)))
    case String =>
      (match ReadDelimited(bs)
       case None => None
       // size + 1 is a 32-bit sum: it wraps to 0 for the largest size, which is then refused too
       case Some((b, rest)) =>
         if |b| + 1 >= TWO_TO_32 || |b| + 1 > f.dataSize then None else Some((Blob(b), rest)))
    case FixedLengthBytes =>
      (match ReadDelimited(bs)
       case None => None
       case Some((b, rest)) =>
         if b == [] then Some((ZeroValue(f), rest))
         else if |b| != f.dataSize then None else Some((Blob(b), rest)))
  }

  /** Values off a packed payload, appended to the array while it has room. */
  function DecodePacked(f: Field, items: seq<Value>, payload: Bytes): Option<seq<Value>>
    requires !f.ltype.Submessage?
    decreases |payload|
  {
    if payload == [] then Some(items)
    else if |items| >= f.arraySize then None
    else
      match DecodeScalar(f, payload)
      case None => None
      case Some((v, rest)) => DecodePacked(f, items + [v], rest)
  }

  /** The value a singular field holds before it is decoded again. */
  function OldValue(f: Field, m: Message): Value {
    if f.slot in m && m[f.slot].Plain? then m[f.slot].v
    else if f.slot in m && m[f.slot].Flagged? then m[f.slot].v
    else DefaultValue(f)
  }

  function OldItems(f: Field, m: Message): seq<Value> {
    if f.slot in m && m[f.slot].Array? then m[f.slot].items else []
  }

  /** A submessage is merged into `base`; any other value replaces it. */
  function DecodeValue(f: Field, base: Value, bs: Bytes): (r: Option<(Value, Bytes)>)
    ensures r.Some? ==> |r.value.1| < |bs|
    decreases |bs|, 1
  {
    if f.ltype.Submessage? then
      match ReadDelimited(bs)
      case None => None
      case Some((payload, rest)) =>
        (match DecodeMessage(f.sub, if base.Struct? then base.slots else map[], payload)
         case None => None
         case Some((slots, _)) => Some((Struct(slots), rest)))
    else DecodeScalar(f, bs)
  }

  function DecodeField(f: Field, wire: nat, m: Message, bs: Bytes): (r: Option<(Message, Bytes)>)
    ensures r.Some? ==> |r.value.1| < |bs|
    decreases |bs|, 2
  {
    match f.htype
    case Required =>
      (match DecodeValue(f, OldValue(f, m), bs)
       case None => None
       case Some((v, rest)) => Some((m[f.slot := Plain(v)], rest)))
    case Optional(flag) =>
      (match DecodeValue(f, OldValue(f, m), bs)
       case None => None
       case Some((v, rest)) => Some((m[f.slot := if flag then Flagged(true, v) else Plain(v)], rest)))
    case Repeated =>
      var items := OldItems(f, m);
      if wire == WT_STRING && Packable(f.ltype) then
        match ReadDelimited(bs)
        case None => None
        case Some((payload, rest)) =>
          (match DecodePacked(f, items, payload)
           case None => None
           case Some(all) => Some((m[f.slot := Array(all)], rest)))
      else if |items| >= f.arraySize then None
      else
        // new array entries start from the defaults
        (match DecodeValue(f, DefaultValue(f), bs)
         case None => None
         case Some((v, rest)) => Some((m[f.slot := Array(items + [v])], rest)))
    case OneOf =>
      // the union is reset even when it already holds this member
      (match DecodeValue(f, DefaultValue(f), bs)
       case None => None
       case Some((v, rest)) => Some((m[f.slot := Union(f.tag, v)], rest)))
  }

  datatype Progress = Progress(m: Message, seen: set<nat>, rest: Bytes)

  /** One round of the decoder's loop: None on error, and the flag tells whether the loop goes on. */
  function Step(fields: seq<Field>, p: Progress): (r: Option<(Progress, bool)>)
    requires p.rest != []
    ensures r.Some? && r.value.1 ==> |r.value.0.rest| < |p.rest|
    decreases |p.rest|, 3
  {
    match ReadTag(p.rest)
    case Eof(rest) => Some((p.(rest := rest), false))
    case Malformed => None
    case Tag(tag, wire, rest) =>
      // tag 0 matches the terminator of an empty descriptor, whose data size no decoder accepts
      if tag == 0 && fields == [] then None
      else
        match Find(fields, tag)
        case None =>
          (match SkipField(wire, rest)
           case None => None
           case Some(rest') => Some((p.(rest := rest'), true)))
        case Some(i) =>
          (match DecodeField(fields[i], wire, p.m, rest)
           case None => None
           case Some((m', rest')) =>
             Some((Progress(m', if fields[i].htype.Required? then p.seen + {i} else p.seen, rest'), true)))
  }

  /** The loop of `pb_decode_noinit`: a fold of Step over the bytes. */
  function Loop(fields: seq<Field>, p: Progress): Option<Progress>
    decreases |p.rest|, 4
  {
    if p.rest == [] then Some(p)
    else
      match Step(fields, p)
      case None => None
      case Some((p', more)) => if more then Loop(fields, p') else Some(p')
  }

  /** The bytes are used up exactly between two fields: no zero key and no cut-off key ended the loop. */
  predicate Clean(fields: seq<Field>, p: Progress)
    decreases |p.rest|
  {
    p.rest == [] ||
    match Step(fields, p)
    case None => false
    case Some((p', more)) => more && Clean(fields, p')
  }

  predicate AllRequiredSeen(fields: seq<Field>, seen: set<nat>) {
    forall i :: 0 <= i < |fields| && fields[i].htype.Required? ==> i in seen
  }

  /** `pb_decode_noinit`: merge the bytes into the struct, then insist on the required fields. */
  function DecodeMessage(fields: seq<Field>, m: Message, bs: Bytes): Option<(Message, Bytes)>
    decreases |bs|, 5
  {
    match Loop(fields, Progress(m, {}, bs))
    case None => None
    case Some(p) => if AllRequiredSeen(fields, p.seen) then Some((p.m, p.rest)) else None
  }

  /** `pb_decode`: the same on a struct of defaults. */
  function Decode(fields: seq<Field>, bs: Bytes): Option<(Message, Bytes)> {
    DecodeMessage(fields, Defaults(fields), bs)
  }
}
