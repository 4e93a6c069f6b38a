/**
 The stream encoder of pb_encode.c. Each method is proved against the writer functions of Wire.dfy, for sizing
 streams (no callback) and for buffer streams alike: both accept the same structs, a sizing stream counts
 exactly the bytes a buffer stream writes, and a buffer stream accepts exactly what fits.
 */
module PbEncode {
  import opened Basics
  import V = Varint
  import opened Schema
  import opened Wire
  import opened PbCommon

  // ---------- what an encoder does to its stream ----------

  datatype Snapshot = Snapshot(sizing: bool, maxSize: nat, state: nat, written: nat, bytes: Bytes)

  /** Exactly `bs` was written, behind what was there; no other byte of the buffer changed. */
  ghost predicate Appended(v: Snapshot, w: Snapshot, bs: Bytes) {
    && w.sizing == v.sizing && w.maxSize == v.maxSize
    && w.written == v.written + |bs|
    && (if v.sizing then w.state == v.state && w.bytes == v.bytes
        else v.state + |bs| <= |v.bytes| && w.state == v.state + |bs|
             && w.bytes == v.bytes[..v.state] + bs + v.bytes[v.state + |bs|..])
  }

  predicate Room(v: Snapshot, n: nat) {
    v.sizing || v.written + n <= v.maxSize
  }

  /** The call succeeded exactly if there was something to write and room for it, and then wrote it. */
  ghost predicate Took(v: Snapshot, w: Snapshot, ok: bool, e: Option<Bytes>) {
    && (ok <==> e.Some? && Room(v, |e.value|))
    && (ok ==> Appended(v, w, e.value))
  }

  function Cat(a: Option<Bytes>, b: Option<Bytes>): Option<Bytes> {
    if a.Some? && b.Some? then Some(a.value + b.value) else None
  }

  lemma AppendedTwice(v: Snapshot, w: Snapshot, x: Snapshot, a: Bytes, b: Bytes)
    requires Appended(v, w, a) && Appended(w, x, b)
    ensures Appended(v, x, a + b)
  {
    if !v.sizing {
      assert w.bytes[..w.state] == v.bytes[..v.state] + a;
      assert w.bytes[w.state + |b|..] == v.bytes[v.state + |a| + |b|..];
      assert x.bytes == v.bytes[..v.state] + (a + b) + v.bytes[v.state + |a| + |b|..];
    }
  }

  /** Two calls in a row; the second is not made if the first fails. */
  lemma TookTwice(v: Snapshot, w: Snapshot, x: Snapshot, ok: bool, a: Option<Bytes>, b: Option<Bytes>)
    requires Took(v, w, true, a) && Took(w, x, ok, b)
    ensures Took(v, x, ok, Cat(a, b))
  {
    if ok {
      AppendedTwice(v, w, x, a.value, b.value);
    }
  }

  // ---------- the loop of pb_encode_varint ----------

  /** The groups of `v`, all with the top bit set. */
  function Continued(v: nat): (bs: Bytes)
    ensures v > 0 ==> bs != [] && bs[|bs| - 1] >= 0x80
  {
    if v == 0 then [] else [v % 0x80 + 0x80] + Continued(v / 0x80)
  }

  /** Clearing the top bit of the last group gives the canonical encoding. */
  lemma {:induction false} ContinuedEncode(v: nat)
    requires v > 0
    ensures var c := Continued(v); V.Encode(v) == c[..|c| - 1] + [c[|c| - 1] - 0x80]
  {
    if v >= 0x80 {
      ContinuedEncode(v / 0x80);
      var c, d := Continued(v), Continued(v / 0x80);
      assert c == [c[0]] + d;
      assert c[..|c| - 1] == [c[0]] + d[..|d| - 1];
    }
  }

  lemma ContinuedSnoc(done: Bytes, v: nat, value: nat)
    requires v > 0 && done + Continued(v) == Continued(value)
    ensures done + [v % 0x80 + 0x80] + Continued(v / 0x80) == Continued(value)
  {
    assert done + ([v % 0x80 + 0x80] + Continued(v / 0x80)) == done + [v % 0x80 + 0x80] + Continued(v / 0x80);
  }

  /** The local buffer of ten bytes suffices for every uint64_t. */
  lemma {:induction false} TenBytesSuffice(v: nat, groups: nat)
    requires 0 < groups && v < V.Capacity(groups)
    ensures |V.Encode(v)| <= groups
  {
    if v >= 0x80 {
      assert V.Capacity(0) == 1;
      TenBytesSuffice(v / 0x80, groups - 1);
    }
  }

  /** The groups of a value above 0x7F, collected one by one; the last one's top bit is cleared in the end. */
  method VarintGroups(value: nat) returns (buffer: Bytes)
    requires 0x7F < value
    ensures buffer == V.Encode(value)
  {
    buffer := [];
    var v: nat := value;
    assert [] + Continued(v) == Continued(value);
    while v > 0
      invariant buffer + Continued(v) == Continued(value)
      decreases v
    {
      ContinuedSnoc(buffer, v, value);
      buffer := buffer + [v % 0x80 + 0x80];
      v := v / 0x80;
    }
    assert buffer == buffer + Continued(v) == Continued(value);
    ContinuedEncode(value);
    buffer := buffer[..|buffer| - 1] + [buffer[|buffer| - 1] - 0x80];
  }

  class OStream {
    const buffer: array?<byte>    // null for PB_OSTREAM_SIZING
    const maxSize: nat
    var state: nat                // where the next byte goes
    var bytesWritten: nat

    ghost predicate Valid()
      reads this
    {
      buffer != null ==> bytesWritten <= maxSize && state + (maxSize - bytesWritten) <= buffer.Length
    }

    ghost function Repr(): set<object> {
      if buffer == null then {this} else {this, buffer}
    }

    ghost function View(): Snapshot
      reads Repr()
    {
      Snapshot(buffer == null, maxSize, state, bytesWritten, if buffer == null then [] else buffer[..])
    }

    constructor Sizing()
      ensures Valid() && buffer == null && bytesWritten == 0
    {
      buffer := null;
      maxSize, state, bytesWritten := 0, 0, 0;
    }

    /** pb_ostream_from_buffer */
    constructor FromBuffer(buf: array<byte>)
      ensures Valid() && buffer == buf && maxSize == buf.Length && state == 0 && bytesWritten == 0
    {
      buffer := buf;
      state, maxSize, bytesWritten := 0, buf.Length, 0;
    }

    /** A stream over the same buffer, limited to `size` bytes from the parent's position on. */
    constructor Limited(parent: OStream, size: nat)
      requires parent.Valid() && parent.buffer != null && parent.bytesWritten + size <= parent.maxSize
      ensures Valid() && buffer == parent.buffer && state == parent.state && maxSize == size && bytesWritten == 0
    {
      buffer := parent.buffer;
      state, maxSize, bytesWritten := parent.state, size, 0;
    }

    /** pb_write */
    method Write(bs: Bytes) returns (ok: bool)
      requires Valid()
      modifies Repr()
      ensures Valid() && Took(old(View()), View(), ok, Some(bs))
    {
      if buffer != null {
        if bytesWritten + |bs| > maxSize {
          return false;
        }
        ghost var before := buffer[..];
        for i := 0 to |bs|
          modifies buffer
          invariant buffer[..] == before[..state] + bs[..i] + before[state + i..]
        {
          buffer[state + i] := bs[i];
        }
        assert bs[..|bs|] == bs;
        state := state + |bs|;
      }
      bytesWritten := bytesWritten + |bs|;
      ok := true;
    }

    /** `pb_write(stream, NULL, size)` on a sizing stream: any bytes of that number could have been written. */
    method Count(ghost bs: Bytes, size: nat)
      requires Valid() && buffer == null && size == |bs|
      modifies this
      ensures Valid() && Appended(old(View()), View(), bs)
    {
      bytesWritten := bytesWritten + size;
    }

    /** pb_encode_varint */
    method EncodeVarint(value: nat) returns (ok: bool)
      requires Valid()
      modifies Repr()
      ensures Valid() && Took(old(View()), View(), ok, Some(V.Encode(value)))
    {
      if value <= 0x7F {
        ok := Write([value]);
        return;
      }
      var groups := VarintGroups(value);
      ok := Write(groups);
    }

    /** pb_encode_svarint */
    method EncodeSvarint(value: int) returns (ok: bool)
      requires Valid() && FitsSigned(value, 8)
      modifies Repr()
      ensures Valid() && Took(old(View()), View(), ok, Some(V.Encode(V.ZigZag(value))))
    {
      var zigzagged := if value < 0 then TWO_TO_64 - 1 - 2 * (value + TWO_TO_64) % TWO_TO_64 else 2 * value;
      assert value < 0 ==> 2 * (value + TWO_TO_64) == 2 * value + TWO_TO_64 + TWO_TO_64;
      ok := EncodeVarint(zigzagged);
    }

    /** pb_encode_fixed32 and pb_encode_fixed64 */
    method EncodeFixed(value: nat, width: nat) returns (ok: bool)
      requires Valid()
      modifies Repr()
      ensures Valid() && Took(old(View()), View(), ok, Some(V.LittleEndian(value, width)))
    {
      ok := Write(V.LittleEndian(value, width));
    }

    /** pb_encode_tag */
    method EncodeTag(wire: nat, tag: nat) returns (ok: bool)
      requires Valid()
      modifies Repr()
      ensures Valid() && Took(old(View()), View(), ok, Some(Key(tag, wire)))
    {
      ok := EncodeVarint(8 * tag + wire);
    }

    /** pb_encode_string */
    method EncodeString(b: Bytes) returns (ok: bool)
      requires Valid()
      modifies Repr()
      ensures Valid() && Took(old(View()), View(), ok, Some(Delimited(b)))
    {
      ghost var v := View();
      ok := EncodeVarint(|b|);
      if !ok {
        return;
      }
      ghost var w := View();
      ok := Write(b);
      TookTwice(v, w, View(), ok, Some(V.Encode(|b|)), Some(b));
    }
  }

  // ---------- prefixes of what is written ----------

  lemma CatAssoc(a: Option<Bytes>, b: Option<Bytes>, c: Option<Bytes>)
    ensures Cat(Cat(a, b), c) == Cat(a, Cat(b, c))
  {
    if a.Some? && b.Some? && c.Some? {
      assert a.value + b.value + c.value == a.value + (b.value + c.value);
    }
  }

  lemma CatEmpty(a: Option<Bytes>)
    ensures Cat(a, Some([])) == a && Cat(Some([]), a) == a
  {
    if a.Some? {
      assert a.value + [] == a.value && [] + a.value == a.value;
    }
  }

  lemma {:induction false} PackedSplit(f: Field, items: seq<Value>, i: nat)
    requires i <= |items|
    ensures EncodePacked(f, items) == Cat(EncodePacked(f, items[..i]), EncodePacked(f, items[i..]))
    decreases |items|
  {
    if i == 0 {
      assert items[0..] == items;
      CatEmpty(EncodePacked(f, items));
    } else {
      assert items[1..][..i - 1] == items[..i][1..] && items[1..][i - 1..] == items[i..];
      PackedSplit(f, items[1..], i - 1);
      CatAssoc(EncodeValue(f, items[0]), EncodePacked(f, items[..i][1..]), EncodePacked(f, items[i..]));
    }
  }

  lemma {:induction false} UnpackedSplit(f: Field, items: seq<Value>, i: nat)
    requires i <= |items|
    ensures EncodeUnpacked(f, items) == Cat(EncodeUnpacked(f, items[..i]), EncodeUnpacked(f, items[i..]))
    decreases |items|
  {
    if i == 0 {
      assert items[0..] == items;
      CatEmpty(EncodeUnpacked(f, items));
    } else {
      assert items[1..][..i - 1] == items[..i][1..] && items[1..][i - 1..] == items[i..];
      UnpackedSplit(f, items[1..], i - 1);
      CatAssoc(EncodeKeyed(f, items[0]), EncodeUnpacked(f, items[..i][1..]), EncodeUnpacked(f, items[i..]));
    }
  }

  function SlotBytes(f: Field, m: Message): Option<Bytes> {
    if f.slot in m then EncodeSlot(f, m[f.slot]) else None
  }

  lemma {:induction false} FieldsSplit(fields: seq<Field>, m: Message, i: nat)
    requires i <= |fields|
    ensures EncodeFields(fields, m) == Cat(EncodeFields(fields[..i], m), EncodeFields(fields[i..], m))
    decreases |fields|
  {
    if i == 0 {
      assert fields[0..] == fields;
      CatEmpty(EncodeFields(fields, m));
    } else {
      assert fields[1..][..i - 1] == fields[..i][1..] && fields[1..][i - 1..] == fields[i..];
      FieldsSplit(fields[1..], m, i - 1);
      CatAssoc(SlotBytes(fields[0], m), EncodeFields(fields[..i][1..], m), EncodeFields(fields[i..], m));
    }
  }

  lemma TookFails(v: Snapshot, x: Snapshot, a: Option<Bytes>, b: Option<Bytes>)
    requires Took(v, x, false, a)
    ensures Took(v, x, false, Cat(a, b))
  {
  }

  /** After the first `i` of several writes, one more. */
  lemma PrefixTook(v: Snapshot, w: Snapshot, x: Snapshot, ok: bool, done: Option<Bytes>, next: Option<Bytes>,
                   rest: Option<Bytes>, all: Option<Bytes>)
    requires Took(v, w, true, done) && Took(w, x, ok, next)
    requires all == Cat(done, Cat(next, rest))
    ensures Took(v, x, ok, Cat(done, next))
    ensures !ok ==> Took(v, x, false, all)
  {
    TookTwice(v, w, x, ok, done, next);
    CatAssoc(done, next, rest);
    if !ok {
      TookFails(v, x, Cat(done, next), rest);
    }
  }

  lemma PackedSnoc(f: Field, items: seq<Value>, i: nat)
    requires i < |items|
    ensures EncodePacked(f, items[..i + 1]) == Cat(EncodePacked(f, items[..i]), EncodeValue(f, items[i]))
    ensures EncodePacked(f, items)
         == Cat(EncodePacked(f, items[..i]), Cat(EncodeValue(f, items[i]), EncodePacked(f, items[i + 1..])))
  {
    PackedSplit(f, items[..i + 1], i);
    assert items[..i + 1][..i] == items[..i] && items[..i + 1][i..] == [items[i]];
    CatEmpty(EncodeValue(f, items[i]));
    PackedSplit(f, items, i);
    assert items[i..][0] == items[i] && items[i..][1..] == items[i + 1..];
  }

  lemma UnpackedSnoc(f: Field, items: seq<Value>, i: nat)
    requires i < |items|
    ensures EncodeUnpacked(f, items[..i + 1]) == Cat(EncodeUnpacked(f, items[..i]), EncodeKeyed(f, items[i]))
    ensures EncodeUnpacked(f, items)
         == Cat(EncodeUnpacked(f, items[..i]), Cat(EncodeKeyed(f, items[i]), EncodeUnpacked(f, items[i + 1..])))
  {
    UnpackedSplit(f, items[..i + 1], i);
    assert items[..i + 1][..i] == items[..i] && items[..i + 1][i..] == [items[i]];
    CatEmpty(EncodeKeyed(f, items[i]));
    UnpackedSplit(f, items, i);
    assert items[i..][0] == items[i] && items[i..][1..] == items[i + 1..];
  }

  lemma FieldsSnoc(fields: seq<Field>, m: Message, i: nat)
    requires i < |fields|
    ensures EncodeFields(fields[..i + 1], m) == Cat(EncodeFields(fields[..i], m), SlotBytes(fields[i], m))
    ensures EncodeFields(fields, m)
         == Cat(EncodeFields(fields[..i], m), Cat(SlotBytes(fields[i], m), EncodeFields(fields[i + 1..], m)))
  {
    FieldsSplit(fields[..i + 1], m, i);
    assert fields[..i + 1][..i] == fields[..i] && fields[..i + 1][i..] == [fields[i]];
    CatEmpty(SlotBytes(fields[i], m));
    FieldsSplit(fields, m, i);
    assert fields[i..][0] == fields[i] && fields[i..][1..] == fields[i + 1..];
  }

  /** `size = 4 * count` and `size = 8 * count` */
  lemma {:induction false} FixedPackedSize(f: Field, items: seq<Value>)
    requires f.ltype.Fixed32? || f.ltype.Fixed64?
    requires forall i :: 0 <= i < |items| ==> ValueTyped(f, items[i])
    ensures EncodePacked(f, items).Some?
    ensures |EncodePacked(f, items).value| == (if f.ltype.Fixed32? then 4 else 8) * |items|
    decreases |items|
  {
    if items != [] {
      FixedPackedSize(f, items[1..]);
    }
  }

  // ---------- values, fields and messages ----------

  lemma CStringStep(b: Bytes, max: nat, size: nat)
    requires size < max && size < |b| && b[size] != 0
    ensures |CString(b[size..], max - size)| == 1 + |CString(b[size + 1..], max - (size + 1))|
  {
    assert b[size..][1..] == b[size + 1..];
  }

  /** The loop of pb_enc_string: the bytes before the first NUL, at most `max` of them. */
  method StringLength(b: Bytes, max: nat) returns (size: nat)
    ensures size == |CString(b, max)|
  {
    size := 0;
    while size < max && size < |b| && b[size] != 0
      invariant size <= |b| && size <= max
      invariant |CString(b, max)| == size + |CString(b[size..], max - size)|
    {
      CStringStep(b, max, size);
      size := size + 1;
    }
  }

  /** What the guards of the integer encoders leave: a value of the C type always has an encoding. */
  lemma NumberEncoding(f: Field, v: Value)
    requires FieldOk(f) && ValueTyped(f, v) && Packable(f.ltype)
    ensures v.Num?
    ensures match f.ltype
            case Varint => FitsSigned(v.n, 8) && EncodeValue(f, v) == Some(V.Encode(V.ToUnsigned(v.n, TWO_TO_64)))
            case UVarint => v.n >= 0 && EncodeValue(f, v) == Some(V.Encode(v.n))
            case SVarint => FitsSigned(v.n, 8) && EncodeValue(f, v) == Some(V.Encode(V.ZigZag(v.n)))
            case Fixed32 => v.n >= 0 && EncodeValue(f, v) == Some(V.LittleEndian(v.n, 4))
            case Fixed64 => v.n >= 0 && EncodeValue(f, v) == Some(V.LittleEndian(v.n, 8))
  {
  }

  /** The integer encoders of PB_ENCODERS. */
  method EncNumber(stream: OStream, f: Field, v: Value) returns (ok: bool)
    requires stream.Valid() && FieldOk(f) && ValueTyped(f, v) && Packable(f.ltype)
    modifies stream.Repr()
    ensures stream.Valid() && Took(old(stream.View()), stream.View(), ok, EncodeValue(f, v))
  {
    NumberEncoding(f, v);
    match f.ltype {
      case Varint => ok := stream.EncodeVarint(V.ToUnsigned(v.n, TWO_TO_64));
      case UVarint => ok := stream.EncodeVarint(v.n);
      case SVarint => ok := stream.EncodeSvarint(v.n);
      case Fixed32 => ok := stream.EncodeFixed(v.n, 4);
      case Fixed64 => ok := stream.EncodeFixed(v.n, 8);
    }
  }

  /** The encoders of PB_ENCODERS: one value without its key. */
  method EncValue(stream: OStream, f: Field, v: Value) returns (ok: bool)
    requires stream.Valid() && FieldOk(f) && ValueTyped(f, v)
    modifies stream.Repr()
    ensures stream.Valid() && Took(old(stream.View()), stream.View(), ok, EncodeValue(f, v))
    decreases f, 0
  {
    if Packable(f.ltype) {
      ok := EncNumber(stream, f, v);
      return;
    }
    match f.ltype {
      case Bytes =>
        if |v.b| + BYTES_HEADER > f.dataSize {
          return false;
        }
        ok := stream.EncodeString(v.b);
      case String =>
        var size := StringLength(v.b, f.dataSize);
        ok := stream.EncodeString(v.b[..size]);
      case FixedLengthBytes => ok := stream.EncodeString(v.b);
      case Submessage => ok := EncodeSubmessage(stream, f.sub, v.slots);
    }
  }

  /** pb_encode_tag_for_field and the value behind it */
  method EncKeyed(stream: OStream, f: Field, v: Value) returns (ok: bool)
    requires stream.Valid() && FieldOk(f) && ValueTyped(f, v)
    modifies stream.Repr()
    ensures stream.Valid() && Took(old(stream.View()), stream.View(), ok, EncodeKeyed(f, v))
    decreases f, 1
  {
    ghost var before, key := stream.View(), Some(Key(f.tag, WireType(f.ltype)));
    assert EncodeKeyed(f, v) == Cat(key, EncodeValue(f, v));
    ok := stream.EncodeTag(WireType(f.ltype), f.tag);
    if !ok {
      TookFails(before, stream.View(), key, EncodeValue(f, v));
      return;
    }
    ghost var mid := stream.View();
    ok := EncValue(stream, f, v);
    TookTwice(before, mid, stream.View(), ok, key, EncodeValue(f, v));
  }

  /** The loop over the items of a packed array, on a sizing stream or on the real one. */
  method EncPackedItems(stream: OStream, f: Field, items: seq<Value>) returns (ok: bool)
    requires stream.Valid() && FieldOk(f) && forall i :: 0 <= i < |items| ==> ValueTyped(f, items[i])
    modifies stream.Repr()
    ensures stream.Valid() && Took(old(stream.View()), stream.View(), ok, EncodePacked(f, items))
    decreases f, 1
  {
    ghost var before := stream.View();
    assert items[..0] == [];
    assert Appended(before, before, []);
    for i := 0 to |items|
      invariant stream.Valid() && Took(before, stream.View(), true, EncodePacked(f, items[..i]))
    {
      ghost var mid := stream.View();
      ok := EncValue(stream, f, items[i]);
      PackedSnoc(f, items, i);
      PrefixTook(before, mid, stream.View(), ok, EncodePacked(f, items[..i]), EncodeValue(f, items[i]),
                 EncodePacked(f, items[i + 1..]), EncodePacked(f, items));
      if !ok {
        return;
      }
    }
    assert items[..|items|] == items;
    ok := true;
  }

  /** The payload of a packed array behind its length: sized first, then written. */
  method EncPackedPayload(stream: OStream, f: Field, items: seq<Value>) returns (ok: bool)
    requires stream.Valid() && FieldOk(f) && Packable(f.ltype)
    requires forall i :: 0 <= i < |items| ==> ValueTyped(f, items[i])
    modifies stream.Repr()
    ensures stream.Valid()
    ensures Took(old(stream.View()), stream.View(), ok,
                 if EncodePacked(f, items).Some? then Some(Delimited(EncodePacked(f, items).value)) else None)
    decreases f, 2
  {
    ghost var before := stream.View();
    ghost var payload := EncodePacked(f, items);
    var size;
    if f.ltype.Fixed32? {
      FixedPackedSize(f, items);
      size := 4 * |items|;
    } else if f.ltype.Fixed64? {
      FixedPackedSize(f, items);
      size := 8 * |items|;
    } else {
      var sizestream := new OStream.Sizing();
      ok := EncPackedItems(sizestream, f, items);
      if !ok {
        return;
      }
      size := sizestream.bytesWritten;
    }
    assert payload.Some? && size == |payload.value|;
    ghost var prefix := Some(V.Encode(size));
    assert Some(Delimited(payload.value)) == Cat(prefix, payload);
    ok := stream.EncodeVarint(size);
    if !ok {
      TookFails(before, stream.View(), prefix, payload);
      return;
    }
    ghost var mid := stream.View();
    if stream.buffer == null {
      stream.Count(payload.value, size);
    } else {
      ok := EncPackedItems(stream, f, items);
    }
    TookTwice(before, mid, stream.View(), ok, prefix, payload);
  }

  /** encode_array */
  method EncArray(stream: OStream, f: Field, items: seq<Value>) returns (ok: bool)
    requires stream.Valid() && FieldOk(f) && forall i :: 0 <= i < |items| ==> ValueTyped(f, items[i])
    modifies stream.Repr()
    ensures stream.Valid() && Took(old(stream.View()), stream.View(), ok, EncodeArray(f, items))
    decreases f, 3
  {
    ghost var before := stream.View();
    if items == [] {
      assert Appended(before, before, []);
      return true;
    }
    if |items| > f.arraySize {
      return false;
    }
    if Packable(f.ltype) {
      ghost var key := Some(Key(f.tag, WT_STRING));
      ghost var payload := EncodePacked(f, items);
      ghost var delimited := if payload.Some? then Some(Delimited(payload.value)) else None;
      assert EncodeArray(f, items) == Cat(key, delimited);
      ok := stream.EncodeTag(WT_STRING, f.tag);
      if !ok {
        TookFails(before, stream.View(), key, delimited);
        return;
      }
      ghost var mid := stream.View();
      ok := EncPackedPayload(stream, f, items);
      TookTwice(before, mid, stream.View(), ok, key, delimited);
    } else {
      ok := EncUnpackedItems(stream, f, items);
    }
  }

  /** The loop over an array that is not packed. */
  method EncUnpackedItems(stream: OStream, f: Field, items: seq<Value>) returns (ok: bool)
    requires stream.Valid() && FieldOk(f) && forall i :: 0 <= i < |items| ==> ValueTyped(f, items[i])
    modifies stream.Repr()
    ensures stream.Valid() && Took(old(stream.View()), stream.View(), ok, EncodeUnpacked(f, items))
    decreases f, 2
  {
    ghost var before := stream.View();
    assert items[..0] == [];
    assert Appended(before, before, []);
    for i := 0 to |items|
      invariant stream.Valid() && Took(before, stream.View(), true, EncodeUnpacked(f, items[..i]))
    {
      ghost var mid := stream.View();
      ok := EncKeyed(stream, f, items[i]);
      UnpackedSnoc(f, items, i);
      PrefixTook(before, mid, stream.View(), ok, EncodeUnpacked(f, items[..i]), EncodeKeyed(f, items[i]),
                 EncodeUnpacked(f, items[i + 1..]), EncodeUnpacked(f, items));
      if !ok {
        return;
      }
    }
    assert items[..|items|] == items;
    ok := true;
  }

  /** encode_basic_field */
  method EncBasicField(stream: OStream, f: Field, s: Slot) returns (ok: bool)
    requires stream.Valid() && FieldOk(f) && SlotTyped(f, s)
    modifies stream.Repr()
    ensures stream.Valid() && Took(old(stream.View()), stream.View(), ok, EncodeSlot(f, s))
    decreases f, 4
  {
    assert Appended(stream.View(), stream.View(), []);
    ok := true;
    match f.htype {
      case Required => ok := EncKeyed(stream, f, s.v);
      case Optional(flag) =>
        var has := if flag then s.has else !IsZero(f, s.v);
        if has {
          ok := EncKeyed(stream, f, s.v);
        }
      case Repeated => ok := EncArray(stream, f, s.items);
      case OneOf =>
        if s.which == f.tag {
          ok := EncKeyed(stream, f, s.v);
        }
    }
  }

  /** pb_encode: every field of the descriptor in turn. */
  method Encode(stream: OStream, fields: seq<Field>, m: Message) returns (ok: bool)
    requires stream.Valid() && WellFormed(fields) && MessageTyped(fields, m)
    modifies stream.Repr()
    ensures stream.Valid() && Took(old(stream.View()), stream.View(), ok, EncodeFields(fields, m))
    decreases fields, 0
  {
    ghost var before := stream.View();
    assert Appended(before, before, []);
    if fields == [] {
      return true;
    }
    TagsOk(fields);
    var iter := new FieldIter(fields);
    assert fields[..0] == [];
    var more := true;
    while more
      invariant iter.Valid() && iter.fields == fields && fresh(iter) && stream.Valid()
      invariant Took(before, stream.View(), true, EncodeFields(if more then fields[..iter.pos] else fields, m))
      decreases more, |fields| - iter.pos
    {
      ghost var i := iter.pos;
      var f := iter.Entry();
      ok := EncEntry(stream, fields, m, f, i, before);
      if !ok {
        return;
      }
      more := iter.Next();
      assert !more ==> fields[..i + 1] == fields;
    }
    ok := true;
  }

  /** One round of the loop of pb_encode, behind the fields before entry `i`. */
  method EncEntry(stream: OStream, fields: seq<Field>, m: Message, f: Field, ghost i: nat, ghost before: Snapshot)
    returns (ok: bool)
    requires stream.Valid() && MessageTyped(fields, m) && i < |fields| && f == fields[i] && FieldOk(f)
    requires Took(before, stream.View(), true, EncodeFields(fields[..i], m))
    modifies stream.Repr()
    ensures stream.Valid()
    ensures ok ==> Took(before, stream.View(), true, EncodeFields(fields[..i + 1], m))
    ensures !ok ==> Took(before, stream.View(), false, EncodeFields(fields, m))
    decreases f, 5
  {
    ghost var mid := stream.View();
    ok := EncBasicField(stream, f, m[f.slot]);
    FieldsSnoc(fields, m, i);
    PrefixTook(before, mid, stream.View(), ok, EncodeFields(fields[..i], m), SlotBytes(f, m),
               EncodeFields(fields[i + 1..], m), EncodeFields(fields, m));
  }

  lemma TagsOk(fields: seq<Field>)
    requires WellFormed(fields)
    ensures TagsNonzero(fields) && forall i :: 0 <= i < |fields| ==> FieldOk(fields[i])
  {
    forall i | 0 <= i < |fields| ensures fields[i].tag != 0 {
      assert FieldOk(fields[i]);
    }
  }

  /** pb_encode_submessage: a sizing pass, the length, and a second pass limited to that length. */
  method EncodeSubmessage(stream: OStream, fields: seq<Field>, m: Message) returns (ok: bool)
    requires stream.Valid() && WellFormed(fields) && MessageTyped(fields, m)
    modifies stream.Repr()
    ensures stream.Valid()
    ensures Took(old(stream.View()), stream.View(), ok,
                 if EncodeFields(fields, m).Some? then Some(Delimited(EncodeFields(fields, m).value)) else None)
    decreases fields, 2
  {
    ghost var before := stream.View();
    ghost var body := EncodeFields(fields, m);
    var size;
    ok, size := GetEncodedSize(fields, m);
    if !ok {
      return;
    }
    ghost var prefix := Some(V.Encode(size));
    assert Some(Delimited(body.value)) == Cat(prefix, body);
    ok := stream.EncodeVarint(size);
    if !ok {
      TookFails(before, stream.View(), prefix, body);
      return;
    }
    ghost var mid := stream.View();
    ok := EncodeBody(stream, fields, m, size);
    TookTwice(before, mid, stream.View(), ok, prefix, body);
  }

  /** The second pass of pb_encode_submessage, limited to the size that was announced. */
  method EncodeBody(stream: OStream, fields: seq<Field>, m: Message, size: nat) returns (ok: bool)
    requires stream.Valid() && WellFormed(fields) && MessageTyped(fields, m)
    requires EncodeFields(fields, m).Some? && size == |EncodeFields(fields, m).value|
    modifies stream.Repr()
    ensures stream.Valid() && Took(old(stream.View()), stream.View(), ok, EncodeFields(fields, m))
    decreases fields, 1
  {
    if stream.buffer == null {
      stream.Count(EncodeFields(fields, m).value, size);
      return true;
    }
    if stream.bytesWritten + size > stream.maxSize {
      return false;
    }
    var substream := new OStream.Limited(stream, size);
    ok := Encode(substream, fields, m);
    // "submsg size changed" cannot happen
    assert ok && substream.bytesWritten == size;
    stream.bytesWritten := stream.bytesWritten + substream.bytesWritten;
    stream.state := substream.state;
    ok := ok && substream.bytesWritten == size;
  }

  /** pb_get_encoded_size: exactly the number of bytes a real encode writes. */
  method GetEncodedSize(fields: seq<Field>, m: Message) returns (ok: bool, size: nat)
    requires WellFormed(fields) && MessageTyped(fields, m)
    ensures ok <==> EncodeFields(fields, m).Some?
    ensures ok ==> size == |EncodeFields(fields, m).value|
    decreases fields, 1
  {
    var stream := new OStream.Sizing();
    ok := Encode(stream, fields, m);
    size := stream.bytesWritten;
  }

  /** A message encodes into a buffer exactly when the size `pb_get_encoded_size` reports fits the buffer. */
  method EncodeToBuffer(buf: array<byte>, fields: seq<Field>, m: Message) returns (ok: bool, size: nat)
    requires WellFormed(fields) && MessageTyped(fields, m)
    modifies buf
    ensures ok <==> EncodeFields(fields, m).Some? && |EncodeFields(fields, m).value| <= buf.Length
    ensures ok ==> size <= buf.Length && buf[..size] == EncodeFields(fields, m).value
    ensures ok ==> buf[size..] == old(buf[size..])
  {
    var stream := new OStream.FromBuffer(buf);
    ok := Encode(stream, fields, m);
    size := stream.bytesWritten;
  }
}
