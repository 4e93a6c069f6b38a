/**
 Decoding undoes encoding, also for a reader whose schema lacks some of the writer's fields.

 The proof follows the writer: every field of the writer's descriptor appends a chunk of bytes, and the
 reader's loop absorbs that chunk, either into the struct (the reader knows the tag) or by skipping exactly
 those bytes (it does not).
 */
module RoundTrip {
  import opened Basics
  import V = Varint
  import opened Schema
  import opened Wire
  import opened Merged

  // ---------- lengths and keys ----------

  lemma DelimitedParses(payload: Bytes, tail: Bytes)
    requires |payload| < TWO_TO_32
    ensures ReadDelimited(Delimited(payload) + tail) == Some((payload, tail))
  {
    assert Delimited(payload) + tail == V.Encode(|payload|) + (payload + tail);
    V.Parse32Encode(|payload|, payload + tail);
    assert (payload + tail)[..|payload|] == payload;
    assert (payload + tail)[|payload|..] == tail;
  }

  lemma KeyParses(tag: nat, wire: nat, tail: Bytes)
    requires 0 < tag < 0x2000_0000 && wire < 8
    ensures Key(tag, wire) + tail != []
    ensures ReadTag(Key(tag, wire) + tail) == Tag(tag, wire, tail)
  {
    V.Parse32Encode(8 * tag + wire, tail);
  }

  lemma {:induction false} SkipVarintEncode(v: nat, tail: Bytes)
    ensures SkipVarint(V.Encode(v) + tail) == Some(tail)
  {
    var bs := V.Encode(v) + tail;
    if v < 0x80 {
      assert bs[1..] == tail;
    } else {
      assert bs[1..] == V.Encode(v / 0x80) + tail;
      SkipVarintEncode(v / 0x80, tail);
    }
  }

  /** `pb_skip_field` consumes precisely what the encoder wrote for a value of any type. */
  lemma ValueSkipped(f: Field, v: Value, tail: Bytes)
    requires EncodeValue(f, v).Some? && ShortValue(f, v)
    ensures SkipField(WireType(f.ltype), EncodeValue(f, v).value + tail) == Some(tail)
  {
    var bs := EncodeValue(f, v).value;
    match (f.ltype, v) {
      case (Varint, Num(n)) => SkipVarintEncode(V.ToUnsigned(n, TWO_TO_64), tail);
      case (UVarint, Num(n)) => SkipVarintEncode(n, tail);
      case (SVarint, Num(n)) => SkipVarintEncode(V.ZigZag(n), tail);
      case (Fixed32, Num(n)) => assert (bs + tail)[4..] == tail;
      case (Fixed64, Num(n)) => assert (bs + tail)[8..] == tail;
      case (Bytes, Blob(b)) => DelimitedParses(b, tail);
      case (String, Blob(b)) => DelimitedParses(CString(b, f.dataSize), tail);
      case (FixedLengthBytes, Blob(b)) => DelimitedParses(b, tail);
      case (Submessage, Struct(slots)) => DelimitedParses(EncodeFields(f.sub, slots).value, tail);
    }
  }

  // ---------- scalars ----------

  lemma {:induction false} CStringWhole(b: Bytes, max: nat)
    requires |b| <= max && 0 !in b
    ensures CString(b, max) == b
  {
    if b != [] && max != 0 {
      CStringWhole(b[1..], max - 1);
    }
  }

  lemma SignedCut(n: int, size: nat)
    requires IntegerSize(size) && FitsSigned(n, size)
    ensures var u := V.ToUnsigned(n, TWO_TO_64);
            0 <= u < TWO_TO_64
            && n == if size == 8 then V.ToSigned(u, TWO_TO_64) else V.ToSigned(u % TWO_TO_32, TWO_TO_32)
  {
    if n < 0 {
      assert (n + TWO_TO_64) % TWO_TO_32 == n % TWO_TO_32 by {
        assert n + TWO_TO_64 == n + TWO_TO_32 * TWO_TO_32;
      }
    }
  }

  lemma ScalarRoundTrip(f: Field, v: Value, tail: Bytes)
    requires FieldOk(f) && !f.ltype.Submessage? && ValueFits(f, v)
    ensures EncodeValue(f, v).Some?
    ensures DecodeScalar(f, EncodeValue(f, v).value + tail) == Some((v, tail))
  {
    match f.ltype {
      case Varint =>
        SignedCut(v.n, f.dataSize);
        V.Parse64Encode(V.ToUnsigned(v.n, TWO_TO_64), tail);
      case UVarint => V.Parse64Encode(v.n, tail);
      case SVarint =>
        V.ZigZagBijective(v.n, 0);
        V.Parse64Encode(V.ZigZag(v.n), tail);
      case Fixed32 =>
        var bs := V.LittleEndian(v.n, 4);
        assert (bs + tail)[..4] == bs && (bs + tail)[4..] == tail;
        FixedRoundTrip(v.n, 4);
      case Fixed64 =>
        var bs := V.LittleEndian(v.n, 8);
        assert (bs + tail)[..8] == bs && (bs + tail)[8..] == tail;
        FixedRoundTrip(v.n, 8);
      case Bytes => DelimitedParses(v.b, tail);
      case String =>
        CStringWhole(v.b, f.dataSize);
        DelimitedParses(v.b, tail);
      case FixedLengthBytes =>
        DelimitedParses(v.b, tail);
        if v.b == [] {
          assert ZeroValue(f).b == [];
        }
    }
  }

  lemma FixedRoundTrip(n: nat, width: nat)
    requires width == 4 || width == 8
    requires n < Range(width)
    ensures V.FromLittleEndian(V.LittleEndian(n, width)) == n
  {
    assert Pow256(4) == TWO_TO_32;
    assert Pow256(8) == 0x100 * 0x100 * 0x100 * 0x100 * Pow256(4);
    V.LittleEndianRoundTrip(n, width);
  }

  // ---------- arrays ----------

  lemma {:induction false} PackedRoundTrip(f: Field, have: seq<Value>, items: seq<Value>)
    requires FieldOk(f) && Packable(f.ltype)
    requires |have| + |items| <= f.arraySize
    requires forall i :: 0 <= i < |items| ==> ValueFits(f, items[i])
    ensures EncodePacked(f, items).Some?
    ensures DecodePacked(f, have, EncodePacked(f, items).value) == Some(have + items)
    decreases |items|
  {
    hide EncodeValue, DecodeScalar, ValueFits;
    if items == [] {
      assert have + items == have;
    } else {
      PackedRoundTrip(f, have + [items[0]], items[1..]);
      var rest := EncodePacked(f, items[1..]).value;
      ScalarRoundTrip(f, items[0], rest);
      assert have + [items[0]] + items[1..] == have + items;
    }
  }

  // ---------- what the reader's struct looks like along the way ----------

  /**
   Once the chunks of the tags in `done` are absorbed: fields done are merged, and a place no written field of
   `done` fills still holds what the struct held at first.
   */
  ghost predicate Absorbed(fields: seq<Field>, base: Message, m: Message, done: set<nat>, cur: Message) {
    && (forall i :: 0 <= i < |fields| ==> fields[i].slot in base && fields[i].slot in m && fields[i].slot in cur)
    && (forall i :: 0 <= i < |fields| && fields[i].tag in done ==>
          MergedSlot(fields[i], base[fields[i].slot], m[fields[i].slot], cur[fields[i].slot]))
    && (forall i :: 0 <= i < |fields| && Untouched(fields, m, done, fields[i].slot) ==>
          cur[fields[i].slot] == base[fields[i].slot])
  }

  ghost predicate Untouched(fields: seq<Field>, m: Message, done: set<nat>, slot: nat) {
    slot in m && forall j :: 0 <= j < |fields| && fields[j].slot == slot && fields[j].tag in done ==>
      !Written(fields[j], m[slot])
  }

  /** A field left off the wire leaves the struct as it is. */
  lemma AbsorbNothing(fields: seq<Field>, base: Message, m: Message, done: set<nat>, cur: Message, k: nat)
    requires WellFormed(fields) && k < |fields| && Shaped(fields, base, m)
    requires fields[k].tag !in done
    requires Absorbed(fields, base, m, done, cur)
    requires SlotFits(fields[k], m[fields[k].slot]) && !Written(fields[k], m[fields[k].slot])
    ensures Absorbed(fields, base, m, done + {fields[k].tag}, cur)
  {
    var f := fields[k];
    var done' := done + {f.tag};
    if f.htype.OneOf? {
      UnionKept(fields, base, m, done, cur, k);
    } else {
      BaseKept(fields, base, m, done, cur, k);
      NothingMerged(f, base[f.slot], m[f.slot]);
    }
    forall i | 0 <= i < |fields| && fields[i].tag in done'
      ensures MergedSlot(fields[i], base[fields[i].slot], m[fields[i].slot], cur[fields[i].slot])
    {
      if i != k {
        if i < k { assert fields[i].tag != f.tag; } else { assert fields[i].tag != f.tag; }
      }
    }
    forall i | 0 <= i < |fields| && Untouched(fields, m, done', fields[i].slot)
      ensures Untouched(fields, m, done, fields[i].slot)
    {
    }
  }

  lemma NothingMerged(f: Field, a: Slot, b: Slot)
    requires ShapedSlot(f, a, b) && SlotFits(f, b) && !Written(f, b) && !f.htype.OneOf?
    ensures MergedSlot(f, a, b, a)
  {
  }

  /** A union stays one, whichever member is absorbed. */
  lemma UnionKept(fields: seq<Field>, base: Message, m: Message, done: set<nat>, cur: Message, k: nat)
    requires WellFormed(fields) && k < |fields| && fields[k].htype.OneOf? && Shaped(fields, base, m)
    requires Absorbed(fields, base, m, done, cur)
    ensures base[fields[k].slot].Union? && m[fields[k].slot].Union? && cur[fields[k].slot].Union?
  {
    var f := fields[k];
    assert ShapedSlot(f, base[f.slot], m[f.slot]);
    if !Untouched(fields, m, done, f.slot) {
      var j :| 0 <= j < |fields| && fields[j].slot == f.slot && fields[j].tag in done && Written(fields[j], m[f.slot]);
      UnionMembers(fields, j, k);
    }
  }

  lemma UnionMembers(fields: seq<Field>, j: nat, k: nat)
    requires SlotsShared(fields) && j < |fields| && k < |fields|
    requires fields[j].slot == fields[k].slot && fields[k].htype.OneOf?
    ensures fields[j].htype.OneOf?
  {
    if j < k { } else { }
  }

  /** Absorbing a written field: its place is merged, all others are as they were. */
  lemma AbsorbWritten(fields: seq<Field>, base: Message, m: Message, done: set<nat>, cur: Message, k: nat, s: Slot)
    requires WellFormed(fields) && k < |fields|
    requires fields[k].tag !in done
    requires Absorbed(fields, base, m, done, cur)
    requires Written(fields[k], m[fields[k].slot])
    requires MergedSlot(fields[k], base[fields[k].slot], m[fields[k].slot], s)
    ensures Absorbed(fields, base, m, done + {fields[k].tag}, cur[fields[k].slot := s])
  {
    var f := fields[k];
    var done' := done + {f.tag};
    var cur' := cur[f.slot := s];
    forall i | 0 <= i < |fields| && fields[i].tag in done'
      ensures MergedSlot(fields[i], base[fields[i].slot], m[fields[i].slot], cur'[fields[i].slot])
    {
      if i != k {
        assert fields[i].tag != f.tag by { if i < k { } else { } }
        if fields[i].slot == f.slot {
          // both are members of one union, which holds f
          assert fields[i].htype.OneOf? && f.htype.OneOf? by { if i < k { } else { } }
          assert m[f.slot].which == f.tag;
        }
      }
    }
    forall i | 0 <= i < |fields| && Untouched(fields, m, done', fields[i].slot)
      ensures cur'[fields[i].slot] == base[fields[i].slot]
    {
      assert Untouched(fields, m, done, fields[i].slot);
      assert fields[i].slot != f.slot;
    }
  }

  /** What a field is decoded onto, before its first bytes arrive. */
  lemma BaseKept(fields: seq<Field>, base: Message, m: Message, done: set<nat>, cur: Message, k: nat)
    requires WellFormed(fields) && k < |fields|
    requires fields[k].tag !in done && !fields[k].htype.OneOf?
    requires Absorbed(fields, base, m, done, cur)
    ensures cur[fields[k].slot] == base[fields[k].slot]
  {
    var f := fields[k];
    forall j | 0 <= j < |fields| && fields[j].slot == f.slot
      ensures j == k
    {
      assert SlotsShared(fields);
    }
    assert Untouched(fields, m, done, f.slot);
  }

  // ---------- absorbing the chunk of one field ----------

  /** Rounds of the loop, none of them the last, lead from `p` to `q`. */
  ghost predicate Advances(fields: seq<Field>, p: Progress, q: Progress)
    decreases |p.rest|
  {
    p == q || (p.rest != [] && Step(fields, p).Some? && Step(fields, p).value.1
               && Advances(fields, Step(fields, p).value.0, q))
  }

  lemma {:induction false} AdvancesTransitive(fields: seq<Field>, p: Progress, q: Progress, r: Progress)
    requires Advances(fields, p, q) && Advances(fields, q, r)
    ensures Advances(fields, p, r)
    decreases |p.rest|
  {
    if p != q {
      AdvancesTransitive(fields, Step(fields, p).value.0, q, r);
    }
  }

  lemma {:induction false} AdvancesLoop(fields: seq<Field>, p: Progress, q: Progress)
    requires Advances(fields, p, q)
    ensures Loop(fields, p) == Loop(fields, q)
    ensures Clean(fields, p) == Clean(fields, q)
    decreases |p.rest|
  {
    if p != q {
      AdvancesLoop(fields, Step(fields, p).value.0, q);
    }
  }

  lemma LoopStep(fields: seq<Field>, p: Progress, p': Progress)
    requires p.rest != [] && Step(fields, p) == Some((p', true))
    ensures Advances(fields, p, p')
  {
    assert Advances(fields, p', p');
  }

  lemma Assoc(a: Bytes, b: Bytes, c: Bytes)
    ensures a + b + c == a + (b + c)
  {
  }

  /** A tag the reader does not know: the loop steps over key and value. */
  lemma SkipUnknown(fields: seq<Field>, p: Progress, tag: nat, wire: nat, val: Bytes, tail: Bytes)
    requires 0 < tag < 0x2000_0000 && wire < 8 && Find(fields, tag).None?
    requires p.rest == Key(tag, wire) + val + tail
    requires SkipField(wire, val + tail) == Some(tail)
    ensures Advances(fields, p, p.(rest := tail))
  {
    Assoc(Key(tag, wire), val, tail);
    KeyParses(tag, wire, val + tail);
    LoopStep(fields, p, p.(rest := tail));
  }

  function Stored(fields: seq<Field>, p: Progress, i: nat, m': Message, tail: Bytes): Progress
    requires i < |fields|
  {
    Progress(m', if fields[i].htype.Required? then p.seen + {i} else p.seen, tail)
  }

  lemma StepKnown(fields: seq<Field>, p: Progress, i: nat, wire: nat, rest: Bytes, m': Message, tail: Bytes)
    requires i < |fields| && Find(fields, fields[i].tag) == Some(i)
    requires p.rest != [] && ReadTag(p.rest) == Tag(fields[i].tag, wire, rest)
    requires DecodeField(fields[i], wire, p.m, rest) == Some((m', tail))
    ensures Step(fields, p) == Some((Stored(fields, p, i, m', tail), true))
  {
  }

  /** A known tag whose value parses: one round of the loop stores it. */
  lemma StoreKnown(fields: seq<Field>, p: Progress, i: nat, wire: nat, val: Bytes, tail: Bytes, m': Message)
    requires i < |fields| && Find(fields, fields[i].tag) == Some(i)
    requires 0 < fields[i].tag < 0x2000_0000 && wire < 8
    requires p.rest == Key(fields[i].tag, wire) + val + tail
    requires DecodeField(fields[i], wire, p.m, val + tail) == Some((m', tail))
    ensures Advances(fields, p, Stored(fields, p, i, m', tail))
  {
    Assoc(Key(fields[i].tag, wire), val, tail);
    KeyParses(fields[i].tag, wire, val + tail);
    StepKnown(fields, p, i, wire, val + tail, m', tail);
    LoopStep(fields, p, Stored(fields, p, i, m', tail));
  }

  lemma SkipKeyed(fields: seq<Field>, p: Progress, f: Field, v: Value, tail: Bytes)
    requires 0 < f.tag < 0x2000_0000 && Find(fields, f.tag).None?
    requires EncodeKeyed(f, v).Some? && ShortValue(f, v)
    requires p.rest == EncodeKeyed(f, v).value + tail
    ensures Advances(fields, p, p.(rest := tail))
  {
    ValueSkipped(f, v, tail);
    SkipUnknown(fields, p, f.tag, WireType(f.ltype), EncodeValue(f, v).value, tail);
  }

  lemma {:induction false} SkipUnpacked(fields: seq<Field>, p: Progress, f: Field, items: seq<Value>, tail: Bytes)
    requires 0 < f.tag < 0x2000_0000 && Find(fields, f.tag).None?
    requires EncodeUnpacked(f, items).Some? && ShortItems(f, items)
    requires p.rest == EncodeUnpacked(f, items).value + tail
    ensures Advances(fields, p, p.(rest := tail))
    decreases |items|
  {
    if items == [] {
      assert p.rest == tail;
    } else {
      var b := EncodeUnpacked(f, items[1..]).value;
      Assoc(EncodeKeyed(f, items[0]).value, b, tail);
      SkipKeyed(fields, p, f, items[0], b + tail);
      SkipUnpacked(fields, p.(rest := b + tail), f, items[1..], tail);
      AdvancesTransitive(fields, p, p.(rest := b + tail), p.(rest := tail));
    }
  }

  lemma SkipPacked(fields: seq<Field>, p: Progress, f: Field, payload: Bytes, tail: Bytes)
    requires 0 < f.tag < 0x2000_0000 && Find(fields, f.tag).None?
    requires |payload| < TWO_TO_32
    requires p.rest == Key(f.tag, WT_STRING) + Delimited(payload) + tail
    ensures Advances(fields, p, p.(rest := tail))
  {
    DelimitedParses(payload, tail);
    SkipUnknown(fields, p, f.tag, WT_STRING, Delimited(payload), tail);
  }

  /** The whole chunk of a field the reader does not know. */
  lemma SkipSlot(fields: seq<Field>, p: Progress, f: Field, s: Slot, tail: Bytes)
    requires 0 < f.tag < 0x2000_0000 && Find(fields, f.tag).None?
    requires EncodeSlot(f, s).Some? && ShortSlot(f, s)
    requires p.rest == EncodeSlot(f, s).value + tail
    ensures Advances(fields, p, p.(rest := tail))
  {
    if EncodeSlot(f, s).value == [] {
      assert p.rest == tail;
    } else if f.htype.Repeated? {
      if Packable(f.ltype) {
        SkipPacked(fields, p, f, EncodePacked(f, s.items).value, tail);
      } else {
        SkipUnpacked(fields, p, f, s.items, tail);
      }
    } else {
      SkipKeyed(fields, p, f, s.v, tail);
    }
  }

  ghost function Tags(fields: seq<Field>): set<nat> {
    set i | 0 <= i < |fields| :: fields[i].tag
  }

  lemma TagsSnoc(fields: seq<Field>, k: nat)
    requires DistinctTags(fields) && k < |fields|
    ensures fields[k].tag !in Tags(fields[..k])
    ensures Tags(fields[..k + 1]) == Tags(fields[..k]) + {fields[k].tag}
  {
    forall t | t in Tags(fields[..k]) ensures t in Tags(fields[..k + 1]) {
      var i :| 0 <= i < k && fields[..k][i].tag == t;
      assert fields[..k + 1][i].tag == t;
    }
    assert fields[..k + 1][k] == fields[k];
  }

  // A struct that fits the writer's descriptor fits the reader's.

  lemma {:induction false} NarrowerFits(f': Field, f: Field, s: Slot)
    requires Narrower(f', f) && SlotFits(f, s)
    ensures SlotFits(f', s)
    decreases f', 1
  {
    if f.htype.Repeated? {
      forall i | 0 <= i < |s.items| ensures ValueFits(f', s.items[i]) {
        NarrowerFitsValue(f', f, s.items[i]);
      }
    } else if Written(f, s) || f.htype == Optional(false) {
      NarrowerFitsValue(f', f, s.v);
    }
  }

  lemma {:induction false} NarrowerFitsValue(f': Field, f: Field, v: Value)
    requires Narrower(f', f) && ValueFits(f, v)
    ensures ValueFits(f', v)
    decreases f', 0
  {
    if f.ltype.Submessage? {
      NarrowerFitsAll(f'.sub, f.sub, v.slots);
    }
  }

  lemma {:induction false} NarrowerFitsAll(fields': seq<Field>, fields: seq<Field>, m: Message)
    requires NarrowerAll(fields', fields) && Fits(fields, m)
    ensures Fits(fields', m)
    decreases fields'
  {
    forall i | 0 <= i < |fields'|
      ensures fields'[i].slot in m && SlotFits(fields'[i], m[fields'[i].slot])
    {
      var f := fields[Find(fields, fields'[i].tag).value];
      NarrowerFits(fields'[i], f, m[f.slot]);
    }
  }

  // ---------- the mutual induction over the descriptor tree ----------

  /** A value written under `f` and read under a narrower `f'`, onto whatever was there. */
  lemma {:induction false} ValueMerged(f': Field, f: Field, v: Value, base: Value, tail: Bytes)
    requires FieldOk(f) && FieldOk(f') && Narrower(f', f) && ValueFits(f, v)
    requires EncodeValue(f, v).Some? && ShortValue(f, v)
    requires ShapedValue(f', base, v) && RoomValue(f', base, v)
    ensures DecodeValue(f', base, EncodeValue(f, v).value + tail).Some?
    ensures DecodeValue(f', base, EncodeValue(f, v).value + tail).value.1 == tail
    ensures MergedValue(f', base, v, DecodeValue(f', base, EncodeValue(f, v).value + tail).value.0)
    decreases f, 0
  {
    if f.ltype.Submessage? {
      var bs := EncodeFields(f.sub, v.slots).value;
      DelimitedParses(bs, tail);
      MessageMerged(f'.sub, f.sub, base.slots, v.slots);
    } else {
      ScalarRoundTrip(f', v, tail);
    }
  }

  /** The same onto the defaults: it is read as it was written. */
  lemma {:induction false} ValueRoundTrip(f': Field, f: Field, v: Value, tail: Bytes)
    requires FieldOk(f) && FieldOk(f') && Narrower(f', f) && ValueFits(f, v)
    requires EncodeValue(f, v).Some? && ShortValue(f, v)
    ensures DecodeValue(f', DefaultValue(f'), EncodeValue(f, v).value + tail).Some?
    ensures DecodeValue(f', DefaultValue(f'), EncodeValue(f, v).value + tail).value.1 == tail
    ensures SameValue(f', v, DecodeValue(f', DefaultValue(f'), EncodeValue(f, v).value + tail).value.0)
    decreases f, 1
  {
    NarrowerFitsValue(f', f, v);
    RoomInDefaultValue(f', v);
    ValueMerged(f', f, v, DefaultValue(f'), tail);
    MergedIntoDefaultValue(f', v, DecodeValue(f', DefaultValue(f'), EncodeValue(f, v).value + tail).value.0);
  }

  /** One entry of an array that is not packed, after `have` entries are in. */
  lemma {:induction false} ItemStored(
      fields': seq<Field>, p: Progress, i: nat, f: Field, item: Value, have: seq<Value>, tail: Bytes)
    returns (v: Value)
    requires WellFormed(fields') && i < |fields'| && FieldOk(f) && Narrower(fields'[i], f) && f.htype.Repeated?
    requires |have| < f.arraySize && ValueFits(f, item)
    requires EncodeKeyed(f, item).Some? && ShortValue(f, item)
    requires p.rest == EncodeKeyed(f, item).value + tail
    requires f.slot in p.m && p.m[f.slot] == Array(have)
    ensures SameValue(fields'[i], item, v)
    ensures Advances(fields', p, p.(m := p.m[f.slot := Array(have + [v])], rest := tail))
    decreases f, 2
  {
    var f', val := fields'[i], EncodeValue(f, item).value;
    FindDistinct(fields', i);
    ValueRoundTrip(f', f, item, tail);
    v := DecodeValue(f', DefaultValue(f'), val + tail).value.0;
    StoreKnown(fields', p, i, WireType(f.ltype), val, tail, p.m[f.slot := Array(have + [v])]);
  }

  ghost predicate SameItems(f: Field, a: seq<Value>, b: seq<Value>) {
    |a| == |b| && forall j :: 0 <= j < |a| ==> SameValue(f, a[j], b[j])
  }

  lemma SameItemsCons(f: Field, a: seq<Value>, v: Value, b: seq<Value>)
    requires a != [] && SameValue(f, a[0], v) && SameItems(f, a[1..], b)
    ensures SameItems(f, a, [v] + b)
  {
    forall j | 0 < j < |a| ensures SameValue(f, a[j], ([v] + b)[j]) {
      assert a[j] == a[1..][j - 1];
    }
  }

  lemma Overwrite(m: Message, slot: nat, have: seq<Value>, v: Value, got: seq<Value>)
    ensures m[slot := Array(have + [v])][slot := Array(have + [v] + got)] == m[slot := Array(have + ([v] + got))]
  {
    assert have + [v] + got == have + ([v] + got);
  }

  /** All entries of such an array, one key each. */
  lemma {:induction false} UnpackedStored(
      fields': seq<Field>, p: Progress, i: nat, f: Field, items: seq<Value>, have: seq<Value>, tail: Bytes)
    returns (got: seq<Value>)
    requires WellFormed(fields') && i < |fields'| && FieldOk(f) && Narrower(fields'[i], f) && f.htype.Repeated?
    requires |have| + |items| <= f.arraySize
    requires forall j :: 0 <= j < |items| ==> ValueFits(f, items[j])
    requires EncodeUnpacked(f, items).Some? && ShortItems(f, items)
    requires p.rest == EncodeUnpacked(f, items).value + tail
    requires f.slot in p.m && p.m[f.slot] == Array(have)
    ensures SameItems(fields'[i], items, got)
    ensures Advances(fields', p, p.(m := p.m[f.slot := Array(have + got)], rest := tail))
    decreases f, 3, |items|
  {
    if items == [] {
      got := [];
      NothingStored(p, f.slot, have, tail);
    } else {
      var more := EncodeUnpacked(f, items[1..]).value;
      Assoc(EncodeKeyed(f, items[0]).value, more, tail);
      var v := ItemStored(fields', p, i, f, items[0], have, more + tail);
      var next := p.(m := p.m[f.slot := Array(have + [v])], rest := more + tail);
      var got' := UnpackedStored(fields', next, i, f, items[1..], have + [v], tail);
      got := [v] + got';
      Overwrite(p.m, f.slot, have, v, got');
      AdvancesTransitive(fields', p, next, p.(m := p.m[f.slot := Array(have + got)], rest := tail));
      SameItemsCons(fields'[i], items, v, got');
    }
  }

  lemma NothingStored(p: Progress, slot: nat, have: seq<Value>, tail: Bytes)
    requires slot in p.m && p.m[slot] == Array(have) && p.rest == [] + tail
    ensures p == p.(m := p.m[slot := Array(have + [])], rest := tail)
  {
    assert have + [] == have;
    assert p.rest == tail;
  }

  /** The chunk of a repeated field the reader knows: its entries are appended. */
  lemma {:induction false} ArrayStored(
      fields': seq<Field>, p: Progress, i: nat, f: Field, have: seq<Value>, items: seq<Value>, tail: Bytes)
    returns (s: Slot)
    requires WellFormed(fields') && i < |fields'| && FieldOk(f) && Narrower(fields'[i], f) && f.htype.Repeated?
    requires SlotFits(f, Array(items)) && items != [] && |have| + |items| <= f.arraySize
    requires EncodeArray(f, items).Some? && ShortSlot(f, Array(items))
    requires p.rest == EncodeArray(f, items).value + tail
    requires f.slot in p.m && p.m[f.slot] == Array(have)
    ensures MergedSlot(fields'[i], Array(have), Array(items), s)
    ensures Advances(fields', p, Stored(fields', p, i, p.m[f.slot := s], tail))
    decreases f, 4
  {
    if Packable(f.ltype) {
      PackedStored(fields', p, i, f, have, items, tail);
      s := Array(have + items);
    } else {
      var got := UnpackedStored(fields', p, i, f, items, have, tail);
      s := Array(have + got);
    }
  }

  lemma PackedStored(
      fields': seq<Field>, p: Progress, i: nat, f: Field, have: seq<Value>, items: seq<Value>, tail: Bytes)
    requires WellFormed(fields') && i < |fields'| && FieldOk(f) && fields'[i] == f && f.htype.Repeated?
    requires Packable(f.ltype) && items != [] && |have| + |items| <= f.arraySize
    requires (forall j :: 0 <= j < |items| ==> ValueFits(f, items[j])) && Short(EncodePacked(f, items))
    requires EncodeArray(f, items).Some? && p.rest == EncodeArray(f, items).value + tail
    requires f.slot in p.m && p.m[f.slot] == Array(have)
    ensures Advances(fields', p, Stored(fields', p, i, p.m[f.slot := Array(have + items)], tail))
  {
    var payload := EncodePacked(f, items).value;
    PackedRoundTrip(f, have, items);
    DelimitedParses(payload, tail);
    FindDistinct(fields', i);
    StoreKnown(fields', p, i, WT_STRING, Delimited(payload), tail, p.m[f.slot := Array(have + items)]);
  }

  /** The chunk of a required or optional field: it is merged into what the struct holds. */
  lemma {:induction false} SingleStored(
      fields': seq<Field>, p: Progress, i: nat, f: Field, slot: Slot, tail: Bytes) returns (s: Slot)
    requires WellFormed(fields') && i < |fields'| && FieldOk(f) && Narrower(fields'[i], f)
    requires !f.htype.Repeated? && !f.htype.OneOf?
    requires SlotFits(f, slot) && Written(f, slot)
    requires EncodeKeyed(f, slot.v).Some? && ShortValue(f, slot.v)
    requires p.rest == EncodeKeyed(f, slot.v).value + tail
    requires f.slot in p.m && ShapedSlot(fields'[i], p.m[f.slot], slot) && RoomSlot(fields'[i], p.m[f.slot], slot)
    ensures MergedSlot(fields'[i], p.m[f.slot], slot, s)
    ensures Advances(fields', p, Stored(fields', p, i, p.m[f.slot := s], tail))
    decreases f, 4
  {
    var f', val := fields'[i], EncodeValue(f, slot.v).value;
    FindDistinct(fields', i);
    var base := OldValue(f', p.m);
    ValueMerged(f', f, slot.v, base, tail);
    var v := DecodeValue(f', base, val + tail).value.0;
    s := if f.htype == Optional(true) then Flagged(true, v) else Plain(v);
    StoreKnown(fields', p, i, WireType(f.ltype), val, tail, p.m[f.slot := s]);
  }

  /** The chunk of the member a union holds: the union is reset first. */
  lemma {:induction false} MemberStored(
      fields': seq<Field>, p: Progress, i: nat, f: Field, slot: Slot, tail: Bytes) returns (s: Slot)
    requires WellFormed(fields') && i < |fields'| && FieldOk(f) && Narrower(fields'[i], f) && f.htype.OneOf?
    requires SlotFits(f, slot) && Written(f, slot)
    requires EncodeKeyed(f, slot.v).Some? && ShortValue(f, slot.v)
    requires p.rest == EncodeKeyed(f, slot.v).value + tail
    ensures forall a: Slot :: a.Union? ==> MergedSlot(fields'[i], a, slot, s)
    ensures Advances(fields', p, Stored(fields', p, i, p.m[f.slot := s], tail))
    decreases f, 4
  {
    var f', val := fields'[i], EncodeValue(f, slot.v).value;
    FindDistinct(fields', i);
    ValueRoundTrip(f', f, slot.v, tail);
    var v := DecodeValue(f', DefaultValue(f'), val + tail).value.0;
    s := Union(f.tag, v);
    StoreKnown(fields', p, i, WireType(f.ltype), val, tail, p.m[f.slot := s]);
  }

  /** The chunk of a field the reader knows and the writer wrote. */
  lemma {:induction false} SlotStored(
      fields': seq<Field>, p: Progress, base: Message, m: Message, done: set<nat>, i: nat, f: Field, tail: Bytes)
    returns (s: Slot)
    requires WellFormed(fields') && i < |fields'| && FieldOk(f) && Narrower(fields'[i], f) && Shaped(fields', base, m)
    requires f.slot in m && SlotFits(f, m[f.slot]) && Written(f, m[f.slot])
    requires RoomSlot(fields'[i], base[f.slot], m[f.slot])
    requires EncodeSlot(f, m[f.slot]).Some? && ShortSlot(f, m[f.slot])
    requires p.rest == EncodeSlot(f, m[f.slot]).value + tail
    requires Absorbed(fields', base, m, done, p.m) && f.tag !in done
    ensures MergedSlot(fields'[i], base[f.slot], m[f.slot], s)
    ensures Advances(fields', p, Stored(fields', p, i, p.m[f.slot := s], tail))
    decreases f, 5
  {
    assert ShapedSlot(fields'[i], base[f.slot], m[f.slot]);
    if f.htype.OneOf? {
      s := MemberStored(fields', p, i, f, m[f.slot], tail);
    } else {
      BaseKept(fields', base, m, done, p.m, i);
      if f.htype.Repeated? {
        s := ArrayStored(fields', p, i, f, base[f.slot].items, m[f.slot].items, tail);
      } else {
        s := SingleStored(fields', p, i, f, m[f.slot], tail);
      }
    }
  }

  /** What the reader's loop has established after the first chunks. */
  ghost predicate Consistent(fields': seq<Field>, base: Message, m: Message, done: set<nat>, p: Progress) {
    && Absorbed(fields', base, m, done, p.m)
    && forall i :: 0 <= i < |fields'| && fields'[i].htype.Required? && fields'[i].tag in done ==> i in p.seen
  }

  /** The chunk of a field the reader knows. */
  lemma {:induction false} KnownAbsorbed(
      fields': seq<Field>, p: Progress, base: Message, m: Message, done: set<nat>, i: nat, f: Field, tail: Bytes)
    returns (next: Progress)
    requires WellFormed(fields') && i < |fields'| && FieldOk(f) && Narrower(fields'[i], f) && Shaped(fields', base, m)
    requires f.slot in m && SlotFits(f, m[f.slot]) && RoomSlot(fields'[i], base[f.slot], m[f.slot])
    requires EncodeSlot(f, m[f.slot]).Some? && ShortSlot(f, m[f.slot])
    requires p.rest == EncodeSlot(f, m[f.slot]).value + tail
    requires Consistent(fields', base, m, done, p) && f.tag !in done
    ensures Advances(fields', p, next) && next.rest == tail
    ensures Consistent(fields', base, m, done + {f.tag}, next)
    decreases f, 6
  {
    NarrowerFits(fields'[i], f, m[f.slot]);
    if Written(f, m[f.slot]) {
      var s := SlotStored(fields', p, base, m, done, i, f, tail);
      AbsorbWritten(fields', base, m, done, p.m, i, s);
      next := Stored(fields', p, i, p.m[f.slot := s], tail);
      SeenStored(fields', base, m, done, p, i, next);
    } else {
      assert EncodeSlot(f, m[f.slot]).value == [];
      assert p.rest == tail;
      AbsorbNothing(fields', base, m, done, p.m, i);
      next := p;
      assert !f.htype.Required?;
      SeenStored(fields', base, m, done, p, i, next);
    }
  }

  lemma SeenStored(
      fields': seq<Field>, base: Message, m: Message, done: set<nat>, p: Progress, i: nat, next: Progress)
    requires DistinctTags(fields') && i < |fields'|
    requires Consistent(fields', base, m, done, p)
    requires next.seen == if fields'[i].htype.Required? then p.seen + {i} else p.seen
    ensures forall j :: 0 <= j < |fields'| && fields'[j].htype.Required? && fields'[j].tag in done + {fields'[i].tag}
              ==> j in next.seen
  {
    forall j | 0 <= j < |fields'| && fields'[j].tag == fields'[i].tag
      ensures j == i
    {
    }
  }

  lemma UnknownAbsorbed(
      fields': seq<Field>, base: Message, m: Message, done: set<nat>, p: Progress, tag: nat, next: Progress)
    requires Find(fields', tag).None? && Consistent(fields', base, m, done, p)
    requires next.m == p.m && next.seen == p.seen
    ensures Consistent(fields', base, m, done + {tag}, next)
  {
    forall i | 0 <= i < |fields'| && Untouched(fields', m, done + {tag}, fields'[i].slot)
      ensures Untouched(fields', m, done, fields'[i].slot)
    {
    }
  }

  /** The reader has room for this field of the writer's, if it knows it. */
  predicate RoomFor(fields': seq<Field>, f: Field, base: Message, m: Message)
    requires Shaped(fields', base, m)
  {
    match Find(fields', f.tag)
    case None => true
    case Some(i) => RoomSlot(fields'[i], base[fields'[i].slot], m[fields'[i].slot])
  }

  /** The reader's loop absorbs the chunk of one field of the writer's, known or unknown. */
  lemma {:induction false} ChunkAbsorbed(
      fields': seq<Field>, fields: seq<Field>, base: Message, m: Message, k: nat, p: Progress, tail: Bytes)
    returns (next: Progress)
    requires WellFormed(fields) && WellFormed(fields') && NarrowerAll(fields', fields)
    requires Fits(fields, m) && k < |fields| && Shaped(fields', base, m) && RoomFor(fields', fields[k], base, m)
    requires EncodeSlot(fields[k], m[fields[k].slot]).Some? && ShortSlot(fields[k], m[fields[k].slot])
    requires p.rest == EncodeSlot(fields[k], m[fields[k].slot]).value + tail
    requires Consistent(fields', base, m, Tags(fields[..k]), p)
    ensures Advances(fields', p, next) && next.rest == tail
    ensures Consistent(fields', base, m, Tags(fields[..k + 1]), next)
    decreases fields, 0
  {
    var f := fields[k];
    assert FieldOk(f);
    TagsSnoc(fields, k);
    match Find(fields', f.tag) {
      case None =>
        SkipSlot(fields', p, f, m[f.slot], tail);
        next := p.(rest := tail);
        UnknownAbsorbed(fields', base, m, Tags(fields[..k]), p, f.tag, next);
      case Some(i) =>
        FindDistinct(fields, k);
        assert Narrower(fields'[i], f);
        next := KnownAbsorbed(fields', p, base, m, Tags(fields[..k]), i, f, tail);
    }
  }

  /** All chunks, one after the other, up to whatever follows the message. */
  lemma {:induction false} ChunksAbsorbed(
      fields': seq<Field>, fields: seq<Field>, base: Message, m: Message, k: nat, p: Progress, tail: Bytes) returns (q: Progress)
    requires WellFormed(fields) && WellFormed(fields') && NarrowerAll(fields', fields)
    requires Fits(fields, m) && k <= |fields| && Shaped(fields', base, m) && Room(fields', base, m)
    requires EncodeFields(fields[k..], m).Some? && ShortFields(fields, m)
    requires p.rest == EncodeFields(fields[k..], m).value + tail
    requires Consistent(fields', base, m, Tags(fields[..k]), p)
    ensures Advances(fields', p, q) && q.rest == tail
    ensures Consistent(fields', base, m, Tags(fields), q)
    decreases fields, 1, |fields| - k
  {
    if k == |fields| {
      q := p;
      assert fields[..k] == fields;
      assert p.rest == tail;
    } else {
      assert fields[k..][1..] == fields[k + 1..];
      var more := EncodeFields(fields[k + 1..], m).value;
      Assoc(EncodeSlot(fields[k], m[fields[k].slot]).value, more, tail);
      var next := ChunkAbsorbed(fields', fields, base, m, k, p, more + tail);
      q := ChunksAbsorbed(fields', fields, base, m, k + 1, next, tail);
      AdvancesTransitive(fields', p, next, q);
    }
  }

  /**
   Decoding onto a struct merges the message into it, field by field: the last one wins. The reader may lack any
   of the writer's fields.
   */
  lemma {:induction false} MessageMerged(fields': seq<Field>, fields: seq<Field>, base: Message, m: Message)
    requires WellFormed(fields) && WellFormed(fields') && NarrowerAll(fields', fields)
    requires Fits(fields, m) && Shaped(fields', base, m) && Room(fields', base, m)
    requires EncodeFields(fields, m).Some? && ShortFields(fields, m)
    ensures var bs := EncodeFields(fields, m).value;
            var r := DecodeMessage(fields', base, bs);
            && r.Some? && r.value.1 == [] && MergedMessage(fields', base, m, r.value.0)
            && Clean(fields', Progress(base, {}, bs))
    decreases fields, 2
  {
    var bs := EncodeFields(fields, m).value;
    var p := Progress(base, {}, bs);
    assert fields[0..] == fields;
    assert bs + [] == bs;
    var q := ChunksAbsorbed(fields', fields, base, m, 0, p, []);
    TagsCovered(fields', fields);
    AllAbsorbed(fields', base, m, Tags(fields), q);
    AdvancesLoop(fields', p, q);
  }

  lemma AllAbsorbed(fields': seq<Field>, base: Message, m: Message, done: set<nat>, q: Progress)
    requires SlotsShared(fields') && Shaped(fields', base, m)
    requires Consistent(fields', base, m, done, q)
    requires forall i :: 0 <= i < |fields'| ==> fields'[i].tag in done
    ensures AllRequiredSeen(fields', q.seen) && MergedMessage(fields', base, m, q.m)
  {
    forall i | 0 <= i < |fields'| && fields'[i].htype.OneOf?
      ensures var s := fields'[i].slot;
              if HasMember(fields', s, m[s].which) then q.m[s].which == m[s].which else q.m[s] == base[s]
    {
      UnionAbsorbed(fields', base, m, done, q, i);
    }
  }

  lemma UnionAbsorbed(fields': seq<Field>, base: Message, m: Message, done: set<nat>, q: Progress, i: nat)
    requires SlotsShared(fields') && Shaped(fields', base, m) && i < |fields'| && fields'[i].htype.OneOf?
    requires Absorbed(fields', base, m, done, q.m)
    requires forall i :: 0 <= i < |fields'| ==> fields'[i].tag in done
    ensures var s := fields'[i].slot;
            && m[s].Union? && q.m[s].Union?
            && if HasMember(fields', s, m[s].which) then q.m[s].which == m[s].which else q.m[s] == base[s]
  {
    var s := fields'[i].slot;
    assert MergedSlot(fields'[i], base[s], m[s], q.m[s]);
    if HasMember(fields', s, m[s].which) {
      var j :| 0 <= j < |fields'| && fields'[j].htype.OneOf? && fields'[j].slot == s && fields'[j].tag == m[s].which;
      assert MergedSlot(fields'[j], base[s], m[s], q.m[s]);
    } else {
      forall j | 0 <= j < |fields'| && fields'[j].slot == s
        ensures !Written(fields'[j], m[s])
      {
        UnionMembers(fields', j, i);
      }
      assert Untouched(fields', m, done, s);
    }
  }

  /** Decoding under every schema obtained by removing fields gives the written struct, restricted to it. */
  lemma {:induction false} MessageRoundTrip(fields': seq<Field>, fields: seq<Field>, m: Message)
    requires WellFormed(fields) && WellFormed(fields') && NarrowerAll(fields', fields)
    requires Fits(fields, m)
    requires EncodeFields(fields, m).Some? && ShortFields(fields, m)
    ensures var bs := EncodeFields(fields, m).value;
            var r := Decode(fields', bs);
            && r.Some? && r.value.1 == [] && SameMessage(fields', m, r.value.0)
            && MergedMessage(fields', Defaults(fields'), m, r.value.0)
            && Clean(fields', Progress(Defaults(fields'), {}, bs))
  {
    NarrowerFitsAll(fields', fields, m);
    RoomInDefaults(fields', m);
    MessageMerged(fields', fields, Defaults(fields'), m);
    MergedIntoDefaults(fields', m, Decode(fields', EncodeFields(fields, m).value).value.0);
  }

  lemma TagsCovered(fields': seq<Field>, fields: seq<Field>)
    requires NarrowerAll(fields', fields)
    ensures forall i :: 0 <= i < |fields'| ==> fields'[i].tag in Tags(fields)
  {
    forall i | 0 <= i < |fields'|
      ensures fields'[i].tag in Tags(fields)
    {
      var j := Find(fields, fields'[i].tag).value;
      assert fields[j].tag == fields'[i].tag;
    }
  }

  // ---------- the encoder accepts every struct that fits ----------

  lemma {:induction false} ValueEncodes(f: Field, v: Value)
    requires FieldOk(f) && ValueFits(f, v)
    ensures EncodeValue(f, v).Some?
    decreases f, 0
  {
    if f.ltype.Submessage? {
      FieldsEncode(f.sub, v.slots);
    }
  }

  lemma {:induction false} ItemsEncode(f: Field, items: seq<Value>)
    requires FieldOk(f) && forall i :: 0 <= i < |items| ==> ValueFits(f, items[i])
    ensures EncodePacked(f, items).Some? && EncodeUnpacked(f, items).Some?
    decreases f, 1, |items|
  {
    if items != [] {
      ValueEncodes(f, items[0]);
      ItemsEncode(f, items[1..]);
    }
  }

  lemma {:induction false} SlotEncodes(f: Field, s: Slot)
    requires FieldOk(f) && SlotFits(f, s)
    ensures EncodeSlot(f, s).Some?
    decreases f, 2
  {
    if f.htype.Repeated? {
      ItemsEncode(f, s.items);
    } else if Written(f, s) {
      ValueEncodes(f, s.v);
    }
  }

  lemma {:induction false} FieldsEncode(fields: seq<Field>, m: Message)
    requires (forall i :: 0 <= i < |fields| ==> FieldOk(fields[i])) && Fits(fields, m)
    ensures EncodeFields(fields, m).Some?
    decreases fields
  {
    if fields != [] {
      SlotEncodes(fields[0], m[fields[0].slot]);
      FieldsEncode(fields[1..], m);
    }
  }

  // ---------- the two laws ----------

  /** `pb_decode` of `pb_encode`'s bytes gives the message back. */
  lemma DecodeEncode(fields: seq<Field>, m: Message)
    requires WellFormed(fields) && Fits(fields, m)
    ensures EncodeFields(fields, m).Some?
    ensures ShortFields(fields, m) ==>
              var r := Decode(fields, EncodeFields(fields, m).value);
              && r.Some? && r.value.1 == [] && SameMessage(fields, m, r.value.0)
              && Clean(fields, Progress(Defaults(fields), {}, EncodeFields(fields, m).value))
  {
    FieldsEncode(fields, m);
    NarrowerReflexive(fields);
    if ShortFields(fields, m) {
      MessageRoundTrip(fields, fields, m);
    }
  }

  /** A reader that lacks some of the writer's fields, at any depth, gets exactly the fields it has. */
  lemma {:induction false} UnknownFieldsAreSkipped(fields': seq<Field>, fields: seq<Field>, m: Message)
    requires WellFormed(fields) && WellFormed(fields') && NarrowerAll(fields', fields) && Fits(fields, m)
    ensures EncodeFields(fields, m).Some?
    ensures ShortFields(fields, m) ==>
              var r := Decode(fields', EncodeFields(fields, m).value);
              r.Some? && r.value.1 == [] && SameMessage(fields', m, r.value.0)
  {
    FieldsEncode(fields, m);
    if ShortFields(fields, m) {
      MessageRoundTrip(fields', fields, m);
    }
  }
}
