/**
 Merging: decoding two byte strings one after the other into the same struct, against decoding their
 concatenation. The two agree exactly when the first string ends between two fields.
 */
module Merge {
  import opened Basics
  import V = Varint
  import opened Schema
  import opened Wire
  import opened Merged
  import Overflow
  import RoundTrip

  // ---------- readers never look past what they consume ----------

  lemma Parse32Stable(bs: Bytes, more: Bytes)
    requires V.Parse32(bs).Some?
    ensures V.Parse32(bs + more) == Some((V.Parse32(bs).value.0, V.Parse32(bs).value.1 + more))
  {
    V.ParseStable(bs, more, V.GROUPS_32);
  }

  lemma Parse64Stable(bs: Bytes, more: Bytes)
    requires V.Parse64(bs).Some?
    ensures V.Parse64(bs + more) == Some((V.Parse64(bs).value.0, V.Parse64(bs).value.1 + more))
  {
    V.ParseStable(bs, more, V.GROUPS_64);
  }

  lemma DelimitedStable(bs: Bytes, more: Bytes)
    requires ReadDelimited(bs).Some?
    ensures ReadDelimited(bs + more) == Some((ReadDelimited(bs).value.0, ReadDelimited(bs).value.1 + more))
  {
    Parse32Stable(bs, more);
    var (n, rest) := V.Parse32(bs).value;
    assert (rest + more)[..n] == rest[..n];
    assert (rest + more)[n..] == rest[n..] + more;
  }

  lemma {:induction false} SkipVarintStable(bs: Bytes, more: Bytes)
    requires SkipVarint(bs).Some?
    ensures SkipVarint(bs + more) == Some(SkipVarint(bs).value + more)
  {
    assert (bs + more)[1..] == bs[1..] + more;
    if bs[0] >= 0x80 {
      SkipVarintStable(bs[1..], more);
    }
  }

  lemma SkipFieldStable(wire: nat, bs: Bytes, more: Bytes)
    requires SkipField(wire, bs).Some?
    ensures SkipField(wire, bs + more) == Some(SkipField(wire, bs).value + more)
  {
    if wire == WT_VARINT {
      SkipVarintStable(bs, more);
    } else if wire == WT_64BIT {
      assert (bs + more)[8..] == bs[8..] + more;
    } else if wire == WT_STRING {
      DelimitedStable(bs, more);
    } else {
      assert (bs + more)[4..] == bs[4..] + more;
    }
  }

  lemma ScalarStable(f: Field, bs: Bytes, more: Bytes)
    requires !f.ltype.Submessage? && DecodeScalar(f, bs).Some?
    ensures DecodeScalar(f, bs + more) == Some((DecodeScalar(f, bs).value.0, DecodeScalar(f, bs).value.1 + more))
  {
    if f.ltype.Varint? || f.ltype.UVarint? || f.ltype.SVarint? {
      Parse64Stable(bs, more);
    } else if f.ltype.Fixed32? {
      assert (bs + more)[..4] == bs[..4] && (bs + more)[4..] == bs[4..] + more;
    } else if f.ltype.Fixed64? {
      assert (bs + more)[..8] == bs[..8] && (bs + more)[8..] == bs[8..] + more;
    } else {
      DelimitedStable(bs, more);
    }
  }

  lemma ValueStable(f: Field, base: Value, bs: Bytes, more: Bytes)
    requires DecodeValue(f, base, bs).Some?
    ensures DecodeValue(f, base, bs + more)
         == Some((DecodeValue(f, base, bs).value.0, DecodeValue(f, base, bs).value.1 + more))
  {
    if f.ltype.Submessage? {
      DelimitedStable(bs, more);
    } else {
      ScalarStable(f, bs, more);
    }
  }

  lemma FieldStable(f: Field, wire: nat, m: Message, bs: Bytes, more: Bytes)
    requires DecodeField(f, wire, m, bs).Some?
    ensures DecodeField(f, wire, m, bs + more)
         == Some((DecodeField(f, wire, m, bs).value.0, DecodeField(f, wire, m, bs).value.1 + more))
  {
    if f.htype.Repeated? {
      if wire == WT_STRING && Packable(f.ltype) {
        DelimitedStable(bs, more);
      } else {
        ValueStable(f, DefaultValue(f), bs, more);
      }
    } else {
      ValueStable(f, if f.htype.OneOf? then DefaultValue(f) else OldValue(f, m), bs, more);
    }
  }

  function Extend(p: Progress, more: Bytes): Progress {
    p.(rest := p.rest + more)
  }

  /** A round of the loop that stores or skips a field does the same when more bytes follow. */
  lemma StepStable(fields: seq<Field>, p: Progress, more: Bytes)
    requires p.rest != [] && Step(fields, p).Some? && Step(fields, p).value.1
    ensures Step(fields, Extend(p, more)) == Some((Extend(Step(fields, p).value.0, more), true))
  {
    Parse32Stable(p.rest, more);
    var t := ReadTag(p.rest);
    match Find(fields, t.tag) {
      case None => SkipFieldStable(t.wire, t.rest, more);
      case Some(i) => FieldStable(fields[i], t.wire, p.m, t.rest, more);
    }
  }

  // ---------- the merge law ----------

  lemma {:induction false} CleanMerges(fields: seq<Field>, p: Progress, b: Bytes)
    requires Clean(fields, p)
    ensures Loop(fields, p).Some? && Loop(fields, p).value.rest == []
    ensures Loop(fields, Extend(p, b)) == Loop(fields, Loop(fields, p).value.(rest := b))
    decreases |p.rest|
  {
    if p.rest == [] {
      assert Extend(p, b) == p.(rest := b);
    } else {
      StepStable(fields, p, b);
      CleanMerges(fields, Step(fields, p).value.0, b);
    }
  }

  /** A zero key: the loop leaves the rest unread, the next decode reads it. */
  lemma ZeroKeyDiffers(fields: seq<Field>, p: Progress)
    requires p.rest != [] && V.Parse32(p.rest).Some? && V.Parse32(p.rest).value.0 == 0
    ensures Loop(fields, p).Some?
    ensures Loop(fields, Extend(p, [0])) != Loop(fields, Loop(fields, p).value.(rest := [0]))
  {
    Parse32Stable(p.rest, [0]);
    var tail := V.Parse32(p.rest).value.1;
    assert ReadTag(Extend(p, [0]).rest) == Eof(tail + [0]);
    assert Step(fields, Extend(p, [0])) == Some((Extend(p, [0]).(rest := tail + [0]), false));
    assert Loop(fields, Extend(p, [0])).value.rest == tail + [0];
    assert V.Parse([0], V.GROUPS_32) == Some((0, []));
    assert ReadTag([0]) == Eof([]);
  }

  const CONTINUATIONS: Bytes := [0x80, 0x80, 0x80, 0x80, 0x80]

  /** Continuation bytes alone end a message if there are at most five, and are malformed otherwise. */
  lemma OnlyContinuations(bs: Bytes)
    requires forall i :: 0 <= i < |bs| ==> bs[i] >= 0x80
    ensures ReadTag(bs) == if |bs| <= V.GROUPS_32 then Eof([]) else Malformed
  {
    V.ParseFails(bs, V.GROUPS_32);
  }

  /** A key cut off by the end of the bytes: when more bytes follow it becomes an overlong key. */
  lemma CutOffKeyDiffers(fields: seq<Field>, p: Progress)
    requires p.rest != [] && V.Parse32(p.rest).None? && |p.rest| <= V.GROUPS_32
    ensures Loop(fields, p).Some?
    ensures Loop(fields, Extend(p, CONTINUATIONS)) != Loop(fields, Loop(fields, p).value.(rest := CONTINUATIONS))
  {
    V.ParseFails(p.rest, V.GROUPS_32);
    OnlyContinuations(p.rest);
    OnlyContinuations(CONTINUATIONS);
    OnlyContinuations(p.rest + CONTINUATIONS);
  }

  /** Bytes that tell a loop that ended early from one that ended cleanly. */
  lemma {:induction false} UncleanDiffers(fields: seq<Field>, p: Progress) returns (b: Bytes)
    requires Loop(fields, p).Some? && !Clean(fields, p)
    ensures Loop(fields, Extend(p, b)) != Loop(fields, Loop(fields, p).value.(rest := b))
    decreases |p.rest|
  {
    var (p', more) := Step(fields, p).value;
    if more {
      b := UncleanDiffers(fields, p');
      StepStable(fields, p, b);
    } else if V.Parse32(p.rest).Some? {
      b := [0];
      ZeroKeyDiffers(fields, p);
    } else {
      b := CONTINUATIONS;
      CutOffKeyDiffers(fields, p);
    }
  }

  /** Decoding `a + b` is decoding `a`, then `b`, whatever `b` is, exactly when `a` ends between two fields. */
  lemma MergeLaw(fields: seq<Field>, m: Message, seen: set<nat>, a: Bytes)
    requires Loop(fields, Progress(m, seen, a)).Some?
    ensures Clean(fields, Progress(m, seen, a)) <==>
            forall b: Bytes :: Loop(fields, Progress(m, seen, a + b))
                            == Loop(fields, Loop(fields, Progress(m, seen, a)).value.(rest := b))
  {
    var p := Progress(m, seen, a);
    if Clean(fields, p) {
      forall b: Bytes
        ensures Loop(fields, Progress(m, seen, a + b)) == Loop(fields, Loop(fields, p).value.(rest := b))
      {
        CleanMerges(fields, p, b);
      }
    } else {
      var b := UncleanDiffers(fields, p);
      assert Progress(m, seen, a + b) == Extend(p, b);
    }
  }

  /** What was seen before only accumulates; it never steers the loop. */
  lemma {:induction false} SeenAccumulates(fields: seq<Field>, p: Progress, seen: set<nat>)
    ensures var with := Loop(fields, p.(seen := p.seen + seen));
            var without := Loop(fields, p);
            && (with.Some? <==> without.Some?)
            && (with.Some? ==> with.value == without.value.(seen := without.value.seen + seen))
    decreases |p.rest|
  {
    if p.rest != [] && Step(fields, p).Some? {
      var (p', more) := Step(fields, p).value;
      var q := Step(fields, p.(seen := p.seen + seen)).value.0;
      assert q == p'.(seen := p'.seen + seen);
      if more {
        SeenAccumulates(fields, p', seen);
      }
    }
  }

  /**
   `pb_decode_noinit` twice against once: the struct is the same, and the one call insists on the union of the
   required fields the two calls saw.
   */
  lemma {:induction false} MergeMessages(fields: seq<Field>, m: Message, a: Bytes, b: Bytes)
    requires Clean(fields, Progress(m, {}, a))
    ensures Loop(fields, Progress(m, {}, a)).Some?
    ensures var first := Loop(fields, Progress(m, {}, a)).value;
            var second := Loop(fields, Progress(first.m, {}, b));
            DecodeMessage(fields, m, a + b) ==
              if second.Some? && AllRequiredSeen(fields, first.seen + second.value.seen)
              then Some((second.value.m, second.value.rest)) else None
  {
    var p := Progress(m, {}, a);
    CleanMerges(fields, p, b);
    var first := Loop(fields, p).value;
    SeenAccumulates(fields, Progress(first.m, {}, b), first.seen);
    assert first.(rest := b) == Progress(first.m, {} + first.seen, b);
    assert Extend(p, b) == Progress(m, {}, a + b);
    var second := Loop(fields, Progress(first.m, {}, b));
    if second.Some? {
      assert second.value.seen + first.seen == first.seen + second.value.seen;
    }
  }

  /**
   Last One Wins: the encodings of two messages, one behind the other, decode exactly if the arrays have room for
   the entries of both, and then to the second message merged into the first. The reader may lack any of the
   writer's fields.
   */
  lemma {:induction false} LastOneWins(fields': seq<Field>, fields: seq<Field>, m1: Message, m2: Message)
    requires WellFormed(fields) && WellFormed(fields') && NarrowerAll(fields', fields)
    requires Fits(fields, m1) && Fits(fields, m2) && ShortFields(fields, m1) && ShortFields(fields, m2)
    ensures EncodeFields(fields, m1).Some? && EncodeFields(fields, m2).Some?
    ensures var bs1, bs2 := EncodeFields(fields, m1).value, EncodeFields(fields, m2).value;
            var first, both := Decode(fields', bs1), Decode(fields', bs1 + bs2);
            && first.Some? && SameMessage(fields', m1, first.value.0)
            && (both.Some? <==> RoomBehind(fields', m1, m2))
            && (both.Some? ==> both.value.1 == [] && MergedMessage(fields', first.value.0, m2, both.value.0))
  {
    RoundTrip.FieldsEncode(fields, m1);
    RoundTrip.FieldsEncode(fields, m2);
    var bs1, bs2 := EncodeFields(fields, m1).value, EncodeFields(fields, m2).value;
    RoundTrip.MessageRoundTrip(fields', fields, m1);
    var first := Decode(fields', bs1).value.0;
    RoundTrip.NarrowerFitsAll(fields', fields, m1);
    RoundTrip.NarrowerFitsAll(fields', fields, m2);
    RoomAfter(fields', m1, first, m2);
    if Room(fields', first, m2) {
      RoundTrip.MessageMerged(fields', fields, first, m2);
    } else {
      Overflow.MessageFails(fields', fields, first, m2);
    }
    hide EncodeFields, MergedMessage, SameMessage, Clean, WellFormed, Fits, ShortFields, Loop, Room, RoomBehind, Shaped;
    MergeMessages(fields', Defaults(fields'), bs1, bs2);
  }

  /** A key cut off at the end of the input is taken for the end of the message. */
  lemma CutOffKeyIsAccepted(fields: seq<Field>, m: Message)
    ensures Loop(fields, Progress(m, {}, [0x80])) == Some(Progress(m, {}, []))
    ensures !Clean(fields, Progress(m, {}, [0x80]))
  {
    V.ParseFails([0x80], V.GROUPS_32);
  }
}
