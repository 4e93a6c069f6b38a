/** With ciphers that never refuse, a flush gets through, and it does not cut messages into more pieces than needed. */
module DtlsProgress {
  import opened Basics
  import opened DtlsWire
  import opened DtlsRecord
  import opened DtlsSend
  import T = DtlsTiling

  /** Record header and expansion of the cipher a message is sealed with. */
  function Overhead(w: WriteState, msg: OutMsg): nat {
    13 + if w.epoch >= 1 && msg.epoch + 1 == w.epoch then w.lastAead.maxOverhead else w.aead.maxOverhead
  }

  /** The least room in which a piece of the message can be sealed: one byte, behind a fragment header. */
  function Needed(w: WriteState, msg: OutMsg): nat {
    Overhead(w, msg) + if msg.isCcs then 1 else 13
  }

  // ---------- packets are filled ----------

  /**
   Why a packet of a flight that is not finished was closed: its last fragment takes all that was left, or what is
   left cannot hold a piece of the next message.
   */
  predicate Filled(w: WriteState, f: Flight, records: seq<Record>, size: nat)
    requires f.written < |f.msgs|
  {
    var msg, n := f.msgs[f.written], |records|;
    n > 0 &&
    if f.offset > 0 then Size(records[..n - 1]) + Overhead(w, msg) + |records[n - 1].plaintext| == size
    else size < Size(records) + Needed(w, msg)
  }

  lemma SealedFills(w: WriteState, msg: OutMsg, offset: nat, room: nat)
    requires WriteOk(w)
    ensures var (w', result) := SealedMessage(w, msg, offset, room);
            && w'.epoch == w.epoch && w'.aead == w.aead && w'.lastAead == w.lastAead
            && (result.NoProgress? ==> room < Needed(w, msg))
            && (result.SealPartial? ==>
                  result.newOffset > 0 && Overhead(w, msg) + |result.record.plaintext| == room)
  {
    hide AeadOk, Parsed;
    Prefixes(w);
  }

  lemma Prefixes(w: WriteState)
    requires WriteOk(w)
    ensures w.aead.nonceLen <= w.aead.maxOverhead && w.lastAead.nonceLen <= w.lastAead.maxOverhead
  {
  }

  lemma {:induction false} PackedFills(w: WriteState, f: Flight, room: nat, acc: seq<Record>)
    requires WriteOk(w) && FlightOk(f) && (acc != [] ==> f.offset == 0)
    ensures var p := Packed(w, f, room, acc);
            p.ok && p.f.written < |f.msgs| ==> Filled(w, p.f, p.records, Size(acc) + room)
    decreases |f.msgs| - f.written
  {
    hide Packed, SealedMessage, Length, WriteOk, Overhead, Needed, Size, SealedWith;
    if f.written == |f.msgs| {
      PackedEnd(w, f, room, acc);
    } else {
      PackedRound(w, f, room, acc);
      SealedFills(w, f.msgs[f.written], f.offset, room);
      MessageSealed(w, f.msgs[f.written], f.offset, room);
      var (w', result) := SealedMessage(w, f.msgs[f.written], f.offset, room);
      if result.SealSuccess? {
        var next := Flight(f.msgs, f.written + 1, 0);
        SizeOne(acc, result.record);
        PackedFills(w', next, room - Length(result.record), acc + [result.record]);
        SameNeed(w, w');
      } else if result.SealPartial? {
        assert (acc + [result.record])[..|acc|] == acc;
      }
    }
  }

  lemma SizeOne(rs: seq<Record>, r: Record)
    ensures Size(rs + [r]) == Size(rs) + Length(r)
  {
    assert (rs + [r])[..|rs|] == rs;
  }

  lemma SameNeed(w: WriteState, w': WriteState)
    requires w'.epoch == w.epoch && w'.aead == w.aead && w'.lastAead == w.lastAead
    ensures forall msg :: Overhead(w', msg) == Overhead(w, msg) && Needed(w', msg) == Needed(w, msg)
  {
  }

  // ---------- a flush gets through ----------

  /** The cipher seals whatever it is given. */
  ghost predicate NeverRefuses(a: Aead) {
    forall t, v, e, n, bs :: a.seal(t, v, e, n, bs).Some?
  }

  /** At most this many records are left to be sealed: one for each byte and one for each message. */
  function Steps(f: Flight): nat
    requires FlightOk(f)
    decreases |f.msgs| - f.written
  {
    if f.written == |f.msgs| then 0
    else |f.msgs[f.written].data| - f.offset + 1 + Steps(Flight(f.msgs, f.written + 1, 0))
  }

  /** A message as the sender adds it, in an epoch the writer still has keys for, and a packet that can hold a piece. */
  predicate Sendable(w: WriteState, msg: OutMsg, mtu: nat) {
    && (msg.epoch == w.epoch || (w.epoch >= 1 && msg.epoch == w.epoch - 1))
    && (msg.isCcs || Parsed(msg).Some?) && Needed(w, msg) <= mtu
  }

  ghost predicate Healthy(w: WriteState, f: Flight, mtu: nat) {
    && WriteOk(w) && NeverRefuses(w.aead) && NeverRefuses(w.lastAead) && T.Inside(f) && mtu < TWO_TO_16
    && w.counter + Steps(f) < TWO_TO_48 && w.lastCounter + Steps(f) < TWO_TO_48
    && forall i :: 0 <= i < |f.msgs| ==> Sendable(w, f.msgs[i], mtu)
  }

  lemma RecordSealed(w: WriteState, maxOut: nat, rtype: byte, input: Bytes, previous: bool)
    requires WriteOk(w) && NeverRefuses(w.aead) && NeverRefuses(w.lastAead) && (previous ==> w.epoch >= 1)
    requires 13 + (if previous then w.lastAead else w.aead).maxOverhead + |input| <= maxOut < TWO_TO_16
    requires w.counter + 1 < TWO_TO_48 && w.lastCounter + 1 < TWO_TO_48
    ensures var (w', r) := Sealed(w, maxOut, rtype, input, previous);
            && r.Some? && r.value.plaintext == input
            && w' == (if previous then w.(lastCounter := w.lastCounter + 1) else w.(counter := w.counter + 1))
  {
  }

  /** In enough room, the next piece is sealed; in too little, nothing happens. */
  lemma MessageSeals(w: WriteState, f: Flight, mtu: nat, room: nat)
    requires Healthy(w, f, mtu) && f.written < |f.msgs| && room <= mtu
    ensures var (w', result) := SealedMessage(w, f.msgs[f.written], f.offset, room);
            && (result.NoProgress? <==> room < Needed(w, f.msgs[f.written]))
            && !result.SealError?
            && (if result.NoProgress? then w' == w
                else w' == w.(counter := w'.counter, lastCounter := w'.lastCounter)
                     && w'.counter <= w.counter + 1 && w'.lastCounter <= w.lastCounter + 1)
  {
    hide NeverRefuses, AeadOk, ParseFragment, HeaderBytes;
    var msg := f.msgs[f.written];
    var previous := w.epoch >= 1 && msg.epoch == w.epoch - 1;
    assert Sendable(w, msg, mtu);
    Prefixes(w);
    if room >= Needed(w, msg) {
      if msg.isCcs {
        RecordSealed(w, room, RT_CHANGE_CIPHER_SPEC, [MT_CCS], previous);
      } else {
        var (h, body) := Parsed(msg).value;
        var todo := Min(|body| - f.offset, room - 12 - Overhead(w, msg));
        RecordSealed(w, room, RT_HANDSHAKE, Fragment(h, body, f.offset, todo), previous);
      }
    }
  }

  /** After a piece, what is left is as healthy as before, and less. */
  lemma HealthyOn(w: WriteState, w': WriteState, f: Flight, f': Flight, mtu: nat)
    requires Healthy(w, f, mtu) && f.written < |f.msgs| && T.Inside(f') && f'.msgs == f.msgs
    requires f' == Flight(f.msgs, f.written + 1, 0) || (f'.written == f.written && f'.offset > f.offset)
    requires WriteOk(w') && w' == w.(counter := w'.counter, lastCounter := w'.lastCounter)
    requires w'.counter <= w.counter + 1 && w'.lastCounter <= w.lastCounter + 1
    ensures Healthy(w', f', mtu) && Steps(f') < Steps(f)
  {
    hide WriteOk, NeverRefuses, Parsed;
    StepsOn(f, f');
    SameNeed(w, w');
    forall i | 0 <= i < |f.msgs|
      ensures Sendable(w', f.msgs[i], mtu)
    {
      assert Sendable(w, f.msgs[i], mtu);
    }
  }

  lemma StepsOn(f: Flight, f': Flight)
    requires FlightOk(f) && FlightOk(f') && f.written < |f.msgs| && f'.msgs == f.msgs
    requires f' == Flight(f.msgs, f.written + 1, 0) || (f'.written == f.written && f'.offset > f.offset)
    ensures Steps(f') < Steps(f)
  {
  }

  /** Packing goes on until something is packed, and fails never. */
  lemma {:induction false} PackedHealthy(w: WriteState, f: Flight, mtu: nat, room: nat, acc: seq<Record>)
    requires Healthy(w, f, mtu) && room <= mtu && (acc == [] ==> room == mtu && f.written < |f.msgs|)
    ensures var p := Packed(w, f, room, acc);
            && p.ok && Healthy(p.w, p.f, mtu)
            && (if acc == [] then Steps(p.f) < Steps(f) else Steps(p.f) <= Steps(f))
    decreases |f.msgs| - f.written
  {
    hide Packed, SealedMessage, Length, Steps, Needed, NeverRefuses, Parsed, SealedWith, AeadOk;
    if f.written == |f.msgs| {
      PackedEnd(w, f, room, acc);
    } else {
      var (w', result) := SealedMessage(w, f.msgs[f.written], f.offset, room);
      PackedRound(w, f, room, acc);
      MessageSeals(w, f, mtu, room);
      MessageSealed(w, f.msgs[f.written], f.offset, room);
      T.SealedIsNext(w, f, room);
      assert Sendable(w, f.msgs[f.written], mtu);
      if result.SealSuccess? {
        var next := Flight(f.msgs, f.written + 1, 0);
        HealthyOn(w, w', f, next, mtu);
        PackedHealthy(w', next, mtu, room - Length(result.record), acc + [result.record]);
      } else if result.SealPartial? {
        OffsetGrows(w, f, room);
        HealthyOn(w, w', f, f.(offset := result.newOffset), mtu);
      }
    }
  }

  lemma OffsetGrows(w: WriteState, f: Flight, room: nat)
    requires FlightOk(f) && f.written < |f.msgs|
    ensures var result := SealedMessage(w, f.msgs[f.written], f.offset, room).1;
            result.SealPartial? ==> result.newOffset > f.offset
  {
  }

  lemma HealthyOk(w: WriteState, f: Flight, mtu: nat)
    requires Healthy(w, f, mtu)
    ensures FlightOk(f)
  {
  }

  /** No write is refused. */
  predicate AllAccepted(outcomes: seq<bool>) {
    forall i :: 0 <= i < |outcomes| ==> outcomes[i]
  }

  /**
   A flush of a flight the sender has built ends only when all of it is written or a write is refused; it never
   stops at a message it could have sealed.
   */
  lemma {:induction false} FlushGetsThrough(w: WriteState, f: Flight, mtu: nat, outcomes: seq<bool>)
    requires Healthy(w, f, mtu)
    ensures var r := Flushed(w, f, mtu, outcomes);
            && !r.status.SealFailed? && !T.Loses(w, f, mtu, outcomes)
            && (AllAccepted(outcomes) && |outcomes| >= Steps(f) ==> r.status.AllWritten?)
    decreases |f.msgs| - f.written, BytesLeft(f)
  {
    HealthyOk(w, f, mtu);
    hide Packed, Healthy, Steps;
    if f.written < |f.msgs| {
      var p := Packed(w, f, mtu, []);
      PackedHealthy(w, f, mtu, mtu, []);
      if outcomes != [] && outcomes[0] {
        FlushGetsThrough(p.w, p.f, mtu, outcomes[1..]);
      }
    }
  }
}
