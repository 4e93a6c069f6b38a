/**
 What a flight looks like on the wire: over any number of interrupted and resumed flushes, the records that
 were really written cut the messages into contiguous pieces, in order, each byte exactly once.
 */
module DtlsTiling {
  import opened Basics
  import opened DtlsWire
  import opened DtlsRecord
  import opened DtlsSend

  /** A place in the flight: outgoing_written and outgoing_offset. */
  datatype Pos = Pos(written: nat, offset: nat)

  function At(f: Flight): Pos {
    Pos(f.written, f.offset)
  }

  /** `piece` is what the message holds from `offset` on, and is not empty without need. */
  predicate IsPiece(msg: OutMsg, offset: nat, h: Header, piece: Bytes) {
    match Parsed(msg)
    case None => false
    case Some((whole, body)) =>
      && offset + |piece| <= |body| && piece == body[offset..offset + |piece|]
      && (piece == [] ==> body == [])
      && h == Header(whole.mtype, |body|, whole.seqno, offset, |piece|)
  }

  /** The place behind record `r`, if `r` is the next piece of the flight. */
  function Next(msgs: seq<OutMsg>, pos: Pos, r: Record): Option<Pos> {
    if pos.written >= |msgs| || r.epoch != msgs[pos.written].epoch then None
    else
      var msg := msgs[pos.written];
      if msg.isCcs then
        if r.rtype == RT_CHANGE_CIPHER_SPEC && r.plaintext == [MT_CCS] && pos.offset == 0
        then Some(Pos(pos.written + 1, 0)) else None
      else
        match ParseFragment(r.plaintext)
        case None => None
        case Some((h, piece, rest)) =>
          if r.rtype == RT_HANDSHAKE && rest == [] && IsPiece(msg, pos.offset, h, piece) then
            Some(if pos.offset + |piece| == h.msgLen then Pos(pos.written + 1, 0)
                 else Pos(pos.written, pos.offset + |piece|))
          else None
  }

  /** The place behind a sequence of records, if each one is the piece that comes next. */
  function Walk(msgs: seq<OutMsg>, pos: Pos, rs: seq<Record>): Option<Pos> {
    if rs == [] then Some(pos)
    else
      match Walk(msgs, pos, rs[..|rs| - 1])
      case None => None
      case Some(mid) => Next(msgs, mid, rs[|rs| - 1])
  }

  lemma WalkOne(msgs: seq<OutMsg>, pos: Pos, rs: seq<Record>, r: Record)
    ensures Walk(msgs, pos, rs + [r]) ==
      match Walk(msgs, pos, rs)
      case None => None
      case Some(mid) => Next(msgs, mid, r)
  {
    assert (rs + [r])[..|rs|] == rs;
  }

  lemma {:induction false} WalkOn(msgs: seq<OutMsg>, pos: Pos, a: seq<Record>, b: seq<Record>)
    requires Walk(msgs, pos, a).Some?
    ensures Walk(msgs, pos, a + b) == Walk(msgs, Walk(msgs, pos, a).value, b)
    decreases |b|
  {
    if b == [] {
      assert a + b == a;
    } else {
      hide Walk, Next;
      var c, r := b[..|b| - 1], b[|b| - 1];
      WalkOn(msgs, pos, a, c);
      assert a + b == a + c + [r] && b == c + [r];
      WalkOne(msgs, pos, a + c, r);
      WalkOne(msgs, Walk(msgs, pos, a).value, c, r);
    }
  }

  /** Between two calls, the offset is inside the body of the current message. */
  predicate Inside(f: Flight) {
    FlightOk(f) &&
    (f.offset > 0 ==> Parsed(f.msgs[f.written]).Some? && f.offset < |Parsed(f.msgs[f.written]).value.1|)
  }

  /** A fragment record is the next piece of its message. */
  lemma FragmentIsNext(f: Flight, r: Record, len: nat)
    requires Inside(f) && f.written < |f.msgs|
    requires !f.msgs[f.written].isCcs && Parsed(f.msgs[f.written]).Some? && r.epoch == f.msgs[f.written].epoch
    requires var (h, body) := Parsed(f.msgs[f.written]).value;
             && f.offset + len <= |body| && (len == 0 ==> body == [])
             && r.rtype == RT_HANDSHAKE && r.plaintext == Fragment(h, body, f.offset, len)
    ensures var body := Parsed(f.msgs[f.written]).value.1;
            Next(f.msgs, At(f), r)
            == Some(if f.offset + len == |body| then Pos(f.written + 1, 0) else Pos(f.written, f.offset + len))
  {
    hide Parsed, ParseFragment, HeaderBytes;
    var (h, body) := Parsed(f.msgs[f.written]).value;
    var piece := body[f.offset..f.offset + len];
    var header := Header(h.mtype, h.msgLen, h.seqno, f.offset, len);
    FragmentRoundTrip(header, piece, []);
    assert r.plaintext == HeaderBytes(header) + piece + [];
  }

  /** What seal_next_message seals is the next piece. */
  lemma SealedIsNext(w: WriteState, f: Flight, maxOut: nat)
    requires Inside(f) && f.written < |f.msgs|
    ensures var result := SealedMessage(w, f.msgs[f.written], f.offset, maxOut).1;
            && (result.SealSuccess? ==> Next(f.msgs, At(f), result.record) == Some(Pos(f.written + 1, 0)))
            && (result.SealPartial? ==>
                  && Next(f.msgs, At(f), result.record) == Some(Pos(f.written, result.newOffset))
                  && Inside(f.(offset := result.newOffset)))
  {
    if f.msgs[f.written].isCcs {
      CcsIsNext(w, f, maxOut);
    } else {
      HandshakeIsNext(w, f, maxOut);
    }
    hide SealedMessage, Next, Inside;
  }

  lemma CcsIsNext(w: WriteState, f: Flight, maxOut: nat)
    requires Inside(f) && f.written < |f.msgs| && f.msgs[f.written].isCcs
    ensures var result := SealedMessage(w, f.msgs[f.written], f.offset, maxOut).1;
            && !result.SealPartial?
            && (result.SealSuccess? ==> Next(f.msgs, At(f), result.record) == Some(Pos(f.written + 1, 0)))
  {
    hide SealedHandshake;
  }

  lemma HandshakeIsNext(w: WriteState, f: Flight, maxOut: nat)
    requires Inside(f) && f.written < |f.msgs| && !f.msgs[f.written].isCcs
    ensures var result := SealedMessage(w, f.msgs[f.written], f.offset, maxOut).1;
            && (result.SealSuccess? ==> Next(f.msgs, At(f), result.record) == Some(Pos(f.written + 1, 0)))
            && (result.SealPartial? ==>
                  && Next(f.msgs, At(f), result.record) == Some(Pos(f.written, result.newOffset))
                  && Inside(f.(offset := result.newOffset)))
  {
    hide Parsed, Next, SealedCcs;
    var result := SealedMessage(w, f.msgs[f.written], f.offset, maxOut).1;
    if result.SealSuccess? || result.SealPartial? {
      FragmentIsNext(f, result.record, |result.record.plaintext| - HM_HEADER_LENGTH);
    }
  }

  /** Every packet continues where the last one stopped. */
  lemma {:induction false} PackedWalks(w: WriteState, f: Flight, room: nat, acc: seq<Record>, start: Pos)
    requires Inside(f) && Walk(f.msgs, start, acc) == Some(At(f))
    ensures var p := Packed(w, f, room, acc); Inside(p.f) && Walk(f.msgs, start, p.records) == Some(At(p.f))
    decreases |f.msgs| - f.written
  {
    hide SealedMessage, Next;
    if f.written < |f.msgs| {
      PackedRound(w, f, room, acc);
      SealedIsNext(w, f, room);
      var (w', result) := SealedMessage(w, f.msgs[f.written], f.offset, room);
      if result.SealSuccess? {
        WalkOne(f.msgs, start, acc, result.record);
        PackedWalks(w', Flight(f.msgs, f.written + 1, 0), room - Length(result.record), acc + [result.record], start);
      } else if result.SealPartial? {
        WalkOne(f.msgs, start, acc, result.record);
      }
    }
  }

  function Records(packets: seq<seq<Record>>): seq<Record> {
    if packets == [] then [] else packets[0] + Records(packets[1..])
  }

  // ---------- who falls behind never catches up ----------

  predicate Earlier(a: Pos, b: Pos) {
    a.written < b.written || (a.written == b.written && a.offset < b.offset)
  }

  /** The records lead to an earlier place, or are not the pieces of the flight in order. */
  predicate FallsShort(reached: Option<Pos>, pos: Pos) {
    reached.Some? ==> Earlier(reached.value, pos)
  }

  lemma NextFallsShort(msgs: seq<OutMsg>, pos: Pos, ahead: Pos, r: Record)
    requires Earlier(pos, ahead) && Next(msgs, ahead, r).Some?
    ensures FallsShort(Next(msgs, pos, r), Next(msgs, ahead, r).value)
  {
  }

  lemma {:induction false} WalkFallsShort(msgs: seq<OutMsg>, pos: Pos, ahead: Pos, rs: seq<Record>)
    requires Earlier(pos, ahead) && Walk(msgs, ahead, rs).Some?
    ensures FallsShort(Walk(msgs, pos, rs), Walk(msgs, ahead, rs).value)
    decreases |rs|
  {
    hide Next;
    if rs != [] {
      var init, r := rs[..|rs| - 1], rs[|rs| - 1];
      WalkFallsShort(msgs, pos, ahead, init);
      if Walk(msgs, pos, init).Some? {
        NextFallsShort(msgs, Walk(msgs, pos, init).value, Walk(msgs, ahead, init).value, r);
      }
    }
  }

  lemma {:induction false} WalkStopped(msgs: seq<OutMsg>, pos: Pos, a: seq<Record>, b: seq<Record>)
    requires Walk(msgs, pos, a).None?
    ensures Walk(msgs, pos, a + b).None?
    decreases |b|
  {
    if b == [] {
      assert a + b == a;
    } else {
      hide Walk, Next;
      var c, r := b[..|b| - 1], b[|b| - 1];
      WalkStopped(msgs, pos, a, c);
      assert a + b == a + c + [r];
      WalkOne(msgs, pos, a + c, r);
    }
  }

  /** Later records, which continue from where the flight has got to, do not fill a gap. */
  lemma ShortStaysShort(msgs: seq<OutMsg>, a: seq<Record>, b: seq<Record>, ahead: Pos)
    requires FallsShort(Walk(msgs, Pos(0, 0), a), ahead) && Walk(msgs, ahead, b).Some?
    ensures FallsShort(Walk(msgs, Pos(0, 0), a + b), Walk(msgs, ahead, b).value)
  {
    hide Walk, Next;
    var reached := Walk(msgs, Pos(0, 0), a);
    if reached.None? {
      WalkStopped(msgs, Pos(0, 0), a, b);
    } else {
      WalkOn(msgs, Pos(0, 0), a, b);
      WalkFallsShort(msgs, reached.value, ahead, b);
    }
  }

  // ---------- one flush ----------

  /** A flush loses records when it seals some for a packet and then fails: the flight stays behind them. */
  predicate Loses(w: WriteState, f: Flight, mtu: nat, outcomes: seq<bool>)
    requires FlightOk(f)
    decreases |f.msgs| - f.written, BytesLeft(f)
  {
    f.written < |f.msgs| &&
    var p := Packed(w, f, mtu, []);
    if !p.ok then p.f != f else outcomes != [] && outcomes[0] && Loses(p.w, p.f, mtu, outcomes[1..])
  }

  /** What a flush writes continues the flight, up to where it has got to or, after a loss, less far. */
  lemma {:induction false} FlushedWalks(w: WriteState, f: Flight, mtu: nat, outcomes: seq<bool>)
    requires Inside(f)
    ensures var r := Flushed(w, f, mtu, outcomes);
            var reached := Walk(f.msgs, At(f), Records(r.packets));
            && Inside(r.f) && reached.Some?
            && (if Loses(w, f, mtu, outcomes) then Earlier(reached.value, At(r.f)) else reached.value == At(r.f))
    decreases |f.msgs| - f.written, BytesLeft(f)
  {
    if f.written < |f.msgs| {
      var p := Packed(w, f, mtu, []);
      PackedWalks(w, f, mtu, [], At(f));
      if p.ok && outcomes != [] && outcomes[0] {
        FlushedWalks(p.w, p.f, mtu, outcomes[1..]);
        var rest := Flushed(p.w, p.f, mtu, outcomes[1..]);
        assert Flushed(w, f, mtu, outcomes).packets == [p.records] + rest.packets;
        WalkOn(f.msgs, At(f), p.records, Records(rest.packets));
      }
    }
  }

  /** What a flush writes, the ciphers of the writer have sealed. */
  lemma {:induction false} FlushedSealed(w: WriteState, f: Flight, mtu: nat, outcomes: seq<bool>)
    requires WriteOk(w) && FlightOk(f)
    ensures var r := Flushed(w, f, mtu, outcomes);
            SameCiphers(w, r.w) && forall record :: record in Records(r.packets) ==> SealedWith(w, record)
    decreases |f.msgs| - f.written, BytesLeft(f)
  {
    hide Packed, RecordOk, SealedBy, WriteOk;
    if f.written < |f.msgs| {
      var p := Packed(w, f, mtu, []);
      PackedSealed(w, f, mtu, []);
      if p.ok && outcomes != [] && outcomes[0] {
        assert forall r :: SealedWith(p.w, r) <==> SealedWith(w, r);
        FlushedSealed(p.w, p.f, mtu, outcomes[1..]);
        var rest := Flushed(p.w, p.f, mtu, outcomes[1..]).packets;
        assert ([p.records] + rest)[1..] == rest;
      }
    }
  }

  // ---------- interrupted and resumed flushes ----------

  /** A call of send_flight: the MTU and how the writes fare. */
  datatype Attempt = Attempt(mtu: nat, outcomes: seq<bool>)

  datatype Transmission = Transmission(w: WriteState, f: Flight, packets: seq<seq<Record>>)

  /** A flush that is resumed any number of times. */
  function Resumed(w: WriteState, f: Flight, attempts: seq<Attempt>): (t: Transmission)
    requires FlightOk(f)
    ensures FlightOk(t.f) && t.f.msgs == f.msgs
    decreases |attempts|
  {
    if attempts == [] then Transmission(w, f, [])
    else
      var before := Resumed(w, f, attempts[..|attempts| - 1]);
      var a := attempts[|attempts| - 1];
      var r := Flushed(before.w, before.f, a.mtu, a.outcomes);
      Transmission(r.w, r.f, before.packets + r.packets)
  }

  predicate LosesAny(w: WriteState, f: Flight, attempts: seq<Attempt>)
    requires FlightOk(f)
    decreases |attempts|
  {
    attempts != [] &&
    var init, a := attempts[..|attempts| - 1], attempts[|attempts| - 1];
    var before := Resumed(w, f, init);
    LosesAny(w, f, init) || Loses(before.w, before.f, a.mtu, a.outcomes)
  }

  lemma {:induction false} RecordsAppend(a: seq<seq<Record>>, b: seq<seq<Record>>)
    ensures Records(a + b) == Records(a) + Records(b)
  {
    if a == [] {
      assert a + b == b;
    } else {
      assert (a + b)[1..] == a[1..] + b;
      RecordsAppend(a[1..], b);
    }
  }

  /**
   The written records are exactly the pieces up to where the flight has got to, if and only if no attempt lost
   records. An attempt that fails before it has sealed anything loses none, for example one at too small an MTU.
   */
  lemma {:induction false} FlightTiled(w: WriteState, msgs: seq<OutMsg>, attempts: seq<Attempt>)
    ensures var t := Resumed(w, Flight(msgs, 0, 0), attempts);
            var reached := Walk(msgs, Pos(0, 0), Records(t.packets));
            && Inside(t.f)
            && (reached == Some(At(t.f)) <==> !LosesAny(w, Flight(msgs, 0, 0), attempts))
            && (reached != Some(At(t.f)) ==> FallsShort(reached, At(t.f)))
    decreases |attempts|
  {
    if attempts != [] {
      var init, a := attempts[..|attempts| - 1], attempts[|attempts| - 1];
      FlightTiled(w, msgs, init);
      var before := Resumed(w, Flight(msgs, 0, 0), init);
      FlushedWalks(before.w, before.f, a.mtu, a.outcomes);
      var r := Flushed(before.w, before.f, a.mtu, a.outcomes);
      RecordsAppend(before.packets, r.packets);
      hide Walk, Flushed, Loses, Records;
      if LosesAny(w, Flight(msgs, 0, 0), init) {
        ShortStaysShort(msgs, Records(before.packets), Records(r.packets), At(before.f));
      } else {
        WalkOn(msgs, Pos(0, 0), Records(before.packets), Records(r.packets));
      }
    }
  }

  // ---------- each byte exactly once ----------

  /** Whether record `r` carries byte `k` of the message with number `s`. */
  predicate Carries(r: Record, s: nat, k: nat) {
    r.rtype == RT_HANDSHAKE &&
    match ParseFragment(r.plaintext)
    case None => false
    case Some((h, _, _)) => h.seqno == s && h.off <= k < h.off + h.len
  }

  function Carriers(rs: seq<Record>, s: nat, k: nat): nat {
    if rs == [] then 0
    else Carriers(rs[..|rs| - 1], s, k) + if Carries(rs[|rs| - 1], s, k) then 1 else 0
  }

  /** Place `(i, k)` lies before `pos`. */
  predicate Before(i: nat, k: nat, pos: Pos) {
    i < pos.written || (i == pos.written && k < pos.offset)
  }

  predicate IsHandshake(msg: OutMsg) {
    !msg.isCcs && Parsed(msg).Some?
  }

  ghost predicate DistinctNumbers(msgs: seq<OutMsg>) {
    forall i, j :: 0 <= i < j < |msgs| && IsHandshake(msgs[i]) && IsHandshake(msgs[j]) ==>
      Parsed(msgs[i]).value.0.seqno != Parsed(msgs[j]).value.0.seqno
  }

  /** One piece carries exactly the bytes it moves past. */
  lemma PieceCarries(msgs: seq<OutMsg>, pos: Pos, r: Record, i: nat, k: nat)
    requires DistinctNumbers(msgs) && Next(msgs, pos, r).Some?
    requires i < |msgs| && IsHandshake(msgs[i]) && k < |Parsed(msgs[i]).value.1|
    ensures Carries(r, Parsed(msgs[i]).value.0.seqno, k)
       <==> !Before(i, k, pos) && Before(i, k, Next(msgs, pos, r).value)
    ensures Before(i, k, pos) ==> Before(i, k, Next(msgs, pos, r).value)
  {
  }

  /** A transmission of a whole flight carries every byte of every handshake message exactly once. */
  lemma {:induction false} EachByteOnce(msgs: seq<OutMsg>, rs: seq<Record>, i: nat, k: nat)
    requires DistinctNumbers(msgs) && Walk(msgs, Pos(0, 0), rs).Some?
    requires i < |msgs| && IsHandshake(msgs[i]) && k < |Parsed(msgs[i]).value.1|
    ensures Carriers(rs, Parsed(msgs[i]).value.0.seqno, k)
         == if Before(i, k, Walk(msgs, Pos(0, 0), rs).value) then 1 else 0
    decreases |rs|
  {
    if rs != [] {
      var init := rs[..|rs| - 1];
      EachByteOnce(msgs, init, i, k);
      PieceCarries(msgs, Walk(msgs, Pos(0, 0), init).value, rs[|rs| - 1], i, k);
    }
  }
}
