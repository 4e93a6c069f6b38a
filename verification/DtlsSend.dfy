/**
 The sending side of the DTLS handshake transport (d1_both.cc): a flight of messages is cut into fragments
 that fill packets up to the MTU; a packet that cannot be written is sealed again the next time around.
 */
module DtlsSend {
  import opened Basics
  import opened DtlsWire
  import opened DtlsRecord

  // DTLS_OUTGOING_MESSAGE
  datatype OutMsg = OutMsg(data: Bytes, epoch: nat, isCcs: bool)

  /** The header and body of a message serialized as a single fragment. */
  function Parsed(msg: OutMsg): (r: Option<(Header, Bytes)>)
    ensures r.Some? ==> HeaderOk(r.value.0) && r.value.0.msgLen == |r.value.1| <= |msg.data|
  {
    match ParseFragment(msg.data)
    case None => None
    case Some((h, body, rest)) => if h.off == 0 && h.msgLen == |body| && rest == [] then Some((h, body)) else None
  }

  /** The outgoing messages and how far they have been packed: outgoing_written and outgoing_offset. */
  datatype Flight = Flight(msgs: seq<OutMsg>, written: nat, offset: nat)

  predicate FlightOk(f: Flight) {
    && f.written <= |f.msgs|
    && (f.offset > 0 ==>
          f.written < |f.msgs| && !f.msgs[f.written].isCcs && f.offset < |f.msgs[f.written].data|)
  }

  /** Bytes left in the current message, its header included. */
  function BytesLeft(f: Flight): int {
    if f.written < |f.msgs| then |f.msgs[f.written].data| - f.offset else 0
  }

  // ================= specification =================

  /** A message with its header, as it is kept in the flight and hashed into the transcript. */
  function Serialized(mtype: byte, seqno: nat, body: Bytes): Bytes {
    HeaderBytes(Header(mtype, |body|, seqno, 0, |body|)) + body
  }

  datatype SealResult = SealError | NoProgress | SealPartial(record: Record, newOffset: nat) | SealSuccess(record: Record)

  function Fragment(h: Header, body: Bytes, offset: nat, len: nat): Bytes
    requires offset + len <= |body|
  {
    HeaderBytes(Header(h.mtype, h.msgLen, h.seqno, offset, len)) + body[offset..offset + len]
  }

  function SealedCcs(w: WriteState, maxOut: nat, overhead: nat, previous: bool): (WriteState, SealResult)
    requires previous ==> w.epoch >= 1
  {
    if maxOut < 1 + overhead then (w, NoProgress)
    else
      var (w', r) := Sealed(w, maxOut, RT_CHANGE_CIPHER_SPEC, [MT_CCS], previous);
      (w', if r.None? then SealError else SealSuccess(r.value))
  }

  function SealedHandshake(w: WriteState, msg: OutMsg, offset: nat, maxOut: nat, overhead: nat, prefix: nat, previous: bool)
    : (WriteState, SealResult)
    requires previous ==> w.epoch >= 1
  {
    match Parsed(msg)
    case None => (w, SealError)
    case Some((h, body)) =>
      if offset > |body| then (w, SealError)
      else if maxOut < HM_HEADER_LENGTH + 1 + overhead || maxOut < prefix then (w, NoProgress)
      else
        var todo := Min(|body| - offset, maxOut - HM_HEADER_LENGTH - overhead);
        if HM_HEADER_LENGTH + todo > maxOut - prefix then (w, SealError)
        else
          var (w', r) := Sealed(w, maxOut, RT_HANDSHAKE, Fragment(h, body, offset, todo), previous);
          (w', if r.None? then SealError
               else if todo == |body| - offset then SealSuccess(r.value) else SealPartial(r.value, offset + todo))
  }

  /** seal_next_message: in the epoch of the message, which is the current or the previous one */
  function SealedMessage(w: WriteState, msg: OutMsg, offset: nat, maxOut: nat): (WriteState, SealResult) {
    var previous := w.epoch >= 1 && msg.epoch == w.epoch - 1;
    var cipher := if previous then w.lastAead else w.aead;
    var overhead, prefix := RT_HEADER_LENGTH + cipher.maxOverhead, RT_HEADER_LENGTH + cipher.nonceLen;
    if !previous && msg.epoch != w.epoch then (w, SealError)
    else if msg.isCcs then SealedCcs(w, maxOut, overhead, previous)
    else SealedHandshake(w, msg, offset, maxOut, overhead, prefix, previous)
  }

  function OffsetAfter(offset: nat, result: SealResult): nat {
    match result
    case SealSuccess(_) => 0
    case SealPartial(_, newOffset) => newOffset
    case _ => offset
  }

  datatype Packing = Packing(w: WriteState, f: Flight, records: seq<Record>, ok: bool)

  /** The packet is further than the flight was. */
  predicate Further(f: Flight, f': Flight) {
    f.written < f'.written || (f.written == f'.written && f.offset < f'.offset)
  }

  function Size(rs: seq<Record>): nat {
    if rs == [] then 0 else Size(rs[..|rs| - 1]) + Length(rs[|rs| - 1])
  }

  /** seal_next_packet, behind the records `acc` already packed; `room` bytes are left. */
  function Packed(w: WriteState, f: Flight, room: nat, acc: seq<Record>): (p: Packing)
    requires FlightOk(f)
    ensures FlightOk(p.f) && p.f.msgs == f.msgs && f.written <= p.f.written
    ensures Further(f, p.f) || (p.f == f && (p.ok ==> acc != []))
    decreases |f.msgs| - f.written
  {
    if f.written == |f.msgs| then Packing(w, f, acc, acc != [])
    else
      var (w', result) := SealedMessage(w, f.msgs[f.written], f.offset, room);
      match result
      case SealError => Packing(w', f, acc, false)
      case NoProgress => Packing(w', f, acc, acc != [])
      case SealPartial(r, offset) => Packing(w', f.(offset := offset), acc + [r], true)
      case SealSuccess(r) => Packed(w', Flight(f.msgs, f.written + 1, 0), room - Length(r), acc + [r])
  }

  /** What is left of a message begins behind its first byte and before its last. */
  lemma SealedPartly(w: WriteState, f: Flight, room: nat)
    requires FlightOk(f) && f.written < |f.msgs|
    ensures var result := SealedMessage(w, f.msgs[f.written], f.offset, room).1;
            && (result.SealPartial? ==> FlightOk(f.(offset := result.newOffset)))
            && (result.SealPartial? || result.SealSuccess? ==> Length(result.record) <= room)
  {
  }

  /** One round of the loop of seal_next_packet: Left with the result, or on to the next message. */
  lemma PackedRound(w: WriteState, f: Flight, room: nat, acc: seq<Record>)
    requires FlightOk(f) && f.written < |f.msgs|
    ensures var (w', result) := SealedMessage(w, f.msgs[f.written], f.offset, room);
            && (result.SealError? ==> Packed(w, f, room, acc) == Packing(w', f, acc, false))
            && (result.NoProgress? ==> Packed(w, f, room, acc) == Packing(w', f, acc, acc != []))
            && (result.SealPartial? ==>
                  Packed(w, f, room, acc) == Packing(w', f.(offset := result.newOffset), acc + [result.record], true)
                  && FlightOk(f.(offset := result.newOffset)))
            && (result.SealSuccess? ==>
                  && Length(result.record) <= room
                  && Packed(w, f, room, acc)
                  == Packed(w', Flight(f.msgs, f.written + 1, 0), room - Length(result.record), acc + [result.record]))
  {
    hide SealedMessage;
    SealedPartly(w, f, room);
  }

  lemma PackedEnd(w: WriteState, f: Flight, room: nat, acc: seq<Record>)
    requires FlightOk(f) && f.written == |f.msgs|
    ensures Packed(w, f, room, acc) == Packing(w, f, acc, acc != [])
  {
    hide SealedMessage;
  }

  /** One of the ciphers of the writer sealed the record. */
  predicate SealedWith(w: WriteState, r: Record) {
    RecordOk(r) && (SealedBy(r, w.aead) || SealedBy(r, w.lastAead))
  }

  ghost predicate SameCiphers(w: WriteState, w': WriteState) {
    WriteOk(w') && w'.aead == w.aead && w'.lastAead == w.lastAead
  }

  /** Whatever was sealed on the way from `w` to `r.0`, the ciphers of `w` sealed it. */
  ghost predicate SealedFaithfully(w: WriteState, r: (WriteState, SealResult)) {
    SameCiphers(w, r.0) && (r.1.SealSuccess? || r.1.SealPartial? ==> SealedWith(w, r.1.record))
  }

  lemma CcsSealed(w: WriteState, maxOut: nat, overhead: nat, previous: bool)
    requires WriteOk(w) && (previous ==> w.epoch >= 1)
    ensures SealedFaithfully(w, SealedCcs(w, maxOut, overhead, previous))
  {
    hide RecordOk, SealedBy;
    SealedByWriter(w, maxOut, RT_CHANGE_CIPHER_SPEC, [MT_CCS], previous);
  }

  lemma HandshakeSealed(
      w: WriteState, msg: OutMsg, offset: nat, maxOut: nat, overhead: nat, prefix: nat, previous: bool)
    requires WriteOk(w) && (previous ==> w.epoch >= 1)
    ensures SealedFaithfully(w, SealedHandshake(w, msg, offset, maxOut, overhead, prefix, previous))
  {
    hide RecordOk, SealedBy, Fragment, Parsed;
    if Parsed(msg).Some? {
      var (h, body) := Parsed(msg).value;
      if offset <= |body| && maxOut >= HM_HEADER_LENGTH + 1 + overhead {
        var todo := Min(|body| - offset, maxOut - HM_HEADER_LENGTH - overhead);
        SealedByWriter(w, maxOut, RT_HANDSHAKE, Fragment(h, body, offset, todo), previous);
      }
    }
  }

  lemma MessageSealed(w: WriteState, msg: OutMsg, offset: nat, maxOut: nat)
    requires WriteOk(w)
    ensures SealedFaithfully(w, SealedMessage(w, msg, offset, maxOut))
  {
    hide SealedCcs, SealedHandshake, SealedWith;
    var previous := w.epoch >= 1 && msg.epoch == w.epoch - 1;
    var cipher := if previous then w.lastAead else w.aead;
    var overhead, prefix := RT_HEADER_LENGTH + cipher.maxOverhead, RT_HEADER_LENGTH + cipher.nonceLen;
    CcsSealed(w, maxOut, overhead, previous);
    HandshakeSealed(w, msg, offset, maxOut, overhead, prefix, previous);
  }

  lemma {:induction false} PackedSealed(w: WriteState, f: Flight, room: nat, acc: seq<Record>)
    requires WriteOk(w) && FlightOk(f) && forall r :: r in acc ==> SealedWith(w, r)
    ensures var p := Packed(w, f, room, acc);
            SameCiphers(w, p.w) && forall r :: r in p.records ==> SealedWith(w, r)
    decreases |f.msgs| - f.written
  {
    hide Packed, SealedMessage, Length, RecordOk, SealedBy, WriteOk;
    if f.written == |f.msgs| {
      PackedEnd(w, f, room, acc);
    } else {
      PackedRound(w, f, room, acc);
      MessageSealed(w, f.msgs[f.written], f.offset, room);
      var (w', result) := SealedMessage(w, f.msgs[f.written], f.offset, room);
      if result.SealSuccess? {
        assert forall r :: SealedWith(w', r) <==> SealedWith(w, r);
        PackedSealed(w', Flight(f.msgs, f.written + 1, 0), room - Length(result.record), acc + [result.record]);
      }
    }
  }

  datatype Status = AllWritten | WriteFailed | SealFailed

  datatype Flushing = Flushing(w: WriteState, f: Flight, packets: seq<seq<Record>>, status: Status)

  /** send_flight; `outcomes` tells which calls of BIO_write succeed, and none does after the last one. */
  function Flushed(w: WriteState, f: Flight, mtu: nat, outcomes: seq<bool>): (r: Flushing)
    requires FlightOk(f)
    ensures FlightOk(r.f) && r.f.msgs == f.msgs
    ensures r.status.AllWritten? ==> r.f.written == |f.msgs|
    decreases |f.msgs| - f.written, BytesLeft(f)
  {
    if f.written == |f.msgs| then Flushing(w, f, [], AllWritten)
    else
      var p := Packed(w, f, mtu, []);
      if !p.ok then Flushing(p.w, p.f, [], SealFailed)
      else if outcomes == [] || !outcomes[0] then Flushing(p.w, f, [], WriteFailed)
      else
        var rest := Flushed(p.w, p.f, mtu, outcomes[1..]);
        rest.(packets := [p.records] + rest.packets)
  }

  /** Everything about a flush: the new state, all the socket has accepted by then, and the result. */
  function After(sent: seq<seq<Record>>, r: Flushing): (WriteState, Flight, seq<seq<Record>>, Status) {
    (r.w, r.f, sent + r.packets, r.status)
  }

  /** One round of the loop of send_flight. */
  lemma FlushedRound(w: WriteState, f: Flight, mtu: nat, outcomes: seq<bool>, sent: seq<seq<Record>>)
    requires FlightOk(f) && f.written < |f.msgs|
    ensures var p := Packed(w, f, mtu, []);
            After(sent, Flushed(w, f, mtu, outcomes))
            == if !p.ok then (p.w, p.f, sent, SealFailed)
               else if outcomes == [] || !outcomes[0] then (p.w, f, sent, WriteFailed)
               else After(sent + [p.records], Flushed(p.w, p.f, mtu, outcomes[1..]))
  {
    hide Packed;
    var p := Packed(w, f, mtu, []);
    if p.ok && outcomes != [] && outcomes[0] {
      var rest := Flushed(p.w, p.f, mtu, outcomes[1..]).packets;
      assert sent + ([p.records] + rest) == sent + [p.records] + rest;
    } else {
      assert sent + [] == sent;
    }
  }

  lemma FlushedDone(w: WriteState, f: Flight, mtu: nat, outcomes: seq<bool>, sent: seq<seq<Record>>)
    requires FlightOk(f) && f.written == |f.msgs|
    ensures After(sent, Flushed(w, f, mtu, outcomes)) == (w, f, sent, AllWritten)
  {
    assert sent + [] == sent;
  }

  /** A packet never exceeds the room there was. */
  lemma {:induction false} PackedFits(w: WriteState, f: Flight, room: nat, acc: seq<Record>)
    requires FlightOk(f)
    ensures Size(Packed(w, f, room, acc).records) <= Size(acc) + room
    decreases |f.msgs| - f.written
  {
    hide Packed, SealedMessage, Length;
    if f.written == |f.msgs| {
      PackedEnd(w, f, room, acc);
    } else {
      PackedRound(w, f, room, acc);
      SealedPartly(w, f, room);
      var (w', result) := SealedMessage(w, f.msgs[f.written], f.offset, room);
      if result.SealSuccess? {
        assert (acc + [result.record])[..|acc|] == acc;
        PackedFits(w', Flight(f.msgs, f.written + 1, 0), room - Length(result.record), acc + [result.record]);
      } else if result.SealPartial? {
        assert (acc + [result.record])[..|acc|] == acc;
      }
    }
  }

  /** No packet exceeds the MTU. */
  lemma {:induction false} FlushedFits(w: WriteState, f: Flight, mtu: nat, outcomes: seq<bool>)
    requires FlightOk(f)
    ensures forall i :: 0 <= i < |Flushed(w, f, mtu, outcomes).packets| ==>
              Size(Flushed(w, f, mtu, outcomes).packets[i]) <= mtu
    decreases |f.msgs| - f.written, BytesLeft(f)
  {
    hide Packed;
    if f.written < |f.msgs| {
      var p := Packed(w, f, mtu, []);
      PackedFits(w, f, mtu, []);
      if p.ok && outcomes != [] && outcomes[0] {
        FlushedFits(p.w, p.f, mtu, outcomes[1..]);
      }
    }
  }

  // ================= implementation =================

  /** The datagram socket: it keeps what it accepted. */
  class Bio {
    var sent: seq<seq<Record>>
    var outcomes: seq<bool>

    constructor (schedule: seq<bool>)
      ensures sent == [] && outcomes == schedule
    {
      sent, outcomes := [], schedule;
    }

    method Write(packet: seq<Record>) returns (ok: bool)
      modifies this
      ensures ok <==> old(outcomes) != [] && old(outcomes)[0]
      ensures sent == if ok then old(sent) + [packet] else old(sent)
      ensures outcomes == if old(outcomes) == [] then [] else old(outcomes)[1..]
    {
      ok := outcomes != [] && outcomes[0];
      if ok {
        sent := sent + [packet];
      }
      if outcomes != [] {
        outcomes := outcomes[1..];
      }
    }
  }

  class DtlsSender {
    const writer: RecordWriter
    var outgoing: seq<OutMsg>       // outgoing_messages[..outgoing_messages_len]
    var written: nat                // outgoing_written
    var offset: nat                 // outgoing_offset
    var complete: bool              // outgoing_messages_complete
    var writeSeq: nat               // handshake_write_seq

    ghost function Repr(): set<object> {
      {this, writer, writer.writeSequence, writer.lastWriteSequence}
    }

    ghost predicate Valid()
      reads Repr()
    {
      writer.Valid() && FlightOk(View()) && |outgoing| <= FLIGHT && writeSeq < TWO_TO_16
    }

    ghost function View(): Flight
      reads this
    {
      Flight(outgoing, written, offset)
    }

    constructor (nullCipher: Aead)
      requires AeadOk(nullCipher)
      ensures Valid() && fresh(Repr()) && View() == Flight([], 0, 0) && !complete && writeSeq == 0
      ensures writer.View() == WriteState(0, nullCipher, nullCipher, 0, 0)
    {
      outgoing, written, offset, complete, writeSeq := [], 0, 0, false, 0;
      writer := new RecordWriter(nullCipher);
    }

    /** add_outgoing: a message after a flushed flight begins a new flight. */
    method AddOutgoing(isCcs: bool, data: Bytes) returns (ok: bool)
      requires Valid()
      modifies this
      ensures Valid()
      ensures ok <==> old(complete) || |old(outgoing)| < FLIGHT
      ensures View() == (
        var f := if old(complete) then Flight([], 0, 0) else old(View());
        if ok then f.(msgs := f.msgs + [OutMsg(data, writer.wEpoch, isCcs)]) else f)
      ensures !complete && writeSeq == if ok && !isCcs then (old(writeSeq) + 1) % TWO_TO_16 else old(writeSeq)
    {
      if complete {
        outgoing, written, offset, complete := [], 0, 0, false;
      }
      if |outgoing| >= FLIGHT {
        return false;
      }
      if !isCcs {
        writeSeq := (writeSeq + 1) % TWO_TO_16;
      }
      outgoing := outgoing + [OutMsg(data, writer.wEpoch, isCcs)];
      ok := true;
    }

    /** dtls1_init_message, dtls1_finish_message and dtls1_add_message */
    method AddMessage(mtype: byte, body: Bytes) returns (ok: bool)
      requires Valid()
      modifies this
      ensures Valid()
      ensures |body| >= TWO_TO_24 ==> !ok && View() == old(View()) && complete == old(complete) && writeSeq == old(writeSeq)
      ensures |body| < TWO_TO_24 ==>
                && (ok <==> old(complete) || |old(outgoing)| < FLIGHT)
                && View() == (
                     var f := if old(complete) then Flight([], 0, 0) else old(View());
                     if ok then f.(msgs := f.msgs + [OutMsg(Serialized(mtype, old(writeSeq), body), writer.wEpoch, false)])
                     else f)
                && !complete && writeSeq == if ok then (old(writeSeq) + 1) % TWO_TO_16 else old(writeSeq)
    {
      if |body| >= TWO_TO_24 {
        return false;
      }
      ok := AddOutgoing(false, Serialized(mtype, writeSeq, body));
    }

    /** seal_next_message */
    method SealNextMessage(maxOut: nat) returns (result: SealResult)
      requires Valid() && written < |outgoing|
      modifies this`offset, writer.writeSequence, writer.lastWriteSequence
      ensures writer.Valid()
      ensures (writer.View(), result) == SealedMessage(old(writer.View()), outgoing[written], old(offset), maxOut)
      ensures offset == OffsetAfter(old(offset), result)
    {
      hide SealedCcs, SealedHandshake;
      var msg := outgoing[written];
      var previous := false;
      if writer.wEpoch >= 1 && msg.epoch == writer.wEpoch - 1 {
        previous := true;
      } else if msg.epoch != writer.wEpoch {
        return SealError;
      }
      var overhead := writer.MaxSealOverhead(previous);
      var prefix := writer.SealPrefixLen(previous);
      if msg.isCcs {
        result := SealCcs(maxOut, overhead, previous);
      } else {
        result := SealHandshake(msg, maxOut, overhead, prefix, previous);
      }
    }

    method SealCcs(maxOut: nat, overhead: nat, previous: bool) returns (result: SealResult)
      requires writer.Valid() && (previous ==> writer.wEpoch >= 1)
      modifies writer.writeSequence, writer.lastWriteSequence
      ensures writer.Valid() && !result.SealPartial?
      ensures (writer.View(), result) == SealedCcs(old(writer.View()), maxOut, overhead, previous)
    {
      if maxOut < 1 + overhead {
        return NoProgress;
      }
      var ccs := writer.Seal(maxOut, RT_CHANGE_CIPHER_SPEC, [MT_CCS], previous);
      result := if ccs.None? then SealError else SealSuccess(ccs.value);
    }

    /** The next piece of a handshake message, as large as the packet allows. */
    method SealHandshake(msg: OutMsg, maxOut: nat, overhead: nat, prefix: nat, previous: bool) returns (result: SealResult)
      requires writer.Valid() && (previous ==> writer.wEpoch >= 1)
      modifies this`offset, writer.writeSequence, writer.lastWriteSequence
      ensures writer.Valid()
      ensures (writer.View(), result)
           == SealedHandshake(old(writer.View()), msg, old(offset), maxOut, overhead, prefix, previous)
      ensures offset == OffsetAfter(old(offset), result)
    {
      var parsed := Parsed(msg);
      if parsed.None? || offset > |parsed.value.1| {
        return SealError;
      }
      var (h, body) := parsed.value;
      if maxOut < HM_HEADER_LENGTH + 1 + overhead || maxOut < prefix {
        return NoProgress;
      }
      var todo := |body| - offset;
      if todo > maxOut - HM_HEADER_LENGTH - overhead {
        todo := maxOut - HM_HEADER_LENGTH - overhead;
      }
      if HM_HEADER_LENGTH + todo > maxOut - prefix {
        return SealError;
      }
      var record := writer.Seal(maxOut, RT_HANDSHAKE, Fragment(h, body, offset, todo), previous);
      if record.None? {
        return SealError;
      }
      if todo == |body| - offset {
        offset := 0;
        return SealSuccess(record.value);
      }
      offset := offset + todo;
      result := SealPartial(record.value, offset);
    }

    /** seal_next_packet */
    method SealNextPacket(maxOut: nat) returns (ok: bool, packet: seq<Record>)
      requires Valid() && written < |outgoing|
      modifies this`offset, this`written, writer.writeSequence, writer.lastWriteSequence
      ensures Valid()
      ensures Packing(writer.View(), View(), packet, ok) == Packed(old(writer.View()), old(View()), maxOut, [])
    {
      packet := [];
      var room := maxOut;
      var full := false;
      ghost var whole := Packed(writer.View(), View(), maxOut, []);
      while written < |outgoing|
        invariant Valid() && written <= |outgoing|
        invariant whole == Packed(writer.View(), View(), room, packet)
        decreases |outgoing| - written
      {
        full, ok, packet, room := AddToPacket(room, packet);
        if full {
          return;
        }
      }
      ok := packet != [];
    }

    /** One round of the loop of seal_next_packet; `full` tells that it is left. */
    method AddToPacket(room: nat, packet: seq<Record>) returns (full: bool, ok: bool, packet': seq<Record>, room': nat)
      requires Valid() && written < |outgoing|
      modifies this`offset, this`written, writer.writeSequence, writer.lastWriteSequence
      ensures Valid() && (if full then written == old(written) else written == old(written) + 1)
      ensures Packed(old(writer.View()), old(View()), room, packet)
           == if full then Packing(writer.View(), View(), packet', ok)
              else Packed(writer.View(), View(), room', packet')
    {
      hide SealedMessage, Packed;
      PackedRound(writer.View(), View(), room, packet);
      var result := SealNextMessage(room);
      match result {
        case SealError => return true, false, packet, room;
        case NoProgress => return true, packet != [], packet, room;
        case SealPartial(record, _) => return true, true, packet + [record], room;
        case SealSuccess(record) =>
          written := written + 1;
          return false, false, packet + [record], room - Length(record);
      }
    }

    /** send_flight, without the final BIO_flush */
    method SendFlight(mtu: nat, bio: Bio) returns (status: Status)
      requires Valid() && bio !in Repr()
      modifies this`offset, this`written, writer.writeSequence, writer.lastWriteSequence, bio
      ensures Valid()
      ensures (writer.View(), View(), bio.sent, status)
           == After(old(bio.sent), Flushed(old(writer.View()), old(View()), mtu, old(bio.outcomes)))
    {
      ghost var goal := After(bio.sent, Flushed(writer.View(), View(), mtu, bio.outcomes));
      while written < |outgoing|
        invariant Valid() && written <= |outgoing|
        invariant goal == After(bio.sent, Flushed(writer.View(), View(), mtu, bio.outcomes))
        decreases |outgoing| - written, BytesLeft(View())
      {
        status := SendPacket(mtu, bio);
        if status != AllWritten {
          return;
        }
      }
      FlushedDone(writer.View(), View(), mtu, bio.outcomes, bio.sent);
      status := AllWritten;
    }

    /** One round of the loop of send_flight; a packet that is not accepted is sealed again the next time. */
    method SendPacket(mtu: nat, bio: Bio) returns (status: Status)
      requires Valid() && bio !in Repr() && written < |outgoing|
      modifies this`offset, this`written, writer.writeSequence, writer.lastWriteSequence, bio
      ensures Valid()
      ensures status == AllWritten ==> Further(old(View()), View())
      ensures After(old(bio.sent), Flushed(old(writer.View()), old(View()), mtu, old(bio.outcomes)))
           == if status == AllWritten then After(bio.sent, Flushed(writer.View(), View(), mtu, bio.outcomes))
              else (writer.View(), View(), bio.sent, status)
    {
      FlushedRound(writer.View(), View(), mtu, bio.outcomes, bio.sent);
      var oldWritten, oldOffset := written, offset;
      var ok, packet := SealNextPacket(mtu);
      if !ok {
        return SealFailed;
      }
      var accepted := bio.Write(packet);
      if !accepted {
        written, offset := oldWritten, oldOffset;
        return WriteFailed;
      }
      status := AllWritten;
    }

    /** dtls1_flush_flight */
    method FlushFlight(mtu: nat, bio: Bio) returns (status: Status)
      requires Valid() && bio !in Repr()
      modifies this`complete, this`offset, this`written, writer.writeSequence, writer.lastWriteSequence, bio
      ensures Valid() && complete
      ensures (writer.View(), View(), bio.sent, status)
           == After(old(bio.sent), Flushed(old(writer.View()), old(View()), mtu, old(bio.outcomes)))
    {
      complete := true;
      status := SendFlight(mtu, bio);
    }

    /** dtls1_retransmit_outgoing_messages: the flight from its start */
    method Retransmit(mtu: nat, bio: Bio) returns (status: Status)
      requires Valid() && bio !in Repr()
      modifies this`offset, this`written, writer.writeSequence, writer.lastWriteSequence, bio
      ensures Valid()
      ensures (writer.View(), View(), bio.sent, status)
           == After(old(bio.sent), Flushed(old(writer.View()), Flight(outgoing, 0, 0), mtu, old(bio.outcomes)))
    {
      written, offset := 0, 0;
      status := SendFlight(mtu, bio);
    }
  }
}
