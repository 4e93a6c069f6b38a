/**
 The receiving side of the DTLS handshake transport (d1_both.cc): a ring of seven messages under reassembly.
 The ring refines a window of messages keyed by sequence number, on which the specification is written.
 */
module DtlsReceive {
  import opened Basics
  import opened DtlsWire
  import opened DtlsReassembly

  // ================= specification =================

  /** A message of which some bytes have arrived. */
  datatype Incoming = Incoming(mtype: byte, msgLen: nat, bytes: map<nat, byte>)

  datatype Receiver = Receiver(readSeq: nat, epoch: nat, pending: map<nat, Incoming>, ccs: bool, hasMessage: bool)

  datatype Verdict =
    | Success | Discard
    | BadHandshakeRecord | ExcessiveMessageSize | UnexpectedRecord | FragmentMismatch | InternalError
    | BadChangeCipherSpec

  predicate Complete(i: Incoming) {
    i.bytes.Keys == Positions(i.msgLen)
  }

  /** The window invariant: only the next seven messages can be under reassembly. */
  ghost predicate InWindow(r: Receiver) {
    && r.readSeq < TWO_TO_16
    && forall s :: s in r.pending ==> r.readSeq <= s < r.readSeq + FLIGHT && s < TWO_TO_16
  }

  function Fresh(h: Header): Incoming {
    Incoming(h.mtype, h.msgLen, map[])
  }

  function Absorbed(i: Incoming, off: nat, body: Bytes): Incoming {
    if Complete(i) then i else i.(bytes := i.bytes + Placed(off, body))
  }

  /** One fragment of a handshake record. */
  function Accept(r: Receiver, maxLen: nat, h: Header, body: Bytes): (Receiver, Verdict) {
    if h.off > h.msgLen || h.off + h.len > h.msgLen || h.msgLen > maxLen then (r, ExcessiveMessageSize)
    else if r.epoch == 1 && h.seqno != r.readSeq then (r, UnexpectedRecord)
    else if h.seqno < r.readSeq || h.seqno > r.readSeq + FLIGHT then (r, Success)    // ignored
    else if h.seqno - r.readSeq >= FLIGHT then (r, InternalError)
    else if h.seqno in r.pending && (r.pending[h.seqno].mtype != h.mtype || r.pending[h.seqno].msgLen != h.msgLen)
    then (r, FragmentMismatch)
    else
      var i := if h.seqno in r.pending then r.pending[h.seqno] else Fresh(h);
      (r.(pending := r.pending[h.seqno := Absorbed(i, h.off, body)]), Success)
  }

  /** All fragments of a handshake record, up to the first error. */
  function AcceptAll(r: Receiver, maxLen: nat, record: Bytes): (Receiver, Verdict)
    decreases |record|
  {
    if record == [] then (r, Success)
    else
      match ParseFragment(record)
      case None => (r, BadHandshakeRecord)
      case Some((h, body, rest)) =>
        var (r', verdict) := Accept(r, maxLen, h, body);
        if verdict == Success then AcceptAll(r', maxLen, rest) else (r', verdict)
  }

  /** dtls1_open_handshake on a record the record layer has opened. */
  function Opened(r: Receiver, maxLen: nat, nullCipher: bool, rtype: nat, record: Bytes): (Receiver, Verdict) {
    if rtype == RT_APPLICATION_DATA then (r, if nullCipher then UnexpectedRecord else Discard)
    else if rtype == RT_CHANGE_CIPHER_SPEC then
      if !nullCipher then (r, UnexpectedRecord)
      else if record != [MT_CCS] then (r, BadChangeCipherSpec)
      else (r.(ccs := true), Success)
    else if rtype == RT_HANDSHAKE then AcceptAll(r, maxLen, record)
    else (r, UnexpectedRecord)
  }

  /** dtls1_open_change_cipher_spec: one that has come in already is taken, and no record is read for it. */
  function OpenedCcs(r: Receiver, maxLen: nat, nullCipher: bool, rtype: nat, record: Bytes): (Receiver, Verdict) {
    var (r', verdict) := if r.ccs then (r, Success) else Opened(r, maxLen, nullCipher, rtype, record);
    if verdict != Success then (r', verdict)
    else if r'.ccs then (r'.(ccs := false), Success)
    else (r', Discard)
  }

  predicate CurrentComplete(r: Receiver) {
    r.readSeq in r.pending && Complete(r.pending[r.readSeq])
  }

  /** The body of a message all of whose bytes have arrived. */
  function Assembled(i: Incoming): (bs: Bytes)
    requires Complete(i)
    ensures |bs| == i.msgLen
  {
    seq(i.msgLen, k requires 0 <= k < i.msgLen => assert k in Positions(i.msgLen); i.bytes[k])
  }

  /** An SSLMessage: its type, its body, and the bytes that enter the transcript. */
  datatype Message = Message(mtype: byte, body: Bytes, raw: Bytes)

  /** A message as the peer's dtls1_finish_message laid it out, in one fragment. */
  function Whole(mtype: byte, seqno: nat, body: Bytes): Message {
    Message(mtype, body, HeaderBytes(Header(mtype, |body|, seqno, 0, |body|)) + body)
  }

  /** dtls1_get_message */
  function Current(r: Receiver): Option<Message> {
    if CurrentComplete(r)
    then Some(Whole(r.pending[r.readSeq].mtype, r.readSeq, Assembled(r.pending[r.readSeq])))
    else None
  }

  /** dtls1_next_message */
  function Released(r: Receiver): Receiver {
    r.(pending := r.pending - {r.readSeq}, readSeq := (r.readSeq + 1) % TWO_TO_16, hasMessage := false)
  }

  /** dtls_has_unprocessed_handshake_data */
  predicate Unprocessed(r: Receiver) {
    r.ccs || exists s :: s in r.pending && !(s == r.readSeq && r.hasMessage)
  }

  // ================= implementation =================

  type Ring = ring: seq<Option<Incoming>> | |ring| == FLIGHT
    ghost witness [None, None, None, None, None, None, None]

  /** Message `s` lives in slot `s % 7`. */
  function At(ring: Ring, s: nat): Option<Incoming> {
    ring[s % FLIGHT]
  }

  /** The window kept in a ring. */
  function Window(ring: Ring, readSeq: nat): (w: map<nat, Incoming>)
    ensures forall s: nat :: s in w <==> readSeq <= s < readSeq + FLIGHT && At(ring, s).Some?
  {
    map s: nat | readSeq <= s < readSeq + FLIGHT && At(ring, s).Some? :: At(ring, s).value
  }

  lemma AtUpdate(ring: Ring, s: nat, t: nat, x: Option<Incoming>)
    requires t - FLIGHT < s < t + FLIGHT
    ensures At(ring[s % FLIGHT := x], t) == if s == t then x else At(ring, t)
  {
  }

  lemma WindowUpdate(ring: Ring, readSeq: nat, s: nat, i: Incoming)
    requires readSeq <= s < readSeq + FLIGHT
    ensures Window(ring[s % FLIGHT := Some(i)], readSeq) == Window(ring, readSeq)[s := i]
  {
    forall t: nat | readSeq <= t < readSeq + FLIGHT
      ensures At(ring[s % FLIGHT := Some(i)], t) == if s == t then Some(i) else At(ring, t)
    {
      AtUpdate(ring, s, t, Some(i));
    }
  }

  /** The slot just vacated is the one of the message that enters the window. */
  lemma WindowAdvance(ring: Ring, readSeq: nat)
    ensures Window(ring[readSeq % FLIGHT := None], readSeq + 1) == Window(ring, readSeq) - {readSeq}
  {
    var ring' := ring[readSeq % FLIGHT := None];
    forall t: nat | readSeq <= t < readSeq + FLIGHT
      ensures At(ring', t) == if readSeq == t then None else At(ring, t)
    {
      AtUpdate(ring, readSeq, t, None);
    }
    assert At(ring', readSeq + FLIGHT).None?;
  }

  predicate AllEmpty(ring: Ring) {
    forall i: nat :: i < FLIGHT ==> ring[i].None?
  }

  /** The same for a counter of sixteen bits, which wraps around only if nothing is left in the ring. */
  lemma WindowReleased(ring: Ring, ring': Ring, readSeq: nat)
    requires readSeq < TWO_TO_16 && ring' == ring[readSeq % FLIGHT := None]
    requires readSeq == TWO_TO_16 - 1 ==> AllEmpty(ring')
    ensures Window(ring', (readSeq + 1) % TWO_TO_16) == Window(ring, readSeq) - {readSeq}
  {
    WindowAdvance(ring, readSeq);
    if readSeq == TWO_TO_16 - 1 {
      assert Window(ring', 0) == map[];
      assert Window(ring', readSeq + 1) == map[];
    }
  }

  lemma ReleasedView(r: Receiver, r': Receiver, ring: Ring, ring': Ring)
    requires r.readSeq < TWO_TO_16 && r.pending == Window(ring, r.readSeq)
    requires ring' == ring[r.readSeq % FLIGHT := None] && (r.readSeq == TWO_TO_16 - 1 ==> AllEmpty(ring'))
    requires r' == r.(readSeq := (r.readSeq + 1) % TWO_TO_16,
                      pending := Window(ring', (r.readSeq + 1) % TWO_TO_16), hasMessage := false)
    ensures r' == Released(r)
  {
    WindowReleased(ring, ring', r.readSeq);
  }

  /** The buffer of a complete message holds its bytes. */
  lemma CollectedWhole(mtype: byte, n: nat, data: Bytes)
    requires |data| == HM_HEADER_LENGTH + n
    ensures var i := Incoming(mtype, n, Collected(n, None, data));
            Complete(i) && Assembled(i) == data[HM_HEADER_LENGTH..]
  {
    var i := Incoming(mtype, n, Collected(n, None, data));
    assert i.bytes.Keys == Positions(n);
  }

  lemma SameIndex(lo: nat, s: nat, t: nat)
    requires lo <= s < lo + FLIGHT && lo <= t < lo + FLIGHT && s % FLIGHT == t % FLIGHT
    ensures s == t
  {
  }

  class Dtls1State {
    const incoming: array<HmFragment?>
    var readSeq: nat            // handshake_read_seq
    var rEpoch: nat             // r_epoch
    var hasChangeCipherSpec: bool
    var hasMessage: bool        // ssl->s3->has_message
    ghost var repr: set<object>

    ghost predicate Valid()
      reads this`repr, this`readSeq, repr
    {
      && this !in repr && incoming in repr && incoming.Length == FLIGHT && readSeq < TWO_TO_16
      && (forall i: nat :: i < FLIGHT && incoming[i] != null ==> Owns(incoming[i]) && InSlot(incoming[i], i))
      && (forall i, j :: 0 <= i < FLIGHT && 0 <= j < FLIGHT && i != j ==> Apart(incoming[i], incoming[j]))
    }

    ghost predicate Apart(f: HmFragment?, g: HmFragment?)
      reads f, g
    {
      f != null && g != null ==> f.Repr() !! g.Repr()
    }

    ghost predicate Owns(f: HmFragment)
      reads this`repr, repr
    {
      f in repr && f.Repr() <= repr && incoming !in f.Repr() && f.Valid()
    }

    /** The ring invariant: the assertion on `frag->seq` in dtls1_get_incoming_message always holds. */
    ghost predicate InSlot(f: HmFragment, i: nat)
      reads this`readSeq
    {
      f.seqno % FLIGHT == i && readSeq <= f.seqno < readSeq + FLIGHT
    }

    ghost function Slot(i: nat): Option<Incoming>
      requires Valid() && i < FLIGHT
      reads this`repr, this`readSeq, repr
    {
      if incoming[i] == null then None
      else Some(Incoming(incoming[i].mtype, incoming[i].msgLen, incoming[i].Received()))
    }

    ghost function SlotsBefore(n: nat): (ring: seq<Option<Incoming>>)
      requires Valid() && n <= FLIGHT
      reads this`repr, this`readSeq, repr
      ensures |ring| == n && forall i: nat :: i < n ==> ring[i] == Slot(i)
    {
      if n == 0 then [] else SlotsBefore(n - 1) + [Slot(n - 1)]
    }

    ghost function Slots(): (ring: Ring)
      requires Valid()
      reads this`repr, this`readSeq, repr
      ensures forall i: nat :: i < FLIGHT ==> ring[i] == Slot(i)
    {
      SlotsBefore(FLIGHT)
    }

    ghost function View(): Receiver
      requires Valid()
      reads this, repr
    {
      Receiver(readSeq, rEpoch, Window(Slots(), readSeq), hasChangeCipherSpec, hasMessage)
    }

    constructor ()
      ensures Valid() && fresh(repr)
      ensures View() == Receiver(0, 0, map[], false, false)
    {
      var slots: array<HmFragment?> := new HmFragment?[FLIGHT](_ => null);
      incoming, readSeq, rEpoch, hasChangeCipherSpec, hasMessage := slots, 0, 0, false, false;
      repr := {slots};
    }

    ghost predicate CurrentDone()
      requires Valid()
      reads this`repr, this`readSeq, repr
    {
      var frag := incoming[readSeq % FLIGHT];
      frag != null && frag.reassembly == null
    }

    /** dtls1_is_current_message_complete */
    method IsCurrentMessageComplete() returns (complete: bool)
      requires Valid()
      ensures complete <==> CurrentComplete(View())
      ensures complete <==> CurrentDone()
    {
      var frag := incoming[readSeq % FLIGHT];
      if frag != null {
        frag.ReleasedExactly();
      }
      assert Slots()[readSeq % FLIGHT] == Slot(readSeq % FLIGHT);
      complete := frag != null && frag.reassembly == null;
    }

    /** dtls1_get_incoming_message; a null result comes with the error. */
    method GetIncomingMessage(h: Header) returns (frag: HmFragment?, error: Verdict)
      requires Valid() && HeaderOk(h)
      modifies this`repr, incoming
      ensures Valid() && fresh(repr - old(repr))
      ensures frag == null <==>
              h.seqno < readSeq || h.seqno - readSeq >= FLIGHT
              || (old(Slot(h.seqno % FLIGHT)).Some?
                  && (old(Slot(h.seqno % FLIGHT)).value.mtype != h.mtype
                      || old(Slot(h.seqno % FLIGHT)).value.msgLen != h.msgLen))
      ensures frag == null ==>
                && error == (if h.seqno < readSeq || h.seqno - readSeq >= FLIGHT then InternalError else FragmentMismatch)
                && Slots() == old(Slots())
      ensures frag != null ==> frag == incoming[h.seqno % FLIGHT] && frag.msgLen == h.msgLen
      ensures frag != null ==>
                var slot := old(Slot(h.seqno % FLIGHT));
                Slots() == old(Slots())[h.seqno % FLIGHT := if slot.Some? then slot else Some(Fresh(h))]
    {
      hide At, Window;
      frag, error := null, InternalError;
      if h.seqno < readSeq || h.seqno - readSeq >= FLIGHT {
        return;
      }
      var idx := h.seqno % FLIGHT;
      frag := incoming[idx];
      if frag != null {
        assert Slots()[idx := Slot(idx)] == Slots();
        assert InSlot(frag, idx);
        if frag.mtype != h.mtype || frag.msgLen != h.msgLen {
          frag, error := null, FragmentMismatch;
        }
        return;
      }
      frag := NewMessage(h);
    }

    /** The first fragment of a message claims its slot. */
    method NewMessage(h: Header) returns (frag: HmFragment)
      requires Valid() && HeaderOk(h) && readSeq <= h.seqno < readSeq + FLIGHT && incoming[h.seqno % FLIGHT] == null
      modifies this`repr, incoming
      ensures Valid() && fresh(repr - old(repr)) && frag == incoming[h.seqno % FLIGHT] && frag.msgLen == h.msgLen
      ensures Slots() == old(Slots())[h.seqno % FLIGHT := Some(Fresh(h))]
    {
      hide At, Window, TailClear, HeldFrom, Collected, HeaderBytes;
      var idx := h.seqno % FLIGHT;
      frag := new HmFragment(h);
      incoming[idx] := frag;
      repr := repr + frag.Repr();
      forall j: nat | j < FLIGHT && j != idx && incoming[j] != null
        ensures Owns(incoming[j]) && incoming[j].Received() == old(incoming[j].Received())
      {
        assert old(Owns(incoming[j]));
      }
      forall i, j | 0 <= i < FLIGHT && 0 <= j < FLIGHT && i != j
        ensures Apart(incoming[i], incoming[j])
      {
        assert old(Apart(incoming[i], incoming[j]));
      }
    }

    /** The rest of the loop body of dtls1_open_handshake: the body goes into the message it belongs to. */
    method AbsorbInto(frag: HmFragment, idx: nat, off: nat, body: Bytes)
      requires Valid() && idx < FLIGHT && frag == incoming[idx] && off + |body| <= frag.msgLen
      modifies frag.Repr()
      ensures Valid()
      ensures Slots() == old(Slots())[idx := Some(Absorbed(old(Slot(idx)).value, off, body))]
    {
      hide At, Window, TailClear, HeldFrom, Collected, HeaderBytes;
      frag.ReleasedExactly();
      if frag.reassembly == null {
        assert Slots()[idx := Slot(idx)] == Slots();
        return;
      }
      frag.Absorb(off, body);
      forall j: nat | j < FLIGHT && j != idx && incoming[j] != null
        ensures incoming[j].Valid() && incoming[j].Received() == old(incoming[j].Received())
        ensures incoming[j].Repr() == old(incoming[j].Repr())
      {
        assert old(Apart(incoming[j], frag));
      }
      assert Slot(idx) == Some(Absorbed(old(Slot(idx)).value, off, body));
    }

    /** One round of the loop of dtls1_open_handshake. */
    method OpenFragment(h: Header, body: Bytes, maxLen: nat) returns (verdict: Verdict)
      requires Valid() && HeaderOk(h) && |body| == h.len
      modifies this`repr, repr
      ensures Valid() && fresh(repr - old(repr))
      ensures (View(), verdict) == Accept(old(View()), maxLen, h, body)
    {
      if h.off > h.msgLen || h.off + h.len > h.msgLen || h.msgLen > maxLen {
        return ExcessiveMessageSize;
      }
      if rEpoch == 1 && h.seqno != readSeq {
        return UnexpectedRecord;
      }
      if h.seqno < readSeq || h.seqno > readSeq + FLIGHT {
        return Success;
      }
      ghost var ring := Slots();
      ghost var slot := At(ring, h.seqno);
      var frag, error := GetIncomingMessage(h);
      if frag == null {
        return error;
      }
      AbsorbInto(frag, h.seqno % FLIGHT, h.off, body);
      ghost var i := if slot.Some? then slot.value else Fresh(h);
      assert Slots() == ring[h.seqno % FLIGHT := Some(Absorbed(i, h.off, body))];
      WindowUpdate(ring, readSeq, h.seqno, Absorbed(i, h.off, body));
      verdict := Success;
    }

    /** The loop of dtls1_open_handshake over the fragments of a handshake record. */
    method OpenFragments(record: Bytes, maxLen: nat) returns (verdict: Verdict)
      requires Valid()
      modifies this`repr, repr
      ensures Valid() && fresh(repr - old(repr))
      ensures (View(), verdict) == AcceptAll(old(View()), maxLen, record)
    {
      var cbs := record;
      while cbs != []
        invariant Valid() && fresh(repr - old(repr))
        invariant AcceptAll(old(View()), maxLen, record) == AcceptAll(View(), maxLen, cbs)
        decreases |cbs|
      {
        var fragment := ParseFragment(cbs);
        if fragment.None? {
          return BadHandshakeRecord;
        }
        var (h, body, rest) := fragment.value;
        verdict := OpenFragment(h, body, maxLen);
        if verdict != Success {
          return;
        }
        cbs := rest;
      }
      verdict := Success;
    }

    /** dtls1_open_handshake, after dtls_open_record */
    method OpenHandshake(rtype: nat, record: Bytes, maxLen: nat, nullCipher: bool) returns (verdict: Verdict)
      requires Valid()
      modifies this`repr, this`hasChangeCipherSpec, repr
      ensures Valid() && fresh(repr - old(repr))
      ensures (View(), verdict) == Opened(old(View()), maxLen, nullCipher, rtype, record)
    {
      if rtype == RT_APPLICATION_DATA {
        return if nullCipher then UnexpectedRecord else Discard;
      }
      if rtype == RT_CHANGE_CIPHER_SPEC {
        if !nullCipher {
          return UnexpectedRecord;
        }
        if record != [MT_CCS] {
          return BadChangeCipherSpec;
        }
        hasChangeCipherSpec := true;
        return Success;
      }
      if rtype != RT_HANDSHAKE {
        return UnexpectedRecord;
      }
      verdict := OpenFragments(record, maxLen);
    }

    /** dtls1_open_change_cipher_spec */
    method OpenChangeCipherSpec(rtype: nat, record: Bytes, maxLen: nat, nullCipher: bool) returns (verdict: Verdict)
      requires Valid()
      modifies this`repr, this`hasChangeCipherSpec, repr
      ensures Valid() && fresh(repr - old(repr))
      ensures (View(), verdict) == OpenedCcs(old(View()), maxLen, nullCipher, rtype, record)
    {
      hide Window, Valid, Slots, Opened;
      if !hasChangeCipherSpec {
        verdict := OpenHandshake(rtype, record, maxLen, nullCipher);
        if verdict != Success {
          return;
        }
      }
      if hasChangeCipherSpec {
        ClearChangeCipherSpec();
        return Success;
      }
      return Discard;
    }

    method ClearChangeCipherSpec()
      requires Valid()
      modifies this`hasChangeCipherSpec
      ensures Valid() && View() == old(View()).(ccs := false)
    {
      hasChangeCipherSpec := false;
    }

    /** dtls1_get_message */
    method GetMessage() returns (out: Option<Message>)
      requires Valid()
      modifies this`hasMessage
      ensures Valid() && out == Current(old(View()))
      ensures View() == old(View()).(hasMessage := old(hasMessage) || out.Some?)
    {
      out := CurrentMessage();
      if out.Some? {
        hasMessage := true;
      }
    }

    method CurrentMessage() returns (out: Option<Message>)
      requires Valid()
      ensures out == Current(View())
    {
      var complete := IsCurrentMessageComplete();
      if !complete {
        return None;
      }
      var frag := incoming[readSeq % FLIGHT];
      ViewInWindow();
      assert Slots()[readSeq % FLIGHT] == Slot(readSeq % FLIGHT);
      CollectedWhole(frag.mtype, frag.msgLen, frag.data[..]);
      assert frag.data[..] == frag.data[..HM_HEADER_LENGTH] + frag.data[HM_HEADER_LENGTH..];
      out := Some(Message(frag.mtype, frag.data[HM_HEADER_LENGTH..], frag.data[..]));
    }

    /** dtls1_next_message; the precondition is what it asserts. */
    method NextMessage()
      requires Valid() && hasMessage && CurrentDone()
      modifies this`readSeq, this`hasMessage, incoming
      ensures Valid() && repr == old(repr)
      ensures View() == Released(old(View()))
    {
      ghost var was, ring := View(), Slots();
      hasMessage := false;
      PopCurrent();
      ReleasedView(was, View(), ring, Slots());
    }

    method PopCurrent()
      requires Valid()
      modifies this`readSeq, incoming
      ensures Valid() && repr == old(repr) && readSeq == (old(readSeq) + 1) % TWO_TO_16
      ensures Slots() == old(Slots())[old(readSeq) % FLIGHT := None]
      ensures old(readSeq) == TWO_TO_16 - 1 ==> AllEmpty(Slots())
    {
      ClearCurrent();
      Advance();
    }

    /** `incoming_messages[index].reset()` */
    method ClearCurrent()
      requires Valid()
      modifies incoming
      ensures Valid() && incoming[readSeq % FLIGHT] == null
      ensures Slots() == old(Slots())[readSeq % FLIGHT := None]
    {
      incoming[readSeq % FLIGHT] := null;
      forall j: nat | j < FLIGHT && incoming[j] != null
        ensures Owns(incoming[j]) && incoming[j].Received() == old(incoming[j].Received())
      {
        assert old(Owns(incoming[j]));
      }
    }

    /** `handshake_read_seq++` of a uint16_t. It wraps around only when the ring is empty. */
    method Advance()
      requires Valid() && incoming[readSeq % FLIGHT] == null
      modifies this`readSeq
      ensures Valid() && readSeq == (old(readSeq) + 1) % TWO_TO_16
      ensures Slots() == old(Slots())
      ensures old(readSeq) == TWO_TO_16 - 1 ==> AllEmpty(Slots())
    {
      OthersAreLater();
      readSeq := (readSeq + 1) % TWO_TO_16;
      forall j: nat | j < FLIGHT && incoming[j] != null
        ensures InSlot(incoming[j], j)
      {
        assert old(InSlot(incoming[j], j));
      }
      assert forall i: nat :: i < FLIGHT ==> Slots()[i] == Slot(i);
    }

    lemma OthersAreLater()
      requires Valid()
      ensures forall i :: 0 <= i < FLIGHT && i != readSeq % FLIGHT && incoming[i] != null ==>
                readSeq < incoming[i].seqno < readSeq + FLIGHT && incoming[i].seqno < TWO_TO_16
    {
      forall i | 0 <= i < FLIGHT && i != readSeq % FLIGHT && incoming[i] != null
        ensures readSeq < incoming[i].seqno < readSeq + FLIGHT && incoming[i].seqno < TWO_TO_16
      {
        assert InSlot(incoming[i], i) && Owns(incoming[i]);
      }
    }

    /** The window and the ring agree in every state. */
    lemma ViewInWindow()
      requires Valid()
      ensures InWindow(View())
      ensures forall s :: s in View().pending ==>
                var f := incoming[s % FLIGHT]; f != null && f.seqno == s
    {
      forall s | s in View().pending
        ensures var f := incoming[s % FLIGHT]; f != null && f.seqno == s && s < TWO_TO_16
      {
        assert Slots()[s % FLIGHT] == Slot(s % FLIGHT);
        var f := incoming[s % FLIGHT];
        assert InSlot(f, s % FLIGHT) && Owns(f);
        SameIndex(readSeq, f.seqno, s);
      }
    }

    lemma SlotPending(i: nat)
      requires Valid() && i < FLIGHT && incoming[i] != null
      ensures incoming[i].seqno in View().pending
    {
      assert InSlot(incoming[i], i);
      assert Slots()[i] == Slot(i);
    }

    /** dtls_has_unprocessed_handshake_data */
    method HasUnprocessedData() returns (r: bool)
      requires Valid()
      ensures r <==> Unprocessed(View())
    {
      ViewInWindow();
      if hasChangeCipherSpec {
        return true;
      }
      var current := readSeq % FLIGHT;
      for i := 0 to FLIGHT
        invariant forall j: nat :: j < i && !(hasMessage && j == current) ==> Slot(j).None?
      {
        if hasMessage && i == current {
          continue;
        }
        if incoming[i] != null {
          SlotPending(i);
          return true;
        }
      }
      return false;
    }

    /** dtls1_set_read_state, the part that concerns handshake messages */
    method SetReadState() returns (ok: bool)
      requires Valid()
      modifies this`rEpoch
      ensures Valid() && repr == old(repr)
      ensures ok <==> !Unprocessed(old(View()))
      ensures View() == old(View()).(epoch := if ok then (old(rEpoch) + 1) % TWO_TO_16 else old(rEpoch))
    {
      var unprocessed := HasUnprocessedData();
      if unprocessed {
        return false;
      }
      rEpoch := (rEpoch + 1) % TWO_TO_16;
      ok := true;
    }
  }
}
