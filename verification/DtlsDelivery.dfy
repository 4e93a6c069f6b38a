/**
 End-to-end delivery of handshake messages (sections 4.2.2 and 4.2.3 of RFC 6347): whatever the network loses,
 duplicates and reorders, what is handed up is what was sent, in order; and it is handed up as soon as the
 fragments that arrived cover it.
 */
module DtlsDelivery {
  import opened Basics
  import opened DtlsWire
  import opened DtlsReassembly
  import opened DtlsReceive

  /** A message as the sender's handshake code wrote it. Its number is its place in the sequence of all messages. */
  datatype Sent = Sent(mtype: byte, body: Bytes)

  function Expected(sent: seq<Sent>, i: nat): Message
    requires i < |sent|
  {
    Whole(sent[i].mtype, i, sent[i].body)
  }

  /** A fragment that shows what was sent, cut anywhere. */
  predicate Authentic(sent: seq<Sent>, h: Header, body: Bytes) {
    && h.seqno < |sent| && |body| == h.len
    && h.mtype == sent[h.seqno].mtype && h.msgLen == |sent[h.seqno].body|
    && h.off + h.len <= h.msgLen && body == sent[h.seqno].body[h.off..h.off + h.len]
  }

  predicate AuthenticRecord(sent: seq<Sent>, record: Bytes)
    decreases |record|
  {
    record == [] ||
    match ParseFragment(record)
    case None => false
    case Some((h, body, rest)) => Authentic(sent, h, body) && AuthenticRecord(sent, rest)
  }

  // ================= safety =================

  /** Every byte held is a byte of the message. */
  ghost predicate PartOf(i: Incoming, m: Sent) {
    && i.mtype == m.mtype && i.msgLen == |m.body|
    && forall k :: k in i.bytes ==> k < |m.body| && i.bytes[k] == m.body[k]
  }

  /** The receiver, and all it has handed up. */
  datatype Peer = Peer(r: Receiver, handed: seq<Message>)

  ghost predicate Faithful(sent: seq<Sent>, p: Peer) {
    && InWindow(p.r) && p.r.readSeq == |p.handed| <= |sent| && (p.r.hasMessage ==> CurrentComplete(p.r))
    && (forall i :: 0 <= i < |p.handed| ==> p.handed[i] == Expected(sent, i))
    && (forall s :: s in p.r.pending ==> s < |sent| && PartOf(p.r.pending[s], sent[s]))
  }

  datatype Event =
    | Deliver(rtype: nat, record: Bytes, maxLen: nat, nullCipher: bool)    // a record that the record layer opened
    | GetMessage                                                           // dtls1_get_message
    | NextMessage                                                          // dtls1_next_message, if there is one
    | TakeChangeCipherSpec                                                 // dtls1_open_change_cipher_spec
    | NewEpoch                                                             // dtls1_set_read_state

  function EventStep(p: Peer, e: Event): Peer {
    match e
    case Deliver(rtype, record, maxLen, nullCipher) => p.(r := Opened(p.r, maxLen, nullCipher, rtype, record).0)
    case GetMessage => p.(r := p.r.(hasMessage := p.r.hasMessage || Current(p.r).Some?))
    case NextMessage =>
      if p.r.hasMessage && Current(p.r).Some? then Peer(Released(p.r), p.handed + [Current(p.r).value]) else p
    case TakeChangeCipherSpec => p.(r := p.r.(ccs := false))
    case NewEpoch => if Unprocessed(p.r) then p else p.(r := p.r.(epoch := (p.r.epoch + 1) % TWO_TO_16))
  }

  function Run(p: Peer, es: seq<Event>): Peer
    decreases |es|
  {
    if es == [] then p else EventStep(Run(p, es[..|es| - 1]), es[|es| - 1])
  }

  const START := Peer(Receiver(0, 0, map[], false, false), [])

  predicate EventOk(sent: seq<Sent>, e: Event) {
    e.Deliver? && e.rtype == RT_HANDSHAKE ==> AuthenticRecord(sent, e.record)
  }

  lemma AcceptFaithful(sent: seq<Sent>, p: Peer, maxLen: nat, h: Header, body: Bytes)
    requires Faithful(sent, p) && HeaderOk(h) && Authentic(sent, h, body)
    ensures Faithful(sent, p.(r := Accept(p.r, maxLen, h, body).0))
  {
    if h.seqno in p.r.pending {
      assert PartOf(p.r.pending[h.seqno], sent[h.seqno]);
    }
    assert forall k :: k in Placed(h.off, body) ==> Placed(h.off, body)[k] == sent[h.seqno].body[k];
  }

  lemma {:induction false} AcceptAllFaithful(sent: seq<Sent>, p: Peer, maxLen: nat, record: Bytes)
    requires Faithful(sent, p) && AuthenticRecord(sent, record)
    ensures Faithful(sent, p.(r := AcceptAll(p.r, maxLen, record).0))
    decreases |record|
  {
    if record != [] {
      var (h, body, rest) := ParseFragment(record).value;
      AcceptFaithful(sent, p, maxLen, h, body);
      var (r', verdict) := Accept(p.r, maxLen, h, body);
      if verdict == Success {
        AcceptAllFaithful(sent, p.(r := r'), maxLen, rest);
      }
    }
  }

  /** A complete message is the message that was sent. */
  lemma CompleteIsSent(i: Incoming, m: Sent)
    requires PartOf(i, m) && Complete(i)
    ensures Assembled(i) == m.body
  {
    forall k | 0 <= k < |m.body|
      ensures Assembled(i)[k] == m.body[k]
    {
      assert k in Positions(i.msgLen);
    }
  }

  lemma EventFaithful(sent: seq<Sent>, p: Peer, e: Event)
    requires |sent| < TWO_TO_16 && Faithful(sent, p) && EventOk(sent, e)
    ensures Faithful(sent, EventStep(p, e))
  {
    match e {
      case Deliver(rtype, record, maxLen, _) =>
        if rtype == RT_HANDSHAKE {
          AcceptAllFaithful(sent, p, maxLen, record);
        }
      case GetMessage =>
      case NextMessage => TakenFaithful(sent, p);
      case TakeChangeCipherSpec =>
      case NewEpoch =>
    }
    hide AcceptAll, PartOf, Released, Current, Expected;
  }

  lemma TakenFaithful(sent: seq<Sent>, p: Peer)
    requires |sent| < TWO_TO_16 && Faithful(sent, p)
    ensures Faithful(sent, EventStep(p, NextMessage))
  {
    CurrentIsSent(sent, p);
    hide Current, Expected, PartOf;
  }

  lemma CurrentIsSent(sent: seq<Sent>, p: Peer)
    requires Faithful(sent, p)
    ensures CurrentComplete(p.r) ==> |p.handed| < |sent| && Current(p.r) == Some(Expected(sent, |p.handed|))
  {
    if CurrentComplete(p.r) {
      CompleteIsSent(p.r.pending[p.r.readSeq], sent[p.r.readSeq]);
    }
  }

  /** Every message handed up is the sender's next message, byte for byte. */
  lemma {:induction false} InOrderDelivery(sent: seq<Sent>, es: seq<Event>)
    requires |sent| < TWO_TO_16
    requires forall e :: e in es ==> EventOk(sent, e)
    ensures Faithful(sent, Run(START, es))
    decreases |es|
  {
    if es != [] {
      InOrderDelivery(sent, es[..|es| - 1]);
      EventFaithful(sent, Run(START, es[..|es| - 1]), es[|es| - 1]);
    }
  }

  // ================= whatever arrives =================

  /** All that is held lies inside the buffers, and none is larger than allowed. */
  ghost predicate Contained(r: Receiver, max: nat) {
    && InWindow(r) && (r.hasMessage ==> CurrentComplete(r))
    && forall s :: s in r.pending ==>
         r.pending[s].msgLen <= max && r.pending[s].bytes.Keys <= Positions(r.pending[s].msgLen)
  }

  /** A message under assembly keeps its type and length, and loses no byte. */
  predicate Extends(r: Receiver, r': Receiver) {
    forall s :: s in r.pending ==>
      && s in r'.pending && r'.pending[s].mtype == r.pending[s].mtype && r'.pending[s].msgLen == r.pending[s].msgLen
      && r.pending[s].bytes.Keys <= r'.pending[s].bytes.Keys
  }

  /** A fragment is refused exactly if it contradicts itself, the epoch, the window, or what is under assembly. */
  lemma RefusedExactly(r: Receiver, maxLen: nat, h: Header, body: Bytes)
    requires InWindow(r)
    ensures Accept(r, maxLen, h, body).1 == Success <==>
              && h.off + h.len <= h.msgLen <= maxLen
              && (r.epoch == 1 ==> h.seqno == r.readSeq) && h.seqno != r.readSeq + 7
              && (h.seqno in r.pending ==> r.pending[h.seqno].mtype == h.mtype && r.pending[h.seqno].msgLen == h.msgLen)
    ensures Accept(r, maxLen, h, body).1 != Success ==> Accept(r, maxLen, h, body).0 == r
  {
  }

  lemma AcceptContained(r: Receiver, maxLen: nat, h: Header, body: Bytes, max: nat)
    requires Contained(r, max) && HeaderOk(h) && |body| == h.len && maxLen <= max
    ensures Contained(Accept(r, maxLen, h, body).0, max) && Extends(r, Accept(r, maxLen, h, body).0)
  {
    var placed := Placed(h.off, body).Keys;
    if h.off + h.len <= h.msgLen {
      assert placed <= Positions(h.msgLen);
    }
  }

  lemma {:induction false} AcceptAllContained(r: Receiver, maxLen: nat, record: Bytes, max: nat)
    requires Contained(r, max) && maxLen <= max
    ensures Contained(AcceptAll(r, maxLen, record).0, max) && Extends(r, AcceptAll(r, maxLen, record).0)
    decreases |record|
  {
    hide Accept, Contained;
    if record != [] && ParseFragment(record).Some? {
      var (h, body, rest) := ParseFragment(record).value;
      AcceptContained(r, maxLen, h, body, max);
      var (r', verdict) := Accept(r, maxLen, h, body);
      if verdict == Success {
        AcceptAllContained(r', maxLen, rest, max);
      }
    }
  }

  lemma EventContained(p: Peer, e: Event, max: nat)
    requires Contained(p.r, max) && p.r.readSeq + 1 < TWO_TO_16 && (e.Deliver? ==> e.maxLen <= max)
    ensures Contained(EventStep(p, e).r, max)
    ensures !e.NextMessage? ==> Extends(p.r, EventStep(p, e).r)
  {
    if e.Deliver? {
      hide AcceptAll, Contained, Extends;
      AcceptAllContained(p.r, e.maxLen, e.record, max);
      if e.rtype != RT_HANDSHAKE {
        OpenedContained(p.r, e, max);
      }
    } else {
      TakenContained(p, e, max);
    }
  }

  /** Records other than handshake records touch one flag at most. */
  lemma OpenedContained(r: Receiver, e: Event, max: nat)
    requires Contained(r, max) && e.Deliver? && e.rtype != RT_HANDSHAKE
    ensures var r' := Opened(r, e.maxLen, e.nullCipher, e.rtype, e.record).0; Contained(r', max) && Extends(r, r')
  {
    hide AcceptAll;
  }

  lemma TakenContained(p: Peer, e: Event, max: nat)
    requires Contained(p.r, max) && p.r.readSeq + 1 < TWO_TO_16 && !e.Deliver?
    ensures Contained(EventStep(p, e).r, max)
    ensures !e.NextMessage? ==> Extends(p.r, EventStep(p, e).r)
  {
  }

  /** Whatever records arrive, in whatever order: no byte is ever stored outside the buffer of its message. */
  lemma {:induction false} RunContained(es: seq<Event>, max: nat)
    requires forall e :: e in es && e.Deliver? ==> e.maxLen <= max
    requires |Run(START, es).handed| < TWO_TO_16 - 1
    ensures Contained(Run(START, es).r, max) && Run(START, es).r.readSeq == |Run(START, es).handed|
    decreases |es|
  {
    hide EventStep, Contained;
    if es == [] {
      StartContained(max);
    } else {
      var init, e := es[..|es| - 1], es[|es| - 1];
      HandedOn(Run(START, init), e);
      RunContained(init, max);
      EventContained(Run(START, init), e, max);
    }
  }

  lemma StartContained(max: nat)
    ensures Contained(START.r, max)
  {
  }

  /** The number of the next message counts those handed up. */
  lemma HandedOn(p: Peer, e: Event)
    ensures var p' := EventStep(p, e);
            && |p.handed| <= |p'.handed|
            && (p.r.readSeq == |p.handed| && |p'.handed| < TWO_TO_16 ==> p'.r.readSeq == |p'.handed|)
  {
    if e.Deliver? && e.rtype == RT_HANDSHAKE {
      AcceptAllKeeps(p.r, e.maxLen, e.record);
    }
  }

  // ================= ChangeCipherSpec =================

  /** A ChangeCipherSpec record, which is legal only before encryption is on. */
  predicate IsCcs(e: Event) {
    e.Deliver? && e.rtype == RT_CHANGE_CIPHER_SPEC && e.record == [MT_CCS] && e.nullCipher
  }

  predicate NotTakenAfter(es: seq<Event>, i: nat) {
    forall j :: i < j < |es| ==> !es[j].TakeChangeCipherSpec?
  }

  /** A ChangeCipherSpec has come in and has not been taken since. */
  predicate CcsWaits(es: seq<Event>) {
    exists i :: 0 <= i < |es| && IsCcs(es[i]) && NotTakenAfter(es, i)
  }

  lemma CcsWaitsMore(es: seq<Event>, e: Event)
    ensures CcsWaits(es + [e]) <==> IsCcs(e) || (CcsWaits(es) && !e.TakeChangeCipherSpec?)
  {
    hide IsCcs;
    var all := es + [e];
    assert all[|es|] == e;
    if IsCcs(e) {
      assert NotTakenAfter(all, |es|);
    }
    if i :| 0 <= i < |all| && IsCcs(all[i]) && NotTakenAfter(all, i) {
      if i < |es| {
        assert es[i] == all[i];
        assert forall j :: 0 <= j < |es| ==> es[j] == all[j];
        assert NotTakenAfter(es, i);
      }
    }
    if !e.TakeChangeCipherSpec? {
      if i :| 0 <= i < |es| && IsCcs(es[i]) && NotTakenAfter(es, i) {
        assert all[i] == es[i];
        assert NotTakenAfter(all, i);
      }
    }
  }

  /** Handshake records touch the window only. */
  lemma {:induction false} AcceptAllKeeps(r: Receiver, maxLen: nat, record: Bytes)
    ensures var r' := AcceptAll(r, maxLen, record).0; r' == r.(pending := r'.pending)
    decreases |record|
  {
    if record != [] && ParseFragment(record).Some? {
      var (h, body, rest) := ParseFragment(record).value;
      var (r', verdict) := Accept(r, maxLen, h, body);
      if verdict == Success {
        AcceptAllKeeps(r', maxLen, rest);
      }
    }
  }

  /** Of all other records, only a ChangeCipherSpec under the null cipher is accepted, and no other has an effect. */
  lemma OtherRecords(p: Peer, e: Event)
    requires e.Deliver? && e.rtype != RT_HANDSHAKE
    ensures Opened(p.r, e.maxLen, e.nullCipher, e.rtype, e.record).1 == Success <==> IsCcs(e)
    ensures EventStep(p, e) == if IsCcs(e) then p.(r := p.r.(ccs := true)) else p
  {
  }

  /** The flag says exactly whether a ChangeCipherSpec is waiting to be taken. */
  lemma {:induction false} CcsExactly(es: seq<Event>)
    ensures Run(START, es).r.ccs <==> CcsWaits(es)
    decreases |es|
  {
    hide CcsWaits, Opened;
    if es == [] {
      NoneWaits();
    } else {
      var init, e := es[..|es| - 1], es[|es| - 1];
      assert es == init + [e];
      CcsExactly(init);
      CcsWaitsMore(init, e);
      var p := Run(START, init);
      if e.Deliver? {
        if e.rtype == RT_HANDSHAKE {
          HandshakeOpened(p.r, e);
          AcceptAllKeeps(p.r, e.maxLen, e.record);
        } else {
          OtherRecords(p, e);
        }
      }
    }
  }

  lemma NoneWaits()
    ensures !CcsWaits([])
  {
  }

  lemma HandshakeOpened(r: Receiver, e: Event)
    requires e.Deliver? && e.rtype == RT_HANDSHAKE
    ensures Opened(r, e.maxLen, e.nullCipher, e.rtype, e.record) == AcceptAll(r, e.maxLen, e.record) && !IsCcs(e)
  {
  }

  // ================= which fragments are accepted =================

  /** What the code demands of a fragment of an honest sender. */
  predicate Admissible(r: Receiver, maxLen: nat, h: Header) {
    h.msgLen <= maxLen && (r.epoch == 1 ==> h.seqno == r.readSeq) && h.seqno != r.readSeq + FLIGHT
  }

  /** Honest fragments cause an error exactly if they are too long, out of turn in epoch 1, or one past the window. */
  lemma HonestVerdict(sent: seq<Sent>, p: Peer, maxLen: nat, h: Header, body: Bytes)
    requires Faithful(sent, p) && Authentic(sent, h, body)
    ensures Accept(p.r, maxLen, h, body).1 == Success <==> Admissible(p.r, maxLen, h)
  {
    if h.seqno in p.r.pending {
      assert PartOf(p.r.pending[h.seqno], sent[h.seqno]);
    }
  }

  /** The guard lets the first message past the window through; it then ends the connection. */
  lemma OnePastTheWindow(maxLen: nat, body: Bytes)
    requires |body| <= maxLen && |body| < TWO_TO_24
    ensures var h := Header(1, |body|, FLIGHT, 0, |body|);
            Accept(START.r, maxLen, h, body) == (START.r, InternalError)
            && Accept(START.r, maxLen, h.(seqno := FLIGHT + 1), body) == (START.r, Success)
  {
  }

  // ================= availability =================

  /** The headers of all fragments of a record. */
  function Headers(record: Bytes): seq<Header>
    decreases |record|
  {
    match ParseFragment(record)
    case None => []
    case Some((h, _, rest)) => [h] + Headers(rest)
  }

  /** The headers of everything delivered. */
  function Delivered(es: seq<Event>): seq<Header> {
    if es == [] then []
    else
      var e := es[|es| - 1];
      Delivered(es[..|es| - 1]) + if e.Deliver? && e.rtype == RT_HANDSHAKE then Headers(e.record) else []
  }

  predicate Mentioned(hs: seq<Header>, s: nat) {
    exists j :: 0 <= j < |hs| && hs[j].seqno == s
  }

  function Span(off: nat, len: nat): (r: set<nat>)
    ensures forall k: nat :: k in r <==> off <= k < off + len
  {
    var end := off + len;
    set k: nat | off <= k < end && Within(k, off, end)
  }

  /** The bytes of message `s` that fragments cover. */
  function Covered(hs: seq<Header>, s: nat): set<nat> {
    if hs == [] then {}
    else
      var h := hs[|hs| - 1];
      Covered(hs[..|hs| - 1], s) + if h.seqno == s then Span(h.off, h.len) else {}
  }

  /** The window holds exactly what has been delivered of the messages still to come. */
  ghost predicate Tracks(r: Receiver, hs: seq<Header>) {
    forall s: nat :: s >= r.readSeq ==>
      && (s in r.pending <==> Mentioned(hs, s))
      && (s in r.pending ==> r.pending[s].bytes.Keys == Covered(hs, s))
  }

  /** The fragment is accepted, or belongs to the past. */
  predicate Timely(r: Receiver, maxLen: nat, h: Header) {
    Admissible(r, maxLen, h) && h.seqno < r.readSeq + FLIGHT
  }

  lemma MentionedOne(hs: seq<Header>, h: Header, s: nat)
    ensures Mentioned(hs + [h], s) <==> Mentioned(hs, s) || h.seqno == s
    ensures Covered(hs + [h], s) == Covered(hs, s) + if h.seqno == s then Span(h.off, h.len) else {}
  {
    assert (hs + [h])[..|hs|] == hs;
    if j :| 0 <= j < |hs| && hs[j].seqno == s {
      assert (hs + [h])[j].seqno == s;
    }
    if h.seqno == s {
      assert (hs + [h])[|hs|].seqno == s;
    }
    if j :| 0 <= j < |hs + [h]| && (hs + [h])[j].seqno == s {
      assert j < |hs| ==> hs[j].seqno == s;
    }
  }

  lemma AbsorbedKeys(i: Incoming, off: nat, body: Bytes)
    requires off + |body| <= i.msgLen
    ensures Absorbed(i, off, body).bytes.Keys == i.bytes.Keys + Span(off, |body|)
  {
    assert Placed(off, body).Keys == Span(off, |body|);
    if Complete(i) {
      assert Span(off, |body|) <= Positions(i.msgLen);
    }
  }

  lemma AcceptTracks(sent: seq<Sent>, p: Peer, maxLen: nat, h: Header, body: Bytes, hs: seq<Header>)
    requires Faithful(sent, p) && Authentic(sent, h, body) && Timely(p.r, maxLen, h) && Tracks(p.r, hs)
    ensures Tracks(Accept(p.r, maxLen, h, body).0, hs + [h])
  {
    HonestVerdict(sent, p, maxLen, h, body);
    var i := if h.seqno in p.r.pending then p.r.pending[h.seqno] else Fresh(h);
    if h.seqno in p.r.pending {
      assert PartOf(i, sent[h.seqno]);
    }
    AbsorbedKeys(i, h.off, body);
    forall s: nat | s >= p.r.readSeq
      ensures var r' := Accept(p.r, maxLen, h, body).0;
              && (s in r'.pending <==> Mentioned(hs + [h], s))
              && (s in r'.pending ==> r'.pending[s].bytes.Keys == Covered(hs + [h], s))
    {
      MentionedOne(hs, h, s);
      if s == h.seqno && s !in p.r.pending {
        NotMentioned(hs, s);
      }
    }
  }

  lemma {:induction false} NotMentioned(hs: seq<Header>, s: nat)
    requires !Mentioned(hs, s)
    ensures Covered(hs, s) == {}
  {
    if hs != [] {
      var init := hs[..|hs| - 1];
      assert hs == init + [hs[|hs| - 1]];
      MentionedOne(init, hs[|hs| - 1], s);
      NotMentioned(init, s);
    }
  }

  ghost predicate TimelyAll(r: Receiver, maxLen: nat, hs: seq<Header>) {
    forall j :: 0 <= j < |hs| ==> Timely(r, maxLen, hs[j])
  }

  lemma {:induction false} AcceptAllTracks(sent: seq<Sent>, p: Peer, maxLen: nat, record: Bytes, hs: seq<Header>)
    requires Faithful(sent, p) && AuthenticRecord(sent, record) && TimelyAll(p.r, maxLen, Headers(record))
    requires Tracks(p.r, hs)
    ensures Tracks(AcceptAll(p.r, maxLen, record).0, hs + Headers(record))
    decreases |record|
  {
    if record == [] {
      assert Headers(record) == [];
      assert hs + [] == hs;
    } else {
      var (h, body, rest) := ParseFragment(record).value;
      assert Headers(record)[0] == h && Headers(record)[1..] == Headers(rest);
      AcceptTracks(sent, p, maxLen, h, body, hs);
      HonestVerdict(sent, p, maxLen, h, body);
      AcceptFaithful(sent, p, maxLen, h, body);
      var r' := Accept(p.r, maxLen, h, body).0;
      assert TimelyAll(r', maxLen, Headers(rest)) by {
        assert forall j :: 0 <= j < |Headers(rest)| ==> Headers(rest)[j] == Headers(record)[j + 1];
      }
      AcceptAllTracks(sent, p.(r := r'), maxLen, rest, hs + [h]);
      AppendHead(hs, h, Headers(rest), Headers(record));
    }
  }

  lemma AppendHead(hs: seq<Header>, h: Header, rest: seq<Header>, all: seq<Header>)
    requires all == [h] + rest
    ensures hs + [h] + rest == hs + all
  {
  }

  /** No fragment is delivered that the receiver would refuse or has no room for yet. */
  ghost predicate TimelyRun(es: seq<Event>)
    decreases |es|
  {
    es == [] ||
    (var init, e := es[..|es| - 1], es[|es| - 1];
     && TimelyRun(init)
     && (e.Deliver? && e.rtype == RT_HANDSHAKE ==> TimelyAll(Run(START, init).r, e.maxLen, Headers(e.record))))
  }

  lemma EventTracks(sent: seq<Sent>, p: Peer, e: Event, hs: seq<Header>)
    requires |sent| < TWO_TO_16 && Faithful(sent, p) && EventOk(sent, e) && Tracks(p.r, hs)
    requires e.Deliver? && e.rtype == RT_HANDSHAKE ==> TimelyAll(p.r, e.maxLen, Headers(e.record))
    ensures Tracks(EventStep(p, e).r, hs + if e.Deliver? && e.rtype == RT_HANDSHAKE then Headers(e.record) else [])
  {
    assert hs + [] == hs;
    match e {
      case Deliver(rtype, record, maxLen, nullCipher) =>
        if rtype == RT_HANDSHAKE {
          AcceptAllTracks(sent, p, maxLen, record, hs);
        }
      case GetMessage =>
      case NextMessage =>
        if p.r.hasMessage {
          ReleasedTracks(p.r, hs);
        }
      case TakeChangeCipherSpec =>
      case NewEpoch =>
    }
  }

  lemma ReleasedTracks(r: Receiver, hs: seq<Header>)
    requires Tracks(r, hs) && r.readSeq + 1 < TWO_TO_16
    ensures Tracks(Released(r), hs)
  {
    hide Mentioned, Covered;
    forall s: nat | s >= r.readSeq + 1
      ensures s in Released(r).pending <==> s in r.pending
    {
    }
  }

  lemma {:induction false} RunTracks(sent: seq<Sent>, es: seq<Event>)
    requires |sent| < TWO_TO_16
    requires (forall e :: e in es ==> EventOk(sent, e)) && TimelyRun(es)
    ensures Tracks(Run(START, es).r, Delivered(es))
    decreases |es|
  {
    if es != [] {
      var init, e := es[..|es| - 1], es[|es| - 1];
      RunTracks(sent, init);
      InOrderDelivery(sent, init);
      EventTracks(sent, Run(START, init), e, Delivered(init));
    }
  }

  /** The next message is available exactly when fragments of it have arrived and cover it. */
  lemma {:induction false} AvailableExactly(sent: seq<Sent>, es: seq<Event>)
    requires |sent| < TWO_TO_16
    requires (forall e :: e in es ==> EventOk(sent, e)) && TimelyRun(es)
    ensures var p := Run(START, es);
            var s := |p.handed|;
            Current(p.r).Some? <==>
              s < |sent| && Mentioned(Delivered(es), s) && Covered(Delivered(es), s) == Positions(|sent[s].body|)
  {
    RunTracks(sent, es);
    InOrderDelivery(sent, es);
    var p := Run(START, es);
    if p.r.readSeq in p.r.pending {
      assert PartOf(p.r.pending[p.r.readSeq], sent[p.r.readSeq]);
    }
  }

  /** Asked for, it is handed up exactly in that case. */
  lemma HandedExactly(sent: seq<Sent>, es: seq<Event>)
    requires |sent| < TWO_TO_16
    requires (forall e :: e in es ==> EventOk(sent, e)) && TimelyRun(es)
    ensures var p := Run(START, es);
            var (s, p') := (|p.handed|, EventStep(EventStep(p, GetMessage), NextMessage));
            if s < |sent| && Mentioned(Delivered(es), s) && Covered(Delivered(es), s) == Positions(|sent[s].body|)
            then p'.handed == p.handed + [Expected(sent, s)]
            else p' == p
  {
    hide Mentioned, Covered, Positions;
    AvailableExactly(sent, es);
    InOrderDelivery(sent, es);
    CurrentIsSent(sent, Run(START, es));
  }

  /** Bytes have come in of a message still to come, other than the one being processed. */
  ghost predicate LeftOver(hs: seq<Header>, next: nat, processing: bool) {
    exists s :: next <= s && Mentioned(hs, s) && !(s == next && processing)
  }

  lemma UnprocessedExactly(r: Receiver, hs: seq<Header>)
    requires Tracks(r, hs) && InWindow(r)
    ensures Unprocessed(r) <==> r.ccs || LeftOver(hs, r.readSeq, r.hasMessage)
  {
    if s :| s in r.pending && !(s == r.readSeq && r.hasMessage) {
      assert Mentioned(hs, s);
    }
    if s :| r.readSeq <= s && Mentioned(hs, s) && !(s == r.readSeq && r.hasMessage) {
      assert s in r.pending;
    }
  }

  /** The keys change exactly if no ChangeCipherSpec waits and nothing is left over from the epoch. */
  lemma NewEpochExactly(sent: seq<Sent>, es: seq<Event>)
    requires |sent| < TWO_TO_16
    requires (forall e :: e in es ==> EventOk(sent, e)) && TimelyRun(es)
    ensures var p := Run(START, es);
            EventStep(p, NewEpoch) ==
              if CcsWaits(es) || LeftOver(Delivered(es), |p.handed|, p.r.hasMessage) then p
              else p.(r := p.r.(epoch := (p.r.epoch + 1) % TWO_TO_16))
  {
    hide CcsWaits, Unprocessed, Run, LeftOver;
    RunTracks(sent, es);
    InOrderDelivery(sent, es);
    CcsExactly(es);
    UnprocessedExactly(Run(START, es).r, Delivered(es));
  }

  /** The wait for a ChangeCipherSpec ends exactly if one has come in before or comes in now. */
  lemma CcsOpenedExactly(es: seq<Event>, e: Event)
    requires e.Deliver?
    ensures var p := Run(START, es);
            var (r', verdict) := OpenedCcs(p.r, e.maxLen, e.nullCipher, e.rtype, e.record);
            && (verdict == Success <==> CcsWaits(es) || IsCcs(e))
            && p.(r := r') == if CcsWaits(es) then EventStep(p, TakeChangeCipherSpec)
                              else EventStep(EventStep(p, e), TakeChangeCipherSpec)
  {
    hide CcsWaits, Opened;
    CcsExactly(es);
    var p := Run(START, es);
    if e.rtype == RT_HANDSHAKE {
      HandshakeOpened(p.r, e);
      AcceptAllKeeps(p.r, e.maxLen, e.record);
    } else {
      OtherRecords(p, e);
    }
  }
}
