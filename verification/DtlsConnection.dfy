/**
 A sender, a network and a receiver in one system. The network may deliver any record that was ever written,
 any number of times, in any order, or never. The receiver's record layer opens it, or drops it; no record that
 opens has another source.
 */
module DtlsConnection {
  import opened Basics
  import opened DtlsWire
  import R = DtlsRecord
  import S = DtlsSend
  import T = DtlsTiling
  import D = DtlsDelivery
  import DtlsReceive
  import DtlsReassembly
  import DtlsReplay

  datatype System = System(
    w: R.WriteState, f: S.Flight, complete: bool,
    sent: seq<D.Sent>,              // every message ever added; handshake_write_seq is their number
    keys: seq<R.Aead>,              // every cipher the sender ever had
    net: seq<R.Record>,             // every record ever written
    rs: R.ReadState,                // the receiver's epoch and replay window
    es: seq<D.Event>)               // everything its handshake layer got to see

  datatype Move =
    | AddMessage(mtype: byte, body: Bytes)
    | AddChangeCipherSpec
    | Flush(mtu: nat, outcomes: seq<bool>)
    | Retransmit(mtu: nat, outcomes: seq<bool>)
    | SetWriteState(aead: R.Aead)
    | Receive(i: nat, key: nat, cipher: R.ReadCipher, rest: Bytes, maxLen: nat)    // the network delivers record `i`
    | GetMessage | NextMessage | TakeChangeCipherSpec | SetReadState

  /** add_outgoing */
  function Added(s: System, msg: S.OutMsg): Option<S.Flight> {
    var f := if s.complete then S.Flight([], 0, 0) else s.f;
    if |f.msgs| >= FLIGHT then None else Some(f.(msgs := f.msgs + [msg]))
  }

  function Transmitted(s: System, f: S.Flight, mtu: nat, outcomes: seq<bool>): System
    requires S.FlightOk(f)
  {
    var r := S.Flushed(s.w, f, mtu, outcomes);
    s.(w := r.w, f := r.f, net := s.net + T.Records(r.packets))
  }

  /** Record `i`, at the front of a datagram, as the receiver's record layer opens it. */
  function Delivery(s: System, i: nat, cipher: R.ReadCipher, rest: Bytes): (R.ReadState, R.Opening)
    requires i < |s.net|
  {
    R.Opened(s.rs, cipher, R.Wire(s.net[i]) + rest)
  }

  /** The receiver's cipher undoes the one the record was sealed with. Under any other it would not open. */
  ghost predicate HasKey(s: System, i: nat, key: nat, cipher: R.ReadCipher) {
    i < |s.net| && key < |s.keys| && R.SealedBy(s.net[i], s.keys[key]) && R.Undoes(cipher, s.keys[key])
  }

  ghost function Step(s: System, m: Move): System
    requires S.FlightOk(s.f)
  {
    match m
    case AddMessage(mtype, body) =>
      var added := Added(s, S.OutMsg(S.Serialized(mtype, |s.sent|, body), s.w.epoch, false));
      if |body| >= TWO_TO_24 then s
      else if added.None? then s.(complete := false)
      else s.(f := added.value, complete := false, sent := s.sent + [D.Sent(mtype, body)])
    case AddChangeCipherSpec =>
      var added := Added(s, S.OutMsg([], s.w.epoch, true));
      if added.None? then s.(complete := false) else s.(f := added.value, complete := false)
    case Flush(mtu, outcomes) => Transmitted(s.(complete := true), s.f, mtu, outcomes)
    case Retransmit(mtu, outcomes) => Transmitted(s, S.Flight(s.f.msgs, 0, 0), mtu, outcomes)
    case SetWriteState(aead) =>
      if R.AeadOk(aead) then s.(w := R.NextWriteEpoch(s.w, aead), keys := s.keys + [aead]) else s
    case Receive(i, key, cipher, rest, maxLen) =>
      if !HasKey(s, i, key, cipher) then s
      else
        var (rs, out) := Delivery(s, i, cipher, rest);
        s.(rs := rs,
           es := s.es + if out.verdict.OpenSuccess?
                        then [D.Deliver(out.rtype, out.plaintext, maxLen, cipher.isNull)] else [])
    case GetMessage => s.(es := s.es + [D.GetMessage])
    case NextMessage => s.(es := s.es + [D.NextMessage])
    case TakeChangeCipherSpec => s.(es := s.es + [D.TakeChangeCipherSpec])
    case SetReadState =>
      s.(rs := if DtlsReceive.Unprocessed(D.Run(D.START, s.es).r) then s.rs else R.NextReadEpoch(s.rs),
         es := s.es + [D.NewEpoch])
  }

  /** Message `i` of all that were sent, as it lies in a flight. */
  predicate IsSent(sent: seq<D.Sent>, msg: S.OutMsg, i: nat) {
    i < |sent| && |sent[i].body| < TWO_TO_24 && msg.data == S.Serialized(sent[i].mtype, i, sent[i].body)
  }

  ghost predicate FromSent(sent: seq<D.Sent>, msgs: seq<S.OutMsg>) {
    forall j :: 0 <= j < |msgs| && !msgs[j].isCcs ==> exists i :: IsSent(sent, msgs[j], i)
  }

  /** The sender writes fragments of its messages, and ChangeCipherSpecs. */
  predicate Honest(sent: seq<D.Sent>, r: R.Record) {
    || (r.rtype == RT_HANDSHAKE && D.AuthenticRecord(sent, r.plaintext))
    || (r.rtype == RT_CHANGE_CIPHER_SPEC && r.plaintext == [MT_CCS])
  }

  /** One of the sender's ciphers sealed the record. */
  ghost predicate SealedByOne(keys: seq<R.Aead>, r: R.Record) {
    R.RecordOk(r) && exists a :: a in keys && R.SealedBy(r, a)
  }

  ghost predicate KeysOk(s: System) {
    && R.WriteOk(s.w) && s.w.aead in s.keys && s.w.lastAead in s.keys
    && forall r :: r in s.net ==> SealedByOne(s.keys, r)
  }

  ghost predicate Valid(s: System) {
    && KeysOk(s) && s.rs.epoch == D.Run(D.START, s.es).r.epoch
    && T.Inside(s.f)
    && FromSent(s.sent, s.f.msgs) && T.DistinctNumbers(s.f.msgs)
    && (forall r :: r in s.net ==> Honest(s.sent, r))
    && (forall e :: e in s.es ==> D.EventOk(s.sent, e))
  }

  // ---------- what was authentic stays authentic ----------

  lemma {:induction false} AuthenticRecordLater(sent: seq<D.Sent>, m: D.Sent, record: Bytes)
    requires D.AuthenticRecord(sent, record)
    ensures D.AuthenticRecord(sent + [m], record)
    decreases |record|
  {
    if record != [] {
      AuthenticRecordLater(sent, m, ParseFragment(record).value.2);
    }
  }

  lemma SentLater(s: System, m: D.Sent)
    requires Valid(s)
    ensures FromSent(s.sent + [m], s.f.msgs)
    ensures forall r :: r in s.net ==> Honest(s.sent + [m], r)
    ensures forall e :: e in s.es ==> D.EventOk(s.sent + [m], e)
  {
    forall j | 0 <= j < |s.f.msgs| && !s.f.msgs[j].isCcs
      ensures exists i :: IsSent(s.sent + [m], s.f.msgs[j], i)
    {
      var i :| IsSent(s.sent, s.f.msgs[j], i);
      assert IsSent(s.sent + [m], s.f.msgs[j], i);
    }
    forall r | r in s.net
      ensures Honest(s.sent + [m], r)
    {
      if r.rtype == RT_HANDSHAKE {
        AuthenticRecordLater(s.sent, m, r.plaintext);
      }
    }
    forall e | e in s.es
      ensures D.EventOk(s.sent + [m], e)
    {
      if e.Deliver? && e.rtype == RT_HANDSHAKE {
        AuthenticRecordLater(s.sent, m, e.record);
      }
    }
  }

  // ---------- every record of a flight is authentic ----------

  lemma ParsedSent(sent: seq<D.Sent>, msg: S.OutMsg, i: nat)
    requires IsSent(sent, msg, i) && |sent| <= TWO_TO_16
    ensures S.Parsed(msg)
         == Some((Header(sent[i].mtype, |sent[i].body|, i, 0, |sent[i].body|), sent[i].body))
  {
    var h := Header(sent[i].mtype, |sent[i].body|, i, 0, |sent[i].body|);
    FragmentRoundTrip(h, sent[i].body, []);
    assert msg.data == HeaderBytes(h) + sent[i].body + [];
  }

  lemma PieceAuthentic(sent: seq<D.Sent>, msgs: seq<S.OutMsg>, pos: T.Pos, r: R.Record)
    requires FromSent(sent, msgs) && |sent| <= TWO_TO_16 && T.Next(msgs, pos, r).Some?
    ensures Honest(sent, r)
  {
    hide S.Parsed, S.Serialized, D.Expected;
    var msg := msgs[pos.written];
    if !msg.isCcs {
      var i :| IsSent(sent, msg, i);
      ParsedSent(sent, msg, i);
      var (h, piece, rest) := ParseFragment(r.plaintext).value;
      assert D.AuthenticRecord(sent, rest);
    }
  }

  lemma {:induction false} WalkAuthentic(sent: seq<D.Sent>, msgs: seq<S.OutMsg>, pos: T.Pos, rs: seq<R.Record>)
    requires FromSent(sent, msgs) && |sent| <= TWO_TO_16 && T.Walk(msgs, pos, rs).Some?
    ensures forall r :: r in rs ==> Honest(sent, r)
    decreases |rs|
  {
    hide T.Next, Honest, FromSent;
    if rs != [] {
      var init := rs[..|rs| - 1];
      WalkAuthentic(sent, msgs, pos, init);
      PieceAuthentic(sent, msgs, T.Walk(msgs, pos, init).value, rs[|rs| - 1]);
      assert rs == init + [rs[|rs| - 1]];
    }
  }

  lemma KeysLater(keys: seq<R.Aead>, a: R.Aead, r: R.Record)
    requires SealedByOne(keys, r)
    ensures SealedByOne(keys + [a], r)
  {
    var b :| b in keys && R.SealedBy(r, b);
    assert b in keys + [a];
  }

  lemma TransmittedKeys(s: System, f: S.Flight, mtu: nat, outcomes: seq<bool>)
    requires KeysOk(s) && S.FlightOk(f)
    ensures KeysOk(Transmitted(s, f, mtu, outcomes))
  {
    hide S.Flushed, R.RecordOk, R.SealedBy, R.WriteOk;
    T.FlushedSealed(s.w, f, mtu, outcomes);
    forall r | r in T.Records(S.Flushed(s.w, f, mtu, outcomes).packets)
      ensures SealedByOne(s.keys, r)
    {
      assert S.SealedWith(s.w, r);
    }
  }

  lemma NextEpochKeys(s: System, aead: R.Aead)
    requires KeysOk(s) && R.AeadOk(aead)
    ensures KeysOk(s.(w := R.NextWriteEpoch(s.w, aead), keys := s.keys + [aead]))
  {
    hide R.RecordOk, R.SealedBy;
    forall r | r in s.net
      ensures SealedByOne(s.keys + [aead], r)
    {
      KeysLater(s.keys, aead, r);
    }
  }

  /** What reaches the handshake layer is authentic. */
  lemma ReceivedValid(s: System, i: nat, key: nat, cipher: R.ReadCipher, rest: Bytes, maxLen: nat)
    requires Valid(s) && HasKey(s, i, key, cipher)
    ensures Valid(Step(s, Receive(i, key, cipher, rest, maxLen)))
  {
    hide R.Wire, T.Inside, FromSent, T.DistinctNumbers, R.Undoes, R.SealedBy;
    var r := s.net[i];
    assert SealedByOne(s.keys, r) && Honest(s.sent, r);
    R.OpensToPlaintext(r, s.keys[key], s.rs, cipher, rest);
    var (rs, out) := Delivery(s, i, cipher, rest);
    if out.verdict.OpenSuccess? {
      var e := D.Deliver(out.rtype, out.plaintext, maxLen, cipher.isNull);
      assert D.EventOk(s.sent, e);
      SameEpoch(s.es, e);
    } else {
      assert s.es + [] == s.es;
    }
  }

  lemma SameEpoch(es: seq<D.Event>, e: D.Event)
    requires !e.NewEpoch?
    ensures D.Run(D.START, es + [e]).r.epoch == D.Run(D.START, es).r.epoch
  {
    assert (es + [e])[..|es|] == es;
    var r := D.Run(D.START, es).r;
    if e.Deliver? && e.rtype == RT_HANDSHAKE {
      D.AcceptAllKeeps(r, e.maxLen, e.record);
    }
  }

  lemma NewEpochValid(s: System)
    requires Valid(s)
    ensures Valid(Step(s, SetReadState))
  {
    hide T.Inside, FromSent, T.DistinctNumbers, SealedByOne, Honest;
    assert (s.es + [D.NewEpoch])[..|s.es|] == s.es;
  }

  lemma TransmittedValid(s: System, f: S.Flight, mtu: nat, outcomes: seq<bool>)
    requires Valid(s) && T.Inside(f) && f.msgs == s.f.msgs && |s.sent| <= TWO_TO_16
    ensures Valid(Transmitted(s, f, mtu, outcomes))
  {
    TransmittedKeys(s, f, mtu, outcomes);
    T.FlushedWalks(s.w, f, mtu, outcomes);
    hide KeysOk, S.Flushed;
    WalkAuthentic(s.sent, f.msgs, T.At(f), T.Records(S.Flushed(s.w, f, mtu, outcomes).packets));
  }

  lemma FlushValid(s: System, mtu: nat, outcomes: seq<bool>)
    requires Valid(s) && |s.sent| <= TWO_TO_16
    ensures Valid(Step(s, Flush(mtu, outcomes)))
  {
    var s' := s.(complete := true);
    assert Valid(s');
    hide Valid, Transmitted;
    TransmittedValid(s', s.f, mtu, outcomes);
  }

  lemma RetransmitValid(s: System, mtu: nat, outcomes: seq<bool>)
    requires Valid(s) && |s.sent| <= TWO_TO_16
    ensures Valid(Step(s, Retransmit(mtu, outcomes)))
  {
    assert T.Inside(S.Flight(s.f.msgs, 0, 0));
    hide Valid, Transmitted;
    TransmittedValid(s, S.Flight(s.f.msgs, 0, 0), mtu, outcomes);
  }

  lemma NextEpochValid(s: System, aead: R.Aead)
    requires Valid(s)
    ensures Valid(Step(s, SetWriteState(aead)))
  {
    hide T.Inside, FromSent, T.DistinctNumbers, R.WriteOk, SealedByOne, D.EventOk;
    if R.AeadOk(aead) {
      NextEpochKeys(s, aead);
    }
  }

  /** A message that is added has a number no message of the flight has. */
  lemma AddedValid(s: System, msg: S.OutMsg, sent': seq<D.Sent>)
    requires Valid(s) && Added(s, msg).Some? && |sent'| <= TWO_TO_16
    requires s.sent <= sent' && FromSent(sent', s.f.msgs)
    requires !msg.isCcs ==> IsSent(sent', msg, |s.sent|)
    ensures var f := Added(s, msg).value;
            T.Inside(f) && FromSent(sent', f.msgs) && T.DistinctNumbers(f.msgs)
  {
    if !msg.isCcs {
      ParsedSent(sent', msg, |s.sent|);
      NumbersSent(s.sent, s.f.msgs);
    }
    if !s.complete {
      OneMoreNumber(s.f.msgs, msg, |s.sent|);
    }
    hide S.Parsed, IsSent;
  }

  lemma OneMoreNumber(msgs: seq<S.OutMsg>, msg: S.OutMsg, n: nat)
    requires T.DistinctNumbers(msgs)
    requires T.IsHandshake(msg) ==>
               S.Parsed(msg).value.0.seqno == n
               && forall j :: 0 <= j < |msgs| && T.IsHandshake(msgs[j]) ==> S.Parsed(msgs[j]).value.0.seqno < n
    ensures T.DistinctNumbers(msgs + [msg])
  {
    hide S.Parsed;
  }

  lemma NumbersSent(sent: seq<D.Sent>, msgs: seq<S.OutMsg>)
    requires FromSent(sent, msgs) && |sent| <= TWO_TO_16
    ensures forall j :: 0 <= j < |msgs| && T.IsHandshake(msgs[j]) ==> S.Parsed(msgs[j]).value.0.seqno < |sent|
  {
    forall j | 0 <= j < |msgs| && T.IsHandshake(msgs[j])
      ensures S.Parsed(msgs[j]).value.0.seqno < |sent|
    {
      var i :| IsSent(sent, msgs[j], i);
      ParsedSent(sent, msgs[j], i);
    }
  }

  lemma AddMessageValid(s: System, mtype: byte, body: Bytes)
    requires Valid(s) && |Step(s, AddMessage(mtype, body)).sent| <= TWO_TO_16
    ensures Valid(Step(s, AddMessage(mtype, body)))
  {
    hide T.Inside, S.Serialized, R.WriteOk, SealedByOne, D.EventOk;
    var msg := S.OutMsg(S.Serialized(mtype, |s.sent|, body), s.w.epoch, false);
    if |body| < TWO_TO_24 && Added(s, msg).Some? {
      SentLater(s, D.Sent(mtype, body));
      AddedValid(s, msg, s.sent + [D.Sent(mtype, body)]);
    }
  }

  lemma AddCcsValid(s: System)
    requires Valid(s) && |s.sent| <= TWO_TO_16
    ensures Valid(Step(s, AddChangeCipherSpec))
  {
    hide T.Inside, R.WriteOk, SealedByOne, D.EventOk;
    var msg := S.OutMsg([], s.w.epoch, true);
    if Added(s, msg).Some? {
      AddedValid(s, msg, s.sent);
    }
  }

  lemma TakenValid(s: System, e: D.Event)
    requires Valid(s) && (e.GetMessage? || e.NextMessage? || e.TakeChangeCipherSpec?)
    ensures Valid(s.(es := s.es + [e]))
  {
    assert D.EventOk(s.sent, e);
    hide D.Run, D.EventOk, KeysOk, T.Inside, FromSent, T.DistinctNumbers, Honest;
    SameEpoch(s.es, e);
  }

  lemma StepValid(s: System, m: Move)
    requires Valid(s) && |Step(s, m).sent| <= TWO_TO_16
    ensures Valid(Step(s, m)) && |s.sent| <= |Step(s, m).sent|
  {
    hide KeysOk, T.Inside, FromSent, T.DistinctNumbers, Honest, D.EventOk, S.Flushed, HasKey, Added;
    match m {
      case AddMessage(mtype, body) => AddMessageValid(s, mtype, body);
      case AddChangeCipherSpec => AddCcsValid(s);
      case Flush(mtu, outcomes) => FlushValid(s, mtu, outcomes);
      case Retransmit(mtu, outcomes) => RetransmitValid(s, mtu, outcomes);
      case SetWriteState(aead) => NextEpochValid(s, aead);
      case Receive(i, key, cipher, rest, maxLen) =>
        if HasKey(s, i, key, cipher) {
          ReceivedValid(s, i, key, cipher, rest, maxLen);
        }
      case GetMessage => TakenValid(s, D.GetMessage);
      case NextMessage => TakenValid(s, D.NextMessage);
      case TakeChangeCipherSpec => TakenValid(s, D.TakeChangeCipherSpec);
      case SetReadState => NewEpochValid(s);
    }
  }

  ghost function Runs(s: System, ms: seq<Move>): (s': System)
    requires S.FlightOk(s.f)
    ensures S.FlightOk(s'.f)
    decreases |ms|
  {
    if ms == [] then s
    else
      var before := Runs(s, ms[..|ms| - 1]);
      StepFlightOk(before, ms[|ms| - 1]);
      Step(before, ms[|ms| - 1])
  }

  lemma StepFlightOk(s: System, m: Move)
    requires S.FlightOk(s.f)
    ensures S.FlightOk(Step(s, m).f)
  {
  }

  function Start(w: R.WriteState): System {
    System(w, S.Flight([], 0, 0), false, [], [w.aead, w.lastAead], [], R.ReadState(0, 0, {}), [])
  }

  lemma {:induction false} RunsValid(w: R.WriteState, ms: seq<Move>)
    requires R.WriteOk(w)
    ensures |Runs(Start(w), ms).sent| <= TWO_TO_16 ==> Valid(Runs(Start(w), ms))
    decreases |ms|
  {
    if ms != [] {
      var init, m := ms[..|ms| - 1], ms[|ms| - 1];
      var before := Runs(Start(w), init);
      assert |before.sent| <= |Step(before, m).sent|;
      RunsValid(w, init);
      if |Step(before, m).sent| <= TWO_TO_16 {
        StepValid(before, m);
      }
    }
  }

  /**
   A record reaches the handshake layer as it was sealed, unless its epoch is not the receiver's, or its number is
   used up or too old; then nothing happens.
   */
  lemma Received(s: System, i: nat, key: nat, cipher: R.ReadCipher, rest: Bytes, maxLen: nat)
    requires Valid(s) && HasKey(s, i, key, cipher) && s.net[i].version == s.keys[key].recordVersion
    requires |s.net[i].plaintext| <= R.MAX_PLAIN_LENGTH && |s.net[i].ciphertext| <= R.MAX_ENCRYPTED_LENGTH
    ensures var r, s' := s.net[i], Step(s, Receive(i, key, cipher, rest, maxLen));
            if r.epoch != s.rs.epoch || R.FullNumber(r) in s.rs.seen || R.FullNumber(r) + DtlsReplay.WINDOW_SIZE <= s.rs.max
            then s' == s
            else s' == s.(rs := R.Recorded(s.rs, R.FullNumber(r)),
                          es := s.es + [D.Deliver(r.rtype, r.plaintext, maxLen, cipher.isNull)])
  {
    hide R.Wire, T.Inside, FromSent, T.DistinctNumbers, R.Undoes, R.SealedBy, R.FullNumber;
    assert SealedByOne(s.keys, s.net[i]);
    R.SealedOpens(s.net[i], s.keys[key], s.rs, cipher, rest);
    assert s.es + [] == s.es;
  }

  /** A refinement of an in-order channel: what has been handed up is a prefix of what has been sent. */
  lemma {:induction false} EndToEnd(w: R.WriteState, ms: seq<Move>)
    requires R.WriteOk(w)
    ensures var s := Runs(Start(w), ms);
            var handed := D.Run(D.START, s.es).handed;
            |s.sent| < TWO_TO_16 ==>
              |handed| <= |s.sent| && forall i :: 0 <= i < |handed| ==> handed[i] == D.Expected(s.sent, i)
  {
    var s := Runs(Start(w), ms);
    if |s.sent| < TWO_TO_16 {
      RunsValid(w, ms);
      D.InOrderDelivery(s.sent, s.es);
    }
  }

  // ---------- a transmission that arrives makes its messages available ----------

  lemma {:induction false} DeliveredHas(es: seq<D.Event>, e: D.Event, h: Header)
    requires e in es && e.Deliver? && e.rtype == RT_HANDSHAKE && h in D.Headers(e.record)
    ensures h in D.Delivered(es)
    decreases |es|
  {
    if e != es[|es| - 1] {
      DeliveredHas(es[..|es| - 1], e, h);
    }
  }

  lemma {:induction false} CoveredHas(hs: seq<Header>, h: Header, k: nat)
    requires h in hs && h.off <= k < h.off + h.len
    ensures k in D.Covered(hs, h.seqno)
    decreases |hs|
  {
    if h != hs[|hs| - 1] {
      CoveredHas(hs[..|hs| - 1], h, k);
    }
  }

  lemma {:induction false} CarrierExists(rs: seq<R.Record>, s: nat, k: nat) returns (r: R.Record)
    requires T.Carriers(rs, s, k) > 0
    ensures r in rs && T.Carries(r, s, k)
    decreases |rs|
  {
    r := rs[|rs| - 1];
    if !T.Carries(r, s, k) {
      r := CarrierExists(rs[..|rs| - 1], s, k);
    }
  }

  predicate Mentions(r: R.Record, s: nat) {
    r.rtype == RT_HANDSHAKE &&
    match ParseFragment(r.plaintext)
    case None => false
    case Some((h, _, _)) => h.seqno == s
  }

  lemma NextMentions(msgs: seq<S.OutMsg>, pos: T.Pos, r: R.Record, i: nat)
    requires T.Next(msgs, pos, r).Some? && pos.written <= i < T.Next(msgs, pos, r).value.written
    requires i < |msgs| && T.IsHandshake(msgs[i])
    ensures Mentions(r, S.Parsed(msgs[i]).value.0.seqno)
  {
  }

  /** Every message that has been passed, even an empty one, has a record of its own. */
  lemma {:induction false} WalkMentions(msgs: seq<S.OutMsg>, rs: seq<R.Record>, i: nat) returns (r: R.Record)
    requires T.Walk(msgs, T.Pos(0, 0), rs).Some? && i < T.Walk(msgs, T.Pos(0, 0), rs).value.written
    requires i < |msgs| && T.IsHandshake(msgs[i])
    ensures r in rs && Mentions(r, S.Parsed(msgs[i]).value.0.seqno)
    decreases |rs|
  {
    hide T.Next, Mentions, S.Parsed;
    var init := rs[..|rs| - 1];
    if i < T.Walk(msgs, T.Pos(0, 0), init).value.written {
      r := WalkMentions(msgs, init, i);
    } else {
      r := rs[|rs| - 1];
      NextMentions(msgs, T.Walk(msgs, T.Pos(0, 0), init).value, r, i);
    }
  }

  /** All handshake records of a transmission have reached the receiver, among whatever else and in any order. */
  ghost predicate Arrived(es: seq<D.Event>, rs: seq<R.Record>) {
    forall r :: r in rs && r.rtype == RT_HANDSHAKE ==> Brought(es, r.plaintext)
  }

  ghost predicate Brought(es: seq<D.Event>, record: Bytes) {
    exists e :: e in es && e.Deliver? && e.rtype == RT_HANDSHAKE && e.record == record
  }

  lemma BroughtHeader(es: seq<D.Event>, r: R.Record)
    requires Brought(es, r.plaintext) && ParseFragment(r.plaintext).Some?
    ensures ParseFragment(r.plaintext).value.0 in D.Delivered(es)
  {
    var e :| e in es && e.Deliver? && e.rtype == RT_HANDSHAKE && e.record == r.plaintext;
    DeliveredHas(es, e, ParseFragment(r.plaintext).value.0);
  }

  lemma ByteArrives(es: seq<D.Event>, msgs: seq<S.OutMsg>, rs: seq<R.Record>, i: nat, k: nat)
    requires T.DistinctNumbers(msgs) && T.Walk(msgs, T.Pos(0, 0), rs).Some? && Arrived(es, rs)
    requires i < T.Walk(msgs, T.Pos(0, 0), rs).value.written
    requires i < |msgs| && T.IsHandshake(msgs[i]) && k < |S.Parsed(msgs[i]).value.1|
    ensures k in D.Covered(D.Delivered(es), S.Parsed(msgs[i]).value.0.seqno)
  {
    T.EachByteOnce(msgs, rs, i, k);
    var r := CarrierExists(rs, S.Parsed(msgs[i]).value.0.seqno, k);
    BroughtHeader(es, r);
    CoveredHas(D.Delivered(es), ParseFragment(r.plaintext).value.0, k);
  }

  /** Once a transmission has arrived up to and including the next message, that message is available. */
  lemma TransmissionDelivers(
      sent: seq<D.Sent>, es: seq<D.Event>, msgs: seq<S.OutMsg>, rs: seq<R.Record>, i: nat)
    requires |sent| < TWO_TO_16 && (forall e :: e in es ==> D.EventOk(sent, e)) && D.TimelyRun(es)
    requires T.DistinctNumbers(msgs) && T.Walk(msgs, T.Pos(0, 0), rs).Some? && Arrived(es, rs)
    requires i < |msgs| && !msgs[i].isCcs && IsSent(sent, msgs[i], |D.Run(D.START, es).handed|)
    requires i < T.Walk(msgs, T.Pos(0, 0), rs).value.written
    ensures DtlsReceive.Current(D.Run(D.START, es).r).Some?
  {
    var p := D.Run(D.START, es);
    var s := |p.handed|;
    ParsedSent(sent, msgs[i], s);
    D.RunTracks(sent, es);
    D.InOrderDelivery(sent, es);
    var r := WalkMentions(msgs, rs, i);
    BroughtHeader(es, r);
    assert D.Mentioned(D.Delivered(es), s);
    assert D.PartOf(p.r.pending[s], sent[s]);
    forall k: nat | k < |sent[s].body|
      ensures k in p.r.pending[s].bytes
    {
      ByteArrives(es, msgs, rs, i, k);
    }
    assert p.r.pending[s].bytes.Keys == DtlsReassembly.Positions(|sent[s].body|);
  }

  /** The same for a flight of the running system, sent in any number of interrupted attempts at any MTU. */
  lemma FlightDelivers(s: System, w: R.WriteState, attempts: seq<T.Attempt>, i: nat)
    requires Valid(s) && |s.sent| < TWO_TO_16 && D.TimelyRun(s.es)
    requires i < |s.f.msgs| && !s.f.msgs[i].isCcs && IsSent(s.sent, s.f.msgs[i], |D.Run(D.START, s.es).handed|)
    requires !T.LosesAny(w, S.Flight(s.f.msgs, 0, 0), attempts)
    requires var t := T.Resumed(w, S.Flight(s.f.msgs, 0, 0), attempts);
             i < t.f.written && Arrived(s.es, T.Records(t.packets))
    ensures DtlsReceive.Current(D.Run(D.START, s.es).r).Some?
  {
    T.FlightTiled(w, s.f.msgs, attempts);
    var t := T.Resumed(w, S.Flight(s.f.msgs, 0, 0), attempts);
    TransmissionDelivers(s.sent, s.es, s.f.msgs, T.Records(t.packets), i);
  }

  // ---------- on the wire ----------

  /** The first byte of a record says what it is: a piece of a handshake message (22) or a ChangeCipherSpec (20). */
  lemma FirstByte(s: System, r: R.Record)
    requires Valid(s) && r in s.net
    ensures R.Wire(r)[0] == 22 || R.Wire(r)[0] == 20
    ensures R.Wire(r)[0] == 22 ==> D.AuthenticRecord(s.sent, r.plaintext)
    ensures R.Wire(r)[0] == 20 ==> r.plaintext == [1]
  {
    hide D.AuthenticRecord, KeysOk;
    R.RecordLayout(r, 0);
    assert Honest(s.sent, r);
  }

  // ---------- ChangeCipherSpec ----------

  predicate CarriesCcs(r: R.Record) {
    r.rtype == RT_CHANGE_CIPHER_SPEC && r.plaintext == [MT_CCS]
  }

  lemma NextCarriesCcs(msgs: seq<S.OutMsg>, pos: T.Pos, r: R.Record, i: nat)
    requires T.Next(msgs, pos, r).Some? && pos.written <= i < T.Next(msgs, pos, r).value.written
    requires i < |msgs| && msgs[i].isCcs
    ensures CarriesCcs(r)
  {
  }

  /** A transmission that has passed a ChangeCipherSpec has a record of it. */
  lemma {:induction false} WalkCarriesCcs(msgs: seq<S.OutMsg>, rs: seq<R.Record>, i: nat) returns (r: R.Record)
    requires T.Walk(msgs, T.Pos(0, 0), rs).Some? && i < T.Walk(msgs, T.Pos(0, 0), rs).value.written
    requires i < |msgs| && msgs[i].isCcs
    ensures r in rs && CarriesCcs(r)
    decreases |rs|
  {
    hide T.Next, CarriesCcs;
    var init := rs[..|rs| - 1];
    if i < T.Walk(msgs, T.Pos(0, 0), init).value.written {
      r := WalkCarriesCcs(msgs, init, i);
    } else {
      r := rs[|rs| - 1];
      NextCarriesCcs(msgs, T.Walk(msgs, T.Pos(0, 0), init).value, r, i);
    }
  }

  /** Such a record, delivered in epoch 0 for the first time, is available to the handshake. */
  lemma CcsReceived(s: System, i: nat, key: nat, cipher: R.ReadCipher, rest: Bytes, maxLen: nat)
    requires Valid(s) && HasKey(s, i, key, cipher) && s.net[i].version == s.keys[key].recordVersion
    requires CarriesCcs(s.net[i]) && |s.net[i].ciphertext| <= R.MAX_ENCRYPTED_LENGTH && cipher.isNull
    requires s.net[i].epoch == s.rs.epoch && R.FullNumber(s.net[i]) !in s.rs.seen
    requires s.rs.max < R.FullNumber(s.net[i]) + DtlsReplay.WINDOW_SIZE
    ensures D.Run(D.START, Step(s, Receive(i, key, cipher, rest, maxLen)).es).r.ccs
  {
    hide R.Undoes, R.SealedBy, R.FullNumber, D.CcsWaits, Valid;
    Received(s, i, key, cipher, rest, maxLen);
    var e := D.Deliver(s.net[i].rtype, s.net[i].plaintext, maxLen, cipher.isNull);
    D.CcsWaitsMore(s.es, e);
    D.CcsExactly(s.es + [e]);
  }

  lemma CcsStays(es: seq<D.Event>, e: D.Event)
    requires D.Run(D.START, es).r.ccs && !e.TakeChangeCipherSpec?
    ensures D.Run(D.START, es + [e]).r.ccs
  {
    hide D.CcsWaits, D.Run;
    D.CcsExactly(es);
    D.CcsWaitsMore(es, e);
    D.CcsExactly(es + [e]);
  }

  lemma StepBlocked(s: System, m: Move)
    requires S.FlightOk(s.f) && D.Run(D.START, s.es).r.ccs && !m.TakeChangeCipherSpec?
    ensures D.Run(D.START, Step(s, m).es).r.ccs && Step(s, m).rs.epoch == s.rs.epoch
  {
    hide D.Run, R.Undoes, R.SealedBy, Added, S.Flushed;
    match m {
      case Receive(i, key, cipher, rest, maxLen) =>
        if HasKey(s, i, key, cipher) {
          var out := Delivery(s, i, cipher, rest).1;
          if out.verdict.OpenSuccess? {
            CcsStays(s.es, D.Deliver(out.rtype, out.plaintext, maxLen, cipher.isNull));
          } else {
            assert s.es + [] == s.es;
          }
        }
      case GetMessage => CcsStays(s.es, D.GetMessage);
      case NextMessage => CcsStays(s.es, D.NextMessage);
      case SetReadState => CcsStays(s.es, D.NewEpoch);
      case _ =>
    }
  }

  /** A ChangeCipherSpec that has come in stays, and the receiver's keys do not change, until it is taken. */
  lemma {:induction false} CcsBlocks(s: System, ms: seq<Move>)
    requires S.FlightOk(s.f) && D.Run(D.START, s.es).r.ccs && TakeChangeCipherSpec !in ms
    ensures var s' := Runs(s, ms); D.Run(D.START, s'.es).r.ccs && s'.rs.epoch == s.rs.epoch
    decreases |ms|
  {
    hide Step, D.Run;
    if ms != [] {
      CcsBlocks(s, ms[..|ms| - 1]);
      StepBlocked(Runs(s, ms[..|ms| - 1]), ms[|ms| - 1]);
    }
  }

  // ---------- a loss that can happen ----------

  const HELLO_DONE: byte := 14    // SSL3_MT_SERVER_HELLO_DONE

  /** An empty message, a ChangeCipherSpec and a flush, on a new connection. */
  const TWO_IN_A_FLIGHT: seq<Move> := [AddMessage(HELLO_DONE, []), AddChangeCipherSpec, Flush(1400, [])]

  /** The cipher seals the message as record 0 and refuses the ChangeCipherSpec as record 1. */
  predicate SealsOnlyFirst(w: R.WriteState) {
    var data := S.Serialized(HELLO_DONE, 0, []);
    var sealed := w.aead.seal(RT_HANDSHAKE, w.aead.recordVersion, 0, 0, data);
    && w.epoch == 0 && w.counter == 0 && w.aead.nonceLen <= w.aead.maxOverhead < 100
    && sealed.Some? && |sealed.value| <= |data| + w.aead.maxOverhead
    && w.aead.seal(RT_CHANGE_CIPHER_SPEC, w.aead.recordVersion, 0, 1, [MT_CCS]).None?
  }

  lemma HelloSealed(w: R.WriteState)
    requires SealsOnlyFirst(w)
    ensures var hello := S.OutMsg(S.Serialized(HELLO_DONE, 0, []), 0, false);
            var (w', result) := S.SealedMessage(w, hello, 0, 1400);
            && w' == w.(counter := 1) && result.SealSuccess? && R.Length(result.record) < 200
  {
    var hello := S.OutMsg(S.Serialized(HELLO_DONE, 0, []), 0, false);
    ParsedSent([D.Sent(HELLO_DONE, [])], hello, 0);
    assert S.Fragment(Header(HELLO_DONE, 0, 0, 0, 0), [], 0, 0) == hello.data;
    hide S.Parsed, HeaderBytes;
  }

  lemma CcsRefused(w: R.WriteState, room: nat)
    requires SealsOnlyFirst(w) && room > 200
    ensures var next := w.(counter := 1);
            S.SealedMessage(next, S.OutMsg([], 0, true), 0, room) == (next, S.SealError)
  {
    hide S.Serialized;
  }

  /**
   If the cipher seals record 0 and refuses record 1, the flush fails behind the first message of the packet. That
   message was never written, and by FlightTiled no later flush closes the gap.
   */
  lemma SealFailureSkips(w: R.WriteState)
    requires SealsOnlyFirst(w)
    ensures var s := Runs(Start(w), TWO_IN_A_FLIGHT);
            && s.sent == [D.Sent(HELLO_DONE, [])] && s.net == [] && s.f.written == 1 && |s.f.msgs| == 2
            && T.LosesAny(w, S.Flight(s.f.msgs, 0, 0), [T.Attempt(1400, [])])
  {
    var hello := S.OutMsg(S.Serialized(HELLO_DONE, 0, []), 0, false);
    var msgs := [hello, S.OutMsg([], 0, true)];
    var f := S.Flight(msgs, 0, 0);
    TwoAdded(w);
    HelloSealed(w);
    var (w', result) := S.SealedMessage(w, hello, 0, 1400);
    CcsRefused(w, 1400 - R.Length(result.record));
    hide S.SealedMessage, S.Serialized, Runs, R.Length;
    S.PackedRound(w, f, 1400, []);
    S.PackedRound(w', S.Flight(msgs, 1, 0), 1400 - R.Length(result.record), [result.record]);
    OneAttempt(w, f, S.Packing(w', S.Flight(msgs, 1, 0), [result.record], false));
  }

  /** A single flush that fails behind some records. */
  lemma OneAttempt(w: R.WriteState, f: S.Flight, p: S.Packing)
    requires S.FlightOk(f) && f.written < |f.msgs| && S.Packed(w, f, 1400, []) == p && !p.ok && p.f != f
    ensures T.LosesAny(w, f, [T.Attempt(1400, [])])
    ensures S.Flushed(w, f, 1400, []) == S.Flushing(p.w, p.f, [], S.SealFailed) && T.Records([]) == []
  {
    hide S.Packed;
    assert T.Resumed(w, f, []) == T.Transmission(w, f, []);
    assert [T.Attempt(1400, [])][..0] == [];
  }

  lemma RunsOne(s: System, ms: seq<Move>, m: Move)
    requires S.FlightOk(s.f)
    ensures Runs(s, ms + [m]) == Step(Runs(s, ms), m)
  {
    assert (ms + [m])[..|ms|] == ms;
  }

  lemma TwoAdded(w: R.WriteState)
    ensures var s := Runs(Start(w), TWO_IN_A_FLIGHT);
            var msgs := [S.OutMsg(S.Serialized(HELLO_DONE, 0, []), w.epoch, false), S.OutMsg([], w.epoch, true)];
            s == Transmitted(Start(w).(f := S.Flight(msgs, 0, 0), complete := true, sent := [D.Sent(HELLO_DONE, [])]),
                             S.Flight(msgs, 0, 0), 1400, [])
  {
    hide Transmitted, S.Serialized;
    var ms := TWO_IN_A_FLIGHT;
    var hello, ccs := S.OutMsg(S.Serialized(HELLO_DONE, 0, []), w.epoch, false), S.OutMsg([], w.epoch, true);
    var one := Start(w).(f := S.Flight([hello], 0, 0), sent := [D.Sent(HELLO_DONE, [])]);
    assert [] + [hello] == [hello] && [hello] + [ccs] == [hello, ccs];
    assert ms[..1] == [ms[0]] && ms[..2] == [ms[0], ms[1]] && ms == ms[..2] + [ms[2]];
    RunsOne(Start(w), [], ms[0]);
    RunsOne(Start(w), ms[..1], ms[1]);
    RunsOne(Start(w), ms[..2], ms[2]);
    assert Runs(Start(w), ms[..1]) == one;
    assert Runs(Start(w), ms[..2]) == one.(f := S.Flight([hello, ccs], 0, 0));
  }
}
