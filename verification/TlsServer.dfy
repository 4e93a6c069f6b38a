/** The server's handshake machine for TLS 1.0 to 1.2 (handshake_server.cc). */
module TlsServer {
  import opened Basics
  import opened TlsHandshake

  datatype State =
    | StartAccept | ReadClientHello | SelectCertificate | SelectParameters | SendServerHello
    | SendServerCertificate | SendServerKeyExchange | SendServerHelloDone
    | ReadClientCertificate | VerifyClientCertificate | ReadClientKeyExchange | ReadClientCertificateVerify
    | ReadChangeCipherSpec | ProcessChangeCipherSpec | ReadNextProto | ReadChannelId
    | ReadClientFinished | SendServerFinished | FinishServerHandshake | Done

  /** What the server is set up to do with this ClientHello. */
  datatype Config = Config(
    random: nat,
    found: Option<nat>,           // ssl_get_prev_session: the master secret of the session to resume
    cipher: Cipher,               // ssl3_choose_cipher
    status: bool,                 // an OCSP response is configured and was asked for
    tickets: bool, renew: bool,   // tickets_supported, renew_ticket
    verifyPeer: bool, unlessChannelId: bool, requireCertificate: bool,
    nextProto: bool, channelId: bool, originalHashes: bool, ems: bool, hint: bool)

  datatype Server = Server(state: State, core: Core)

  function To(s: Server, state: State, core: Core): (Server, Wait) {
    (Server(state, core), WaitOk)
  }

  predicate IsECDHE(c: Cipher) { c.ECDHE? || c.ECDHE_PSK? }

  /** do_select_parameters, once the session is known */
  function SelectParametersStep(cfg: Config, s: Server, m: Msg): (Server, Wait) {
    if !m.ClientHello? then (s, WaitError)
    else
      var resumed := cfg.found.Some?;
      var core := s.core.(
        session := resumed,
        secret := if resumed then cfg.found.value else s.core.secret,
        ticketExpected := if resumed then cfg.renew else cfg.tickets,
        certRequest := !resumed && cfg.verifyPeer && !(cfg.unlessChannelId && s.core.channelId)
                       && UsesCertificateAuth(s.core.cipher));
      var hashed := HashMessage(InitHash(core), m);
      To(s, SendServerHello, NextMessage(if core.certRequest then hashed else FreeBuffer(hashed), m))
  }

  function ChosenParams(c: Core): Params {
    Params(c.session, c.cipher, c.statusExpected, c.ticketExpected, c.nextProto, c.channelId, c.ems)
  }

  /** do_send_server_hello */
  function SendServerHelloStep(cfg: Config, s: Server): (Server, Wait) {
    var core := s.core.(
      channelId := s.core.channelId && IsECDHE(s.core.cipher) && (s.core.session ==> cfg.originalHashes),
      statusExpected := cfg.status && !s.core.session && UsesCertificateAuth(s.core.cipher));
    To(s, if core.session then SendServerFinished else SendServerCertificate,
       AddMessage(core, ServerHello(cfg.random, ChosenParams(core))))
  }

  /** `server_params` is not empty. */
  predicate HasParams(cfg: Config, c: Core) {
    RequiresServerKeyExchange(c.cipher) || (!UsesCertificateAuth(c.cipher) && cfg.hint)
  }

  function SendServerCertificateStep(s: Server): (Server, Wait) {
    if !UsesCertificateAuth(s.core.cipher) then To(s, SendServerKeyExchange, s.core)
    else
      var core := AddMessage(s.core, Certificate(true));
      To(s, SendServerKeyExchange, if core.statusExpected then AddMessage(core, CertificateStatus) else core)
  }

  function SendServerKeyExchangeStep(cfg: Config, s: Server, v: Verdict): (Server, Wait) {
    if !HasParams(cfg, s.core) then To(s, SendServerHelloDone, s.core)
    else if UsesCertificateAuth(s.core.cipher) && v.Pend? then (s, WaitPending)
    else To(s, SendServerHelloDone, AddMessage(s.core, ServerKeyExchange(cfg.random)))
  }

  function SendServerHelloDoneStep(s: Server): (Server, Wait) {
    var core := if s.core.certRequest then AddMessage(s.core, CertificateRequest) else s.core;
    (Server(ReadClientCertificate, AddMessage(core, ServerHelloDone)), WaitFlush)
  }

  function ReadClientCertificateStep(cfg: Config, s: Server, m: Msg): (Server, Wait) {
    if !m.Certificate? then (s, WaitError)
    else if m.nonempty then To(s, VerifyClientCertificate, HashAndRelease(s.core, m).(peerPubkey := true))
    else if cfg.requireCertificate then (s, WaitError)
    else To(s, VerifyClientCertificate, FreeBuffer(HashAndRelease(s.core, m)))
  }

  function ReadClientKeyExchangeStep(k: Crypto, s: Server, m: Msg, v: Verdict): (Server, Wait)
    requires s.core.hash.Some?
  {
    if !m.ClientKeyExchange? then (s, WaitError)
    else if s.core.cipher.RSA? && v.Pend? then (s, WaitPending)
    else To(s, ReadClientCertificateVerify, NextMessage(DeriveSecret(k, HashMessage(s.core, m), m.premaster), m))
  }

  function ReadCertificateVerifyStep(k: Crypto, s: Server, m: Msg): (Server, Wait)
    requires s.core.buffer.Some?
  {
    if !m.CertificateVerify? || m.signature != (k.sign)(s.core.buffer.value) then (s, WaitError)
    else
      var core := Note(s.core, VerifyChecked(s.core.buffer.value));
      To(s, ReadChangeCipherSpec, HashAndRelease(FreeBuffer(core), m))
  }

  function SendServerFinishedStep(k: Crypto, s: Server): (Server, Wait)
    requires CanFinish(s.core)
  {
    var core := if s.core.ticketExpected then AddMessage(s.core, NewSessionTicket(false)) else s.core;
    (Server(if s.core.session then ReadChangeCipherSpec else FinishServerHandshake,
            SendFinished(k, ChangeWriteCipher(core), true)), WaitFlush)
  }

  predicate Reads(s: Server) {
    match s.state
    case ReadClientHello => true
    case SelectCertificate => true
    case SelectParameters => true
    case ReadClientCertificate => s.core.certRequest
    case ReadClientKeyExchange => true
    case ReadClientCertificateVerify => s.core.peerPubkey
    case ReadNextProto => s.core.nextProto
    case ReadChannelId => s.core.channelId
    case ReadClientFinished => true
    case _ => false
  }

  function OnMessage(k: Crypto, cfg: Config, s: Server, m: Msg, v: Verdict): (Server, Wait)
    requires Reads(s)
    requires s.state.ReadClientKeyExchange? ==> s.core.hash.Some?
    requires s.state.ReadClientCertificateVerify? ==> s.core.buffer.Some?
    requires s.state.ReadClientFinished? ==> CanFinish(s.core)
  {
    match s.state
    case ReadClientHello =>
      if !m.ClientHello? then (s, WaitError)
      else if v.Pend? then (s, WaitPending)
      else
        To(s, SelectCertificate,
           s.core.(nextProto := cfg.nextProto, channelId := cfg.channelId, ems := cfg.ems))
    case SelectCertificate =>
      if v.Pend? then (s, WaitPending)
      else if !m.ClientHello? then (s, WaitError)
      else To(s, SelectParameters, s.core.(cipher := cfg.cipher))
    case SelectParameters => if v.Pend? then (s, WaitPending) else SelectParametersStep(cfg, s, m)
    case ReadClientCertificate => ReadClientCertificateStep(cfg, s, m)
    case ReadClientKeyExchange => ReadClientKeyExchangeStep(k, s, m, v)
    case ReadClientCertificateVerify => ReadCertificateVerifyStep(k, s, m)
    case ReadNextProto =>
      if !m.NextProto? then (s, WaitError) else To(s, ReadChannelId, HashAndRelease(s.core, m))
    case ReadChannelId =>
      if !m.ChannelId? then (s, WaitError) else To(s, ReadClientFinished, HashAndRelease(s.core, m))
    case ReadClientFinished =>
      if !m.Finished? then (s, WaitError)
      else
        match GetFinished(k, s.core, m, false)
        case None => (s, WaitError)
        case Some(core) => To(s, if core.session then FinishServerHandshake else SendServerFinished, core)
  }

  function OnOwn(k: Crypto, cfg: Config, s: Server, v: Verdict): (Server, Wait)
    requires !Reads(s) && (s.state.SendServerFinished? ==> CanFinish(s.core))
  {
    match s.state
    case StartAccept => To(s, ReadClientHello, s.core)
    case SendServerHello => SendServerHelloStep(cfg, s)
    case SendServerCertificate => SendServerCertificateStep(s)
    case SendServerKeyExchange => SendServerKeyExchangeStep(cfg, s, v)
    case SendServerHelloDone => SendServerHelloDoneStep(s)
    case ReadClientCertificate => To(s, VerifyClientCertificate, s.core)
    case VerifyClientCertificate =>
      if s.core.peerPubkey && v.Pend? then (s, WaitPending) else To(s, ReadClientKeyExchange, s.core)
    case ReadClientCertificateVerify => To(s, ReadChangeCipherSpec, FreeBuffer(s.core))
    case ReadChangeCipherSpec => (Server(ProcessChangeCipherSpec, s.core), WaitCcs)
    case ProcessChangeCipherSpec => To(s, ReadNextProto, ChangeReadCipher(s.core))
    case ReadNextProto => To(s, ReadChannelId, s.core)
    case ReadChannelId => To(s, ReadClientFinished, s.core)
    case SendServerFinished => SendServerFinishedStep(k, s)
    case FinishServerHandshake => To(s, Done, s.core)
    case Done => (s, WaitOk)
  }

  // ---------- what holds between two state functions ----------

  predicate BeforeParameters(s: State) {
    s.StartAccept? || s.ReadClientHello? || s.SelectCertificate? || s.SelectParameters?
  }

  /** The states of a full handshake between ServerHello and ChangeCipherSpec. */
  predicate FullOnly(s: State) {
    || s.SendServerCertificate? || s.SendServerKeyExchange? || s.SendServerHelloDone?
    || s.ReadClientCertificate? || s.VerifyClientCertificate? || s.ReadClientKeyExchange?
    || s.ReadClientCertificateVerify?
  }

  predicate KeepsBuffer(s: Server) {
    match s.state
    case VerifyClientCertificate => s.core.peerPubkey
    case ReadClientKeyExchange => s.core.peerPubkey
    case ReadClientCertificateVerify => s.core.peerPubkey
    case SendServerHello => s.core.certRequest
    case _ => BeforeParameters(s.state) || (FullOnly(s.state) && s.core.certRequest)
  }

  const SENDING := [KCcs, KWrite, KSent]

  function FullPrologue(s: Server): seq<Kind> {
    [KSecret] + if s.core.peerPubkey then [KChecked] else []
  }

  function Trace(s: Server): seq<Kind> {
    if s.core.session then
      match s.state
      case ReadChangeCipherSpec => SENDING
      case ProcessChangeCipherSpec => SENDING
      case ReadNextProto => SENDING + [KRead]
      case ReadChannelId => SENDING + [KRead]
      case ReadClientFinished => SENDING + [KRead]
      case FinishServerHandshake => SENDING + [KRead, KVerified]
      case Done => SENDING + [KRead, KVerified]
      case _ => []
    else
      match s.state
      case ReadClientCertificateVerify => [KSecret]
      case ReadChangeCipherSpec => FullPrologue(s)
      case ProcessChangeCipherSpec => FullPrologue(s)
      case ReadNextProto => FullPrologue(s) + [KRead]
      case ReadChannelId => FullPrologue(s) + [KRead]
      case ReadClientFinished => FullPrologue(s) + [KRead]
      case SendServerFinished => FullPrologue(s) + [KRead, KVerified]
      case FinishServerHandshake => FullPrologue(s) + [KRead, KVerified] + SENDING
      case Done => FullPrologue(s) + [KRead, KVerified] + SENDING
      case _ => []
  }

  predicate Inv(s: Server) {
    && TranscriptOk(s.core)
    && (s.core.hash.Some? <==> !BeforeParameters(s.state))
    && (s.core.buffer.Some? <==> KeepsBuffer(s))
    && (FullOnly(s.state) || BeforeParameters(s.state) ==> !s.core.session)
    && (s.core.certRequest ==> !s.core.session && !BeforeParameters(s.state))
    && (s.core.peerPubkey ==> s.core.certRequest && !s.state.SendServerHello? && !s.state.SendServerCertificate?
                              && !s.state.SendServerKeyExchange? && !s.state.SendServerHelloDone?
                              && !s.state.ReadClientCertificate?)
    && s.core.kinds == Trace(s)
    && s.core.released == s.core.hashed
    && (BeforeParameters(s.state) ==> s.core.released == [])
  }

  function Rank(s: Server): nat {
    match s.state
    case StartAccept => 30
    case ReadClientHello => 29
    case SelectCertificate => 28
    case SelectParameters => 27
    case SendServerHello => 26
    case SendServerCertificate => 25
    case SendServerKeyExchange => 24
    case SendServerHelloDone => 23
    case ReadClientCertificate => 22
    case VerifyClientCertificate => 21
    case ReadClientKeyExchange => 20
    case ReadClientCertificateVerify => 19
    case ReadChangeCipherSpec => 12
    case ProcessChangeCipherSpec => 11
    case ReadNextProto => 10
    case ReadChannelId => 9
    case ReadClientFinished => 8
    case SendServerFinished => if s.core.session then 15 else 5
    case FinishServerHandshake => 1
    case Done => 0
  }

  predicate Good(s: Server, r: (Server, Wait)) {
    r.1 == WaitError ||
    (Inv(r.0) && (if r.1 == WaitPending || r.1 == WaitMessage then r.0 == s else s.state.Done? || Rank(r.0) < Rank(s)))
  }

  /** One call of a state function; `front` is what get_message returns. */
  function Step(k: Crypto, cfg: Config, s: Server, front: Option<Msg>, v: Verdict): (Server, Wait)
    requires Inv(s)
  {
    if v.Reject? then (s, WaitError)
    else if !Reads(s) then OnOwn(k, cfg, s, v)
    else if front.None? then (s, WaitMessage)
    else OnMessage(k, cfg, s, front.value, v)
  }

  predicate TakesAtMost(s: Server, r: (Server, Wait), m: Msg) {
    r.0.core.released == s.core.released || r.0.core.released == s.core.released + [m]
  }

  // ---------- one lemma for each kind of state ----------

  lemma SendFinishedEffect(k: Crypto, s: Server)
    requires TranscriptOk(s.core) && CanFinish(s.core)
    ensures var (s', wait) := SendServerFinishedStep(k, s);
            && wait == WaitFlush
            && s'.state == (if s.core.session then ReadChangeCipherSpec else FinishServerHandshake)
            && TranscriptOk(s'.core) && CanFinish(s'.core)
            && s'.core == s.core.(buffer := None, hash := s'.core.hash, all := s'.core.all, flight := s'.core.flight,
                                  marks := s'.core.marks, kinds := s.core.kinds + SENDING)
  {
    var core := if s.core.ticketExpected then AddMessage(s.core, NewSessionTicket(false)) else s.core;
    TicketAdded(s.core);
    TlsHandshake.SendFinishedEffect(k, core, true);
    hide AddMessage, SendFinished, ChangeWriteCipher, TranscriptOk;
  }

  lemma TicketAdded(c: Core)
    requires TranscriptOk(c) && CanFinish(c)
    ensures var r := AddMessage(c, NewSessionTicket(false));
            && TranscriptOk(r) && CanFinish(r)
            && r == c.(hash := r.hash, all := r.all, flight := r.flight)
  {
  }

  lemma SendFinishedKeeps(k: Crypto, s: Server)
    requires Inv(s) && s.state.SendServerFinished?
    ensures Good(s, SendServerFinishedStep(k, s)) && SendServerFinishedStep(k, s).0.core.released == s.core.released
  {
    SendFinishedEffect(k, s);
    SentInv(s, SendServerFinishedStep(k, s).0);
    hide SendServerFinishedStep, Inv;
  }

  lemma SentInv(s: Server, s': Server)
    requires Inv(s) && s.state.SendServerFinished?
    requires s'.state == if s.core.session then ReadChangeCipherSpec else FinishServerHandshake
    requires TranscriptOk(s'.core) && CanFinish(s'.core)
    requires s'.core == s.core.(buffer := None, hash := s'.core.hash, all := s'.core.all, flight := s'.core.flight,
                                marks := s'.core.marks, kinds := s.core.kinds + SENDING)
    ensures Inv(s')
  {
  }

  lemma SendHelloKeeps(k: Crypto, cfg: Config, s: Server)
    requires Inv(s) && s.state.SendServerHello?
    ensures Good(s, SendServerHelloStep(cfg, s)) && SendServerHelloStep(cfg, s).0.core.released == s.core.released
  {
  }

  lemma SendCertificateKeeps(k: Crypto, cfg: Config, s: Server, v: Verdict)
    requires Inv(s) && s.state.SendServerCertificate?
    ensures Good(s, OnOwn(k, cfg, s, v)) && OnOwn(k, cfg, s, v).0.core.released == s.core.released
  {
  }

  lemma SendKeyExchangeKeeps(k: Crypto, cfg: Config, s: Server, v: Verdict)
    requires Inv(s) && s.state.SendServerKeyExchange?
    ensures Good(s, OnOwn(k, cfg, s, v)) && OnOwn(k, cfg, s, v).0.core.released == s.core.released
  {
  }

  lemma SendHelloDoneKeeps(k: Crypto, cfg: Config, s: Server, v: Verdict)
    requires Inv(s) && s.state.SendServerHelloDone?
    ensures Good(s, OnOwn(k, cfg, s, v)) && OnOwn(k, cfg, s, v).0.core.released == s.core.released
  {
  }

  lemma CertificatePassKeeps(k: Crypto, cfg: Config, s: Server, v: Verdict)
    requires Inv(s) && !Reads(s)
    requires s.state.ReadClientCertificate? || s.state.VerifyClientCertificate? || s.state.ReadClientCertificateVerify?
    ensures Good(s, OnOwn(k, cfg, s, v)) && OnOwn(k, cfg, s, v).0.core.released == s.core.released
  {
  }

  lemma ChangeCipherKeeps(k: Crypto, cfg: Config, s: Server, v: Verdict)
    requires Inv(s) && (s.state.ReadChangeCipherSpec? || s.state.ProcessChangeCipherSpec?)
    ensures Good(s, OnOwn(k, cfg, s, v)) && OnOwn(k, cfg, s, v).0.core.released == s.core.released
  {
  }

  /** The states that only move on. */
  lemma PassKeeps(k: Crypto, cfg: Config, s: Server, v: Verdict)
    requires Inv(s) && !Reads(s)
    requires s.state.StartAccept? || s.state.ReadNextProto? || s.state.ReadChannelId?
             || s.state.FinishServerHandshake? || s.state.Done?
    ensures Good(s, OnOwn(k, cfg, s, v)) && OnOwn(k, cfg, s, v).0.core == s.core
  {
  }

  lemma OnOwnKeepsInv(k: Crypto, cfg: Config, s: Server, v: Verdict)
    requires Inv(s) && !Reads(s)
    ensures Good(s, OnOwn(k, cfg, s, v)) && OnOwn(k, cfg, s, v).0.core.released == s.core.released
  {
    match s.state {
      case SendServerFinished => SendFinishedKeeps(k, s);
      case SendServerHello => SendHelloKeeps(k, cfg, s);
      case SendServerCertificate => SendCertificateKeeps(k, cfg, s, v);
      case SendServerKeyExchange => SendKeyExchangeKeeps(k, cfg, s, v);
      case SendServerHelloDone => SendHelloDoneKeeps(k, cfg, s, v);
      case ReadClientCertificate => CertificatePassKeeps(k, cfg, s, v);
      case VerifyClientCertificate => CertificatePassKeeps(k, cfg, s, v);
      case ReadClientCertificateVerify => CertificatePassKeeps(k, cfg, s, v);
      case ReadChangeCipherSpec => ChangeCipherKeeps(k, cfg, s, v);
      case ProcessChangeCipherSpec => ChangeCipherKeeps(k, cfg, s, v);
      case _ => PassKeeps(k, cfg, s, v);
    }
  }

  lemma HelloKeeps(k: Crypto, cfg: Config, s: Server, m: Msg, v: Verdict)
    requires Inv(s) && (s.state.ReadClientHello? || s.state.SelectCertificate? || s.state.SelectParameters?)
    ensures Good(s, OnMessage(k, cfg, s, m, v)) && TakesAtMost(s, OnMessage(k, cfg, s, m, v), m)
  {
  }

  lemma CertificateKeeps(k: Crypto, cfg: Config, s: Server, m: Msg, v: Verdict)
    requires Inv(s) && Reads(s) && s.state.ReadClientCertificate?
    ensures Good(s, OnMessage(k, cfg, s, m, v)) && TakesAtMost(s, OnMessage(k, cfg, s, m, v), m)
  {
    var r := ReadClientCertificateStep(cfg, s, m);
    assert OnMessage(k, cfg, s, m, v) == r;
    if r.1 != WaitError {
      CertificateTaken(s, r.0, m);
    }
    hide Inv, OnMessage;
  }

  lemma CertificateTaken(s: Server, s': Server, m: Msg)
    requires Inv(s) && s.state.ReadClientCertificate? && s.core.certRequest && s'.state.VerifyClientCertificate?
    requires var core := HashAndRelease(s.core, m);
             s'.core == if s'.core.peerPubkey then core.(peerPubkey := true) else FreeBuffer(core)
    ensures Inv(s')
  {
  }

  lemma KeyExchangeKeeps(k: Crypto, cfg: Config, s: Server, m: Msg, v: Verdict)
    requires Inv(s) && s.state.ReadClientKeyExchange?
    ensures Good(s, OnMessage(k, cfg, s, m, v)) && TakesAtMost(s, OnMessage(k, cfg, s, m, v), m)
  {
  }

  lemma VerifyKeeps(k: Crypto, cfg: Config, s: Server, m: Msg, v: Verdict)
    requires Inv(s) && Reads(s) && s.state.ReadClientCertificateVerify?
    ensures Good(s, OnMessage(k, cfg, s, m, v)) && TakesAtMost(s, OnMessage(k, cfg, s, m, v), m)
  {
  }

  lemma ExtraKeeps(k: Crypto, cfg: Config, s: Server, m: Msg, v: Verdict)
    requires Inv(s) && Reads(s) && (s.state.ReadNextProto? || s.state.ReadChannelId?)
    ensures Good(s, OnMessage(k, cfg, s, m, v)) && TakesAtMost(s, OnMessage(k, cfg, s, m, v), m)
  {
  }

  lemma ReadKinds(p: seq<Kind>)
    ensures p + [KRead] + [KVerified] == p + [KRead, KVerified]
  {
  }

  lemma FinishedKeeps(k: Crypto, cfg: Config, s: Server, m: Msg, v: Verdict)
    requires Inv(s) && s.state.ReadClientFinished?
    ensures Good(s, OnMessage(k, cfg, s, m, v)) && TakesAtMost(s, OnMessage(k, cfg, s, m, v), m)
  {
    ReadKinds(SENDING);
    ReadKinds(FullPrologue(s));
    assert OnMessage(k, cfg, s, m, v).1 != WaitError ==> FullPrologue(OnMessage(k, cfg, s, m, v).0) == FullPrologue(s);
  }

  lemma OnMessageKeepsInv(k: Crypto, cfg: Config, s: Server, m: Msg, v: Verdict)
    requires Inv(s) && Reads(s)
    ensures Good(s, OnMessage(k, cfg, s, m, v)) && TakesAtMost(s, OnMessage(k, cfg, s, m, v), m)
  {
    match s.state {
      case ReadClientHello => HelloKeeps(k, cfg, s, m, v);
      case SelectCertificate => HelloKeeps(k, cfg, s, m, v);
      case SelectParameters => HelloKeeps(k, cfg, s, m, v);
      case ReadClientCertificate => CertificateKeeps(k, cfg, s, m, v);
      case ReadClientKeyExchange => KeyExchangeKeeps(k, cfg, s, m, v);
      case ReadClientCertificateVerify => VerifyKeeps(k, cfg, s, m, v);
      case ReadNextProto => ExtraKeeps(k, cfg, s, m, v);
      case ReadChannelId => ExtraKeeps(k, cfg, s, m, v);
      case ReadClientFinished => FinishedKeeps(k, cfg, s, m, v);
    }
  }

  lemma StepKeepsInv(k: Crypto, cfg: Config, s: Server, front: Option<Msg>, v: Verdict)
    requires Inv(s)
    ensures Good(s, Step(k, cfg, s, front, v))
    ensures var s' := Step(k, cfg, s, front, v).0;
            s'.core.released == s.core.released
            || (front.Some? && s'.core.released == s.core.released + [front.value])
  {
    hide Inv, OnOwn, OnMessage;
    if !v.Reject? {
      if !Reads(s) {
        OnOwnKeepsInv(k, cfg, s, v);
      } else if front.Some? {
        OnMessageKeepsInv(k, cfg, s, front.value, v);
      }
    }
  }

  // ---------- whole runs ----------

  datatype Turn = Turn(available: bool, verdict: Verdict)

  function Begin(): Server {
    Server(StartAccept, TlsHandshake.Fresh(false, 0))
  }

  function Front(inbox: seq<Msg>, c: Core, available: bool): Option<Msg> {
    if available && |c.released| < |inbox| then Some(inbox[|c.released|]) else None
  }

  /** Calls of state functions in any number, up to an error, whatever the peer sends and however often it blocks. */
  function Run(k: Crypto, cfg: Config, inbox: seq<Msg>, turns: seq<Turn>): (r: (Server, Wait))
    ensures r.1 != WaitError ==> Inv(r.0)
    decreases |turns|
  {
    if turns == [] then (Begin(), WaitOk)
    else
      var (s, wait) := Run(k, cfg, inbox, turns[..|turns| - 1]);
      if wait == WaitError then (s, wait)
      else
        var turn := turns[|turns| - 1];
        StepKeepsInv(k, cfg, s, Front(inbox, s.core, turn.available), turn.verdict);
        Step(k, cfg, s, Front(inbox, s.core, turn.available), turn.verdict)
  }

  /** Messages are taken in order, each once, and each is hashed once. */
  lemma {:induction false} RunConsumes(k: Crypto, cfg: Config, inbox: seq<Msg>, turns: seq<Turn>)
    ensures var (s, wait) := Run(k, cfg, inbox, turns);
            wait != WaitError ==> s.core.released <= inbox && s.core.released == s.core.hashed
    decreases |turns|
  {
    hide Inv, OnOwn, OnMessage, Begin;
    BeginEmpty();
    if turns != [] {
      RunConsumes(k, cfg, inbox, turns[..|turns| - 1]);
      var (s, wait) := Run(k, cfg, inbox, turns[..|turns| - 1]);
      if wait != WaitError {
        var turn := turns[|turns| - 1];
        var front := Front(inbox, s.core, turn.available);
        StepKeepsInv(k, cfg, s, front, turn.verdict);
        if Step(k, cfg, s, front, turn.verdict).1 != WaitError {
          InvHashes(Step(k, cfg, s, front, turn.verdict).0);
        }
      }
    }
  }

  lemma BeginEmpty()
    ensures Begin().core.released == [] && Begin().core.hashed == []
  {
  }

  lemma InvHashes(s: Server)
    requires Inv(s)
    ensures s.core.released == s.core.hashed
  {
  }

  lemma DoneTrace(s: Server)
    requires Inv(s) && s.state.Done?
    ensures s.core.kinds == if s.core.session then [KCcs, KWrite, KSent, KRead, KVerified]
                            else FullPrologue(s) + [KRead, KVerified, KCcs, KWrite, KSent]
  {
    var p := FullPrologue(s);
    assert p + [KRead, KVerified] + SENDING == p + [KRead, KVerified, KCcs, KWrite, KSent];
  }

  /** The server's side of TlsClient.CompletedRun. */
  lemma {:induction false} CompletedRun(k: Crypto, cfg: Config, inbox: seq<Msg>, turns: seq<Turn>)
    ensures var (s, wait) := Run(k, cfg, inbox, turns);
            wait != WaitError && s.state.Done? ==>
              s.core.kinds == if s.core.session then [KCcs, KWrite, KSent, KRead, KVerified]
                               else FullPrologue(s) + [KRead, KVerified, KCcs, KWrite, KSent]
  {
    hide Step, Inv, Trace;
    var (s, wait) := Run(k, cfg, inbox, turns);
    if wait != WaitError && s.state.Done? {
      DoneTrace(s);
    }
  }

  // ---------- the driver ----------

  /** ssl_server_handshake: state functions until one blocks. */
  function Driven(k: Crypto, cfg: Config, s: Server, inbox: seq<Msg>, verdicts: State -> Verdict): (r: (Server, Wait))
    requires Inv(s)
    ensures r.1 != WaitError ==> Inv(r.0)
    ensures r.1 == WaitOk ==> r.0.state.Done?
    decreases Rank(s)
  {
    if s.state.Done? then (s, WaitOk)
    else
      var front := Front(inbox, s.core, true);
      StepKeepsInv(k, cfg, s, front, verdicts(s.state));
      var (s', wait) := Step(k, cfg, s, front, verdicts(s.state));
      if wait != WaitOk then (s', wait) else Driven(k, cfg, s', inbox, verdicts)
  }

  /** How a call of ssl_run_handshake ends: with 1 when the handshake is complete, and otherwise to be called again. */
  datatype Outcome = Outcome(s: Server, wait: Wait, ret: int)

  /** What has been flushed is gone; the other operations bring something in. */
  function Resolved(s: Server, wait: Wait): Server {
    if wait == WaitFlush then s.(core := s.core.(flight := [])) else s
  }

  lemma ResolvedInv(s: Server, wait: Wait)
    requires Inv(s)
    ensures Inv(Resolved(s, wait))
  {
  }

  /**
   ssl_run_handshake: it resolves what the machine waits for and runs it again. `io` tells how often flushing
   and reading succeed; a pending operation returns to the caller, and is tried again by the next call.
   */
  function Ran(
      k: Crypto, cfg: Config, s: Server, wait: Wait, inbox: seq<Msg>, verdicts: State -> Verdict, io: seq<bool>): (r: Outcome)
    requires wait != WaitError ==> Inv(s)
    ensures r.wait != WaitError ==> Inv(r.s)
    decreases |io|, if wait == WaitOk then 2 else 0
  {
    match wait
    case WaitError => Outcome(s, wait, -1)
    case WaitPending => Outcome(s, WaitOk, -1)
    case WaitOk => Entered(k, cfg, s, inbox, verdicts, io)
    case _ =>
      if io == [] || !io[0] then Outcome(s, wait, -1)
      else
        ResolvedInv(s, wait);
        Entered(k, cfg, Resolved(s, wait), inbox, verdicts, io[1..])
  }

  function Entered(
      k: Crypto, cfg: Config, s: Server, inbox: seq<Msg>, verdicts: State -> Verdict, io: seq<bool>): (r: Outcome)
    requires Inv(s)
    ensures r.wait != WaitError ==> Inv(r.s)
    decreases |io|, 1
  {
    var (s', wait) := Driven(k, cfg, s, inbox, verdicts);
    if wait == WaitError then Outcome(s', wait, -1)
    else if wait == WaitOk then Outcome(s', wait, 1)
    else Ran(k, cfg, s', wait, inbox, verdicts, io)
  }

  /** Messages arrive one after the other; `inbox` is all that ever will. */
  lemma {:induction false} DrivenTakes(
      k: Crypto, cfg: Config, s: Server, inbox: seq<Msg>, n: nat, verdicts: State -> Verdict)
    requires Inv(s) && s.core.released <= inbox && n <= |inbox|
    ensures var (s', wait) := Driven(k, cfg, s, inbox[..n], verdicts);
            wait != WaitError ==> s.core.released <= s'.core.released <= inbox
    decreases Rank(s)
  {
    hide Inv, Step, Rank;
    if !s.state.Done? {
      var front := Front(inbox[..n], s.core, true);
      StepKeepsInv(k, cfg, s, front, verdicts(s.state));
      var (s', wait) := Step(k, cfg, s, front, verdicts(s.state));
      if wait == WaitOk {
        DrivenTakes(k, cfg, s', inbox, n, verdicts);
      }
    }
  }

  /** A call takes messages in order, and returns 1 only when the handshake is complete. */
  lemma {:induction false} RanTakes(
      k: Crypto, cfg: Config, s: Server, wait: Wait, inbox: seq<Msg>, n: nat, verdicts: State -> Verdict, io: seq<bool>)
    requires wait != WaitError && Inv(s) && s.core.released <= inbox && n <= |inbox|
    ensures var r := Ran(k, cfg, s, wait, inbox[..n], verdicts, io);
            && (r.wait != WaitError ==> s.core.released <= r.s.core.released <= inbox)
            && (r.ret > 0 ==> r.wait == WaitOk && r.s.state.Done?)
    decreases |io|, if wait == WaitOk then 1 else 0
  {
    hide Inv, Driven;
    if wait != WaitPending && (wait == WaitOk || (io != [] && io[0])) {
      var from, left := if wait == WaitOk then s else Resolved(s, wait), if wait == WaitOk then io else io[1..];
      ResolvedInv(s, wait);
      DrivenTakes(k, cfg, from, inbox, n, verdicts);
      var (s', wait') := Driven(k, cfg, from, inbox[..n], verdicts);
      if wait' != WaitError && wait' != WaitOk {
        RanTakes(k, cfg, s', wait', inbox, n, verdicts, left);
      }
    }
  }

  /** A call of ssl_run_handshake: the messages that have arrived by then, and how everything turns out. */
  datatype Call = Call(arrived: nat, verdicts: State -> Verdict, io: seq<bool>)

  /** Any number of calls on a new connection. */
  function Called(k: Crypto, cfg: Config, inbox: seq<Msg>, calls: seq<Call>): (r: Outcome)
    ensures r.wait != WaitError ==> Inv(r.s)
    decreases |calls|
  {
    if calls == [] then Outcome(Begin(), WaitOk, 0)
    else
      var before := Called(k, cfg, inbox, calls[..|calls| - 1]);
      var call := calls[|calls| - 1];
      Ran(k, cfg, before.s, before.wait, inbox[..Min(call.arrived, |inbox|)], call.verdicts, call.io)
  }

  lemma {:induction false} CalledTakes(k: Crypto, cfg: Config, inbox: seq<Msg>, calls: seq<Call>)
    ensures var r := Called(k, cfg, inbox, calls);
            && (r.wait != WaitError ==> r.s.core.released <= inbox)
            && (r.ret > 0 ==> r.wait == WaitOk && r.s.state.Done?)
    decreases |calls|
  {
    hide Inv, Ran, Begin;
    BeginEmpty();
    if calls != [] {
      CalledTakes(k, cfg, inbox, calls[..|calls| - 1]);
      var before := Called(k, cfg, inbox, calls[..|calls| - 1]);
      var call := calls[|calls| - 1];
      if before.wait == WaitError {
        FailedStays(k, cfg, before.s, inbox[..Min(call.arrived, |inbox|)], call.verdicts, call.io);
      } else {
        RanTakes(k, cfg, before.s, before.wait, inbox, Min(call.arrived, |inbox|), call.verdicts, call.io);
      }
    }
  }

  /** An error is final: every later call reports it again. */
  lemma FailedStays(
      k: Crypto, cfg: Config, s: Server, inbox: seq<Msg>, verdicts: State -> Verdict, io: seq<bool>)
    ensures Ran(k, cfg, s, WaitError, inbox, verdicts, io) == Outcome(s, WaitError, -1)
  {
  }

  /**
   However often the handshake was retried before it returned 1: every message was taken in order, once, and hashed
   once, and both ciphers were changed and both Finished messages passed once, in the order of the path.
   */
  lemma CompletedCalls(k: Crypto, cfg: Config, inbox: seq<Msg>, calls: seq<Call>)
    requires Called(k, cfg, inbox, calls).ret > 0
    ensures var s := Called(k, cfg, inbox, calls).s;
            && s.state.Done? && s.core.released <= inbox && s.core.released == s.core.hashed
            && s.core.kinds == if s.core.session then [KCcs, KWrite, KSent, KRead, KVerified]
                            else FullPrologue(s) + [KRead, KVerified, KCcs, KWrite, KSent]
  {
    hide Called, Inv, Trace;
    CalledTakes(k, cfg, inbox, calls);
    var s := Called(k, cfg, inbox, calls).s;
    InvHashes(s);
    DoneTrace(s);
  }

  class Connection {
    const k: Crypto
    const cfg: Config
    var hs: Server
    var wait: Wait

    constructor (crypto: Crypto, config: Config)
      ensures k == crypto && cfg == config && hs == Begin() && wait == WaitOk && Inv(hs)
    {
      k, cfg, hs, wait := crypto, config, Begin(), WaitOk;
    }

    /** ssl_server_handshake; it ends, since every state function that does not block moves on. */
    method Handshake(inbox: seq<Msg>, verdicts: State -> Verdict) returns (result: Wait)
      requires Inv(hs)
      modifies this`hs
      ensures (hs, result) == Driven(k, cfg, old(hs), inbox, verdicts)
    {
      result := WaitOk;
      while !hs.state.Done?
        invariant result == WaitOk && Inv(hs)
        invariant Driven(k, cfg, old(hs), inbox, verdicts) == Driven(k, cfg, hs, inbox, verdicts)
        decreases Rank(hs)
      {
        var front := Front(inbox, hs.core, true);
        StepKeepsInv(k, cfg, hs, front, verdicts(hs.state));
        hs, result := Step(k, cfg, hs, front, verdicts(hs.state)).0, Step(k, cfg, hs, front, verdicts(hs.state)).1;
        if result != WaitOk {
          return;
        }
      }
    }

    /** ssl_run_handshake; every round but the first uses up one operation of `io`. */
    method RunHandshake(inbox: seq<Msg>, verdicts: State -> Verdict, io: seq<bool>) returns (ret: int)
      requires wait != WaitError ==> Inv(hs)
      modifies this
      ensures Outcome(hs, wait, ret) == Ran(k, cfg, old(hs), old(wait), inbox, verdicts, io)
    {
      hide Driven, Inv, Resolved;
      var done := 0;
      while true
        invariant done <= |io| && (wait != WaitError ==> Inv(hs))
        invariant Ran(k, cfg, old(hs), old(wait), inbox, verdicts, io) == Ran(k, cfg, hs, wait, inbox, verdicts, io[done..])
        decreases |io| - done, if wait == WaitOk then 1 else 0
      {
        match wait {
          case WaitError => return -1;
          case WaitPending =>
            wait := WaitOk;
            return -1;
          case WaitOk =>
          case _ =>
            if done == |io| || !io[done] {
              return -1;
            }
            ResolvedInv(hs, wait);
            hs := Resolved(hs, wait);
            done := done + 1;
        }
        wait := Handshake(inbox, verdicts);
        if wait == WaitError {
          return -1;
        }
        if wait == WaitOk {
          return 1;
        }
      }
    }
  }
}
