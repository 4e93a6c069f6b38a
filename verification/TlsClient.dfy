/** The client's handshake machine for TLS 1.0 to 1.2 (handshake_client.cc), without renegotiation and False Start. */
module TlsClient {
  import opened Basics
  import opened TlsHandshake

  datatype State =
    | StartConnect | EnterEarlyData | ReadHelloVerifyRequest | ReadServerHello
    | ReadServerCertificate | ReadCertificateStatus | VerifyServerCertificate
    | ReadServerKeyExchange | ReadCertificateRequest | ReadServerHelloDone
    | SendClientCertificate | SendClientKeyExchange | SendClientCertificateVerify
    | SendClientFinished | FinishFlight | ReadSessionTicket | ProcessChangeCipherSpec
    | ReadServerFinished | FinishClientHandshake | Done

  datatype Config = Config(dtls: bool, random: nat, hasCertificate: bool, premaster: nat)

  datatype Client = Client(state: State, core: Core)

  function To(c: Client, s: State, core: Core): (Client, Wait) {
    (Client(s, core), WaitOk)
  }

  /** What the extensions and the session id of a ServerHello change. */
  function Accept(c: Core, p: Params): Core {
    c.(session := c.session && p.resumed, cipher := p.cipher,
       statusExpected := p.status, ticketExpected := p.ticket,
       nextProto := p.nextProto, channelId := p.channelId, ems := p.ems)
  }

  function ReadServerHelloStep(c: Client, m: Msg): (Client, Wait) {
    if !m.ServerHello? then (c, WaitError)
    else
      var core := HashMessage(InitHash(Accept(c.core, m.params)), m);
      // client authentication needs the buffer, and only a full handshake with certificates can have it
      var core' := if core.session || !UsesCertificateAuth(core.cipher) then FreeBuffer(core) else core;
      To(c, if core.session then ReadSessionTicket else ReadServerCertificate, NextMessage(core', m))
  }

  function ReadServerKeyExchangeStep(c: Client, m: Msg): (Client, Wait) {
    if !m.ServerKeyExchange? then
      if RequiresServerKeyExchange(c.core.cipher) then (c, WaitError)
      else To(c, ReadCertificateRequest, c.core)
    else if c.core.cipher.RSA? then (c, WaitError)
    else To(c, ReadCertificateRequest, HashAndRelease(c.core, m))
  }

  function ReadCertificateRequestStep(c: Client, m: Msg): (Client, Wait) {
    match m
    case ServerHelloDone => To(c, ReadServerHelloDone, FreeBuffer(c.core))
    case CertificateRequest => To(c, ReadServerHelloDone, HashAndRelease(c.core, m).(certRequest := true))
    case _ => (c, WaitError)
  }

  function SendCertificateVerifyStep(k: Crypto, cfg: Config, c: Client, v: Verdict): (Client, Wait)
    requires c.core.certRequest && cfg.hasCertificate ==> c.core.buffer.Some?
  {
    if !c.core.certRequest || !cfg.hasCertificate then To(c, SendClientFinished, c.core)
    else if v.Pend? then (c, WaitPending)
    else
      var t := c.core.buffer.value;
      var core := AddMessage(Note(c.core, VerifySigned(t)), CertificateVerify((k.sign)(t)));
      To(c, SendClientFinished, FreeBuffer(core))
  }

  function SendFinishedStep(k: Crypto, c: Client, v: Verdict): (Client, Wait)
    requires CanFinish(c.core)
  {
    if c.core.channelId && v.Pend? then (c, WaitPending)
    else
      (Client(FinishFlight, SendFinished(k, WithExtras(ChangeWriteCipher(c.core)), false)), WaitFlush)
  }

  /** The messages between ChangeCipherSpec and Finished. */
  function WithExtras(core: Core): (r: Core)
    ensures CanFinish(core) ==> CanFinish(r)
  {
    var core' := if core.nextProto then AddMessage(core, NextProto) else core;
    if core'.channelId then AddMessage(core', ChannelId) else core'
  }

  /** They touch nothing but the transcript and the flight. */
  lemma ExtrasKeep(core: Core)
    requires TranscriptOk(core)
    ensures var r := WithExtras(core);
            TranscriptOk(r) && r == core.(buffer := r.buffer, hash := r.hash, all := r.all, flight := r.flight)
  {
  }

  /** The states that wait for a message. */
  predicate Reads(c: Client) {
    match c.state
    case ReadHelloVerifyRequest => true
    case ReadServerHello => true
    case ReadServerCertificate => UsesCertificateAuth(c.core.cipher)
    case ReadCertificateStatus => c.core.statusExpected
    case ReadServerKeyExchange => true
    case ReadCertificateRequest => UsesCertificateAuth(c.core.cipher)
    case ReadServerHelloDone => true
    case ReadSessionTicket => c.core.ticketExpected
    case ReadServerFinished => true
    case _ => false
  }

  /** A state function that reads, on the message it gets. */
  function OnMessage(k: Crypto, cfg: Config, c: Client, m: Msg): (Client, Wait)
    requires Reads(c) && (c.state.ReadServerFinished? ==> CanFinish(c.core))
  {
    match c.state
    case ReadHelloVerifyRequest =>
      if !m.HelloVerifyRequest? then To(c, ReadServerHello, c.core)
      else
        // the transcript starts over with the second ClientHello
        var core := NextMessage(c.core, m).(buffer := Some([]), hash := None, all := []);
        (Client(ReadServerHello, AddMessage(core, ClientHello(cfg.random))), WaitFlush)
    case ReadServerHello => ReadServerHelloStep(c, m)
    case ReadServerCertificate =>
      if !m.Certificate? || !m.nonempty then (c, WaitError)
      else To(c, ReadCertificateStatus, HashAndRelease(c.core, m).(peerPubkey := true))
    case ReadCertificateStatus =>
      // a server may have changed its mind about the status
      if !m.CertificateStatus? then To(c, VerifyServerCertificate, c.core)
      else To(c, VerifyServerCertificate, HashAndRelease(c.core, m))
    case ReadServerKeyExchange => ReadServerKeyExchangeStep(c, m)
    case ReadCertificateRequest => ReadCertificateRequestStep(c, m)
    case ReadServerHelloDone =>
      if !m.ServerHelloDone? then (c, WaitError) else To(c, SendClientCertificate, HashAndRelease(c.core, m))
    case ReadSessionTicket =>
      if !m.NewSessionTicket? then (c, WaitError)
      else
        (Client(ProcessChangeCipherSpec,
                HashAndRelease(c.core, m).(ticketExpected := c.core.ticketExpected && !m.empty)), WaitCcs)
    case ReadServerFinished =>
      if !m.Finished? then (c, WaitError)
      else
        match GetFinished(k, c.core, m, true)
        case None => (c, WaitError)
        case Some(core) => To(c, if core.session then SendClientFinished else FinishClientHandshake, core)
  }

  /** A state function that does not read a message. */
  function OnOwn(k: Crypto, cfg: Config, c: Client, v: Verdict): (Client, Wait)
    requires !Reads(c)
    requires c.state.SendClientKeyExchange? ==> c.core.hash.Some?
    requires c.state.SendClientCertificateVerify? && c.core.certRequest && cfg.hasCertificate ==> c.core.buffer.Some?
    requires c.state.SendClientFinished? ==> CanFinish(c.core)
  {
    match c.state
    case StartConnect => (Client(EnterEarlyData, AddMessage(c.core, ClientHello(cfg.random))), WaitFlush)
    case EnterEarlyData => To(c, if cfg.dtls then ReadHelloVerifyRequest else ReadServerHello, c.core)
    case ReadServerCertificate => To(c, ReadCertificateStatus, c.core)
    case ReadCertificateStatus => To(c, VerifyServerCertificate, c.core)
    case VerifyServerCertificate =>
      if UsesCertificateAuth(c.core.cipher) && v.Pend? then (c, WaitPending) else To(c, ReadServerKeyExchange, c.core)
    case ReadCertificateRequest => To(c, ReadServerHelloDone, c.core)
    case SendClientCertificate =>
      if !c.core.certRequest then To(c, SendClientKeyExchange, c.core)
      else if v.Pend? then (c, WaitPending)
      else
        var core := if cfg.hasCertificate then c.core else FreeBuffer(c.core);
        To(c, SendClientKeyExchange, AddMessage(core, Certificate(cfg.hasCertificate)))
    case SendClientKeyExchange =>
      To(c, SendClientCertificateVerify,
         DeriveSecret(k, AddMessage(c.core, ClientKeyExchange(cfg.premaster)), cfg.premaster))
    case SendClientCertificateVerify => SendCertificateVerifyStep(k, cfg, c, v)
    case SendClientFinished => SendFinishedStep(k, c, v)
    case FinishFlight => To(c, if c.core.session then FinishClientHandshake else ReadSessionTicket, c.core)
    case ReadSessionTicket => (Client(ProcessChangeCipherSpec, c.core), WaitCcs)
    case ProcessChangeCipherSpec => To(c, ReadServerFinished, ChangeReadCipher(c.core))
    case FinishClientHandshake => To(c, Done, c.core)
    case Done => (c, WaitOk)
  }

  // ---------- what holds between two state functions ----------

  /** The states of a full handshake between ServerHello and the client's Finished. */
  predicate FullOnly(s: State) {
    || s.ReadServerCertificate? || s.ReadCertificateStatus? || s.VerifyServerCertificate?
    || s.ReadServerKeyExchange? || s.ReadCertificateRequest? || s.ReadServerHelloDone?
    || s.SendClientCertificate? || s.SendClientKeyExchange? || s.SendClientCertificateVerify?
  }

  predicate BeforeServerHello(s: State) {
    s.StartConnect? || s.EnterEarlyData? || s.ReadHelloVerifyRequest? || s.ReadServerHello?
  }

  /** A CertificateRequest cannot have been read yet. */
  predicate BeforeRequest(s: State) {
    || BeforeServerHello(s) || s.ReadServerCertificate? || s.ReadCertificateStatus?
    || s.VerifyServerCertificate? || s.ReadServerKeyExchange? || s.ReadCertificateRequest?
  }

  /** Whether the handshake buffer is kept: as long as a CertificateVerify may have to sign it. */
  predicate KeepsBuffer(cfg: Config, c: Client) {
    if BeforeServerHello(c.state) then true
    else
      match c.state
      case ReadServerHelloDone => c.core.certRequest
      case SendClientCertificate => c.core.certRequest
      case SendClientKeyExchange => c.core.certRequest && cfg.hasCertificate
      case SendClientCertificateVerify => c.core.certRequest && cfg.hasCertificate
      case _ => FullOnly(c.state) && UsesCertificateAuth(c.core.cipher)
  }

  function FullPrologue(cfg: Config, c: Client): seq<Kind> {
    [KSecret] + if c.core.certRequest && cfg.hasCertificate then [KSigned] else []
  }

  const SENDING := [KCcs, KWrite, KSent]

  /** Everything the run has done so far is determined by the state it is in. */
  function Trace(cfg: Config, c: Client): seq<Kind> {
    if c.core.session then
      match c.state
      case ReadServerFinished => [KRead]
      case SendClientFinished => [KRead, KVerified]
      case FinishFlight => [KRead, KVerified] + SENDING
      case FinishClientHandshake => [KRead, KVerified] + SENDING
      case Done => [KRead, KVerified] + SENDING
      case _ => []
    else
      match c.state
      case SendClientCertificateVerify => [KSecret]
      case SendClientFinished => FullPrologue(cfg, c)
      case FinishFlight => FullPrologue(cfg, c) + SENDING
      case ReadSessionTicket => FullPrologue(cfg, c) + SENDING
      case ProcessChangeCipherSpec => FullPrologue(cfg, c) + SENDING
      case ReadServerFinished => FullPrologue(cfg, c) + SENDING + [KRead]
      case FinishClientHandshake => FullPrologue(cfg, c) + SENDING + [KRead, KVerified]
      case Done => FullPrologue(cfg, c) + SENDING + [KRead, KVerified]
      case _ => []
  }

  /** Every message taken off the connection was hashed once, except a HelloVerifyRequest in front. */
  predicate EachHashedOnce(c: Core) {
    c.released == c.hashed
    || (c.released != [] && c.released[0].HelloVerifyRequest? && c.released[1..] == c.hashed)
  }

  predicate Inv(cfg: Config, c: Client) {
    && TranscriptOk(c.core)
    && (c.core.hash.Some? <==> !BeforeServerHello(c.state))
    && (c.core.buffer.Some? <==> KeepsBuffer(cfg, c))
    && (FullOnly(c.state) ==> !c.core.session)
    && (c.core.certRequest ==> !c.core.session && UsesCertificateAuth(c.core.cipher))
    && (BeforeRequest(c.state) ==> !c.core.certRequest)
    && c.core.kinds == Trace(cfg, c)
    && EachHashedOnce(c.core)
    && (BeforeServerHello(c.state) ==> c.core.hashed == [])
    && (c.state.StartConnect? || c.state.EnterEarlyData? || c.state.ReadHelloVerifyRequest? ==> c.core.released == [])
  }

  /** One call of a state function; `front` is what get_message returns. */
  function Step(k: Crypto, cfg: Config, c: Client, front: Option<Msg>, v: Verdict): (Client, Wait)
    requires Inv(cfg, c)
  {
    if v.Reject? then (c, WaitError)
    else if !Reads(c) then OnOwn(k, cfg, c, v)
    else if front.None? then (c, WaitMessage)
    else OnMessage(k, cfg, c, front.value)
  }

  /** Distance to the end; the order of the last states depends on whether a session is resumed. */
  function Rank(c: Client): nat {
    match c.state
    case StartConnect => 30
    case EnterEarlyData => 29
    case ReadHelloVerifyRequest => 28
    case ReadServerHello => 27
    case ReadServerCertificate => 26
    case ReadCertificateStatus => 25
    case VerifyServerCertificate => 24
    case ReadServerKeyExchange => 23
    case ReadCertificateRequest => 22
    case ReadServerHelloDone => 21
    case SendClientCertificate => 20
    case SendClientKeyExchange => 19
    case SendClientCertificateVerify => 18
    case SendClientFinished => if c.core.session then 7 else 17
    case FinishFlight => if c.core.session then 6 else 16
    case ReadSessionTicket => 10
    case ProcessChangeCipherSpec => 9
    case ReadServerFinished => 8
    case FinishClientHandshake => 1
    case Done => 0
  }

  /** What one call of a state function guarantees, unless it reports an error. */
  predicate Good(cfg: Config, c: Client, r: (Client, Wait)) {
    r.1 == WaitError ||
    (Inv(cfg, r.0)
     && (if r.1 == WaitPending || r.1 == WaitMessage then r.0 == c else c.state.Done? || Rank(r.0) < Rank(c)))
  }

  /** Sending the last flight touches the transcript, the flight and the history only. */
  lemma SendFinishedEffect(k: Crypto, c: Client, v: Verdict)
    requires TranscriptOk(c.core) && CanFinish(c.core) && !(c.core.channelId && v.Pend?)
    ensures var (c', wait) := SendFinishedStep(k, c, v);
            && wait == WaitFlush && c'.state == FinishFlight
            && TranscriptOk(c'.core) && CanFinish(c'.core)
            && c'.core == c.core.(buffer := None, hash := c'.core.hash, all := c'.core.all, flight := c'.core.flight,
                                  marks := c'.core.marks, kinds := c.core.kinds + SENDING)
  {
    ExtrasKeep(ChangeWriteCipher(c.core));
    FinishedKinds(c.core.kinds);
    hide WithExtras;
  }

  lemma SendFinishedKeeps(k: Crypto, cfg: Config, c: Client, v: Verdict)
    requires Inv(cfg, c) && c.state.SendClientFinished?
    ensures Good(cfg, c, SendFinishedStep(k, c, v)) && SendFinishedStep(k, c, v).0.core.released == c.core.released
  {
    if !(c.core.channelId && v.Pend?) {
      SendFinishedEffect(k, c, v);
      SentInv(cfg, c, SendFinishedStep(k, c, v).0);
      hide SendFinishedStep, Inv;
    }
  }

  lemma SentInv(cfg: Config, c: Client, c': Client)
    requires Inv(cfg, c) && c.state.SendClientFinished? && c'.state.FinishFlight?
    requires TranscriptOk(c'.core) && CanFinish(c'.core)
    requires c'.core == c.core.(buffer := None, hash := c'.core.hash, all := c'.core.all, flight := c'.core.flight,
                                marks := c'.core.marks, kinds := c.core.kinds + SENDING)
    ensures Inv(cfg, c')
  {
  }

  lemma FinishedKinds(ks: seq<Kind>)
    ensures ks + [KCcs] + [KWrite] + [KSent] == ks + SENDING
  {
  }

  lemma SendVerifyKeeps(k: Crypto, cfg: Config, c: Client, v: Verdict)
    requires Inv(cfg, c) && c.state.SendClientCertificateVerify?
    ensures Good(cfg, c, SendCertificateVerifyStep(k, cfg, c, v))
    ensures SendCertificateVerifyStep(k, cfg, c, v).0.core.released == c.core.released
  {
  }

  lemma KeyExchangeKeeps(k: Crypto, cfg: Config, c: Client, v: Verdict)
    requires Inv(cfg, c) && c.state.SendClientKeyExchange?
    ensures Good(cfg, c, OnOwn(k, cfg, c, v)) && OnOwn(k, cfg, c, v).0.core.released == c.core.released
  {
  }

  lemma SendCertificateKeeps(k: Crypto, cfg: Config, c: Client, v: Verdict)
    requires Inv(cfg, c) && c.state.SendClientCertificate?
    ensures Good(cfg, c, OnOwn(k, cfg, c, v)) && OnOwn(k, cfg, c, v).0.core.released == c.core.released
  {
  }

  lemma ChangeCipherKeeps(k: Crypto, cfg: Config, c: Client, v: Verdict)
    requires Inv(cfg, c) && (c.state.ProcessChangeCipherSpec? || c.state.StartConnect?)
    ensures Good(cfg, c, OnOwn(k, cfg, c, v)) && OnOwn(k, cfg, c, v).0.core.released == c.core.released
  {
  }

  /** The states that only move on. */
  lemma PassKeeps(k: Crypto, cfg: Config, c: Client, v: Verdict)
    requires Inv(cfg, c) && !Reads(c)
    requires !c.state.SendClientFinished? && !c.state.SendClientCertificateVerify? && !c.state.SendClientKeyExchange?
    requires !c.state.SendClientCertificate? && !c.state.ProcessChangeCipherSpec? && !c.state.StartConnect?
    ensures Good(cfg, c, OnOwn(k, cfg, c, v)) && OnOwn(k, cfg, c, v).0.core == c.core
  {
    var (c', wait) := OnOwn(k, cfg, c, v);
    SameTrace(cfg, c, c');
    hide Trace, EachHashedOnce, TranscriptOk;
  }

  /** These states add nothing to the history. */
  lemma SameTrace(cfg: Config, c: Client, c': Client)
    requires c'.core == c.core
    requires (c'.state == c.state)
             || (c.state.EnterEarlyData? && (c'.state.ReadHelloVerifyRequest? || c'.state.ReadServerHello?))
             || (c.state.ReadServerCertificate? && c'.state.ReadCertificateStatus?)
             || (c.state.ReadCertificateStatus? && c'.state.VerifyServerCertificate?)
             || (c.state.VerifyServerCertificate? && c'.state.ReadServerKeyExchange?)
             || (c.state.ReadCertificateRequest? && c'.state.ReadServerHelloDone?)
             || (c.state.FinishFlight? && c'.state == if c.core.session then FinishClientHandshake else ReadSessionTicket)
             || (c.state.ReadSessionTicket? && c'.state.ProcessChangeCipherSpec?)
             || (c.state.FinishClientHandshake? && c'.state.Done?)
    ensures Trace(cfg, c') == Trace(cfg, c)
  {
  }

  lemma OnOwnKeepsInv(k: Crypto, cfg: Config, c: Client, v: Verdict)
    requires Inv(cfg, c) && !Reads(c)
    ensures Good(cfg, c, OnOwn(k, cfg, c, v)) && OnOwn(k, cfg, c, v).0.core.released == c.core.released
    ensures OnOwn(k, cfg, c, v).1 != WaitMessage
  {
    match c.state {
      case SendClientFinished => SendFinishedKeeps(k, cfg, c, v);
      case SendClientCertificateVerify => SendVerifyKeeps(k, cfg, c, v);
      case SendClientKeyExchange => KeyExchangeKeeps(k, cfg, c, v);
      case SendClientCertificate => SendCertificateKeeps(k, cfg, c, v);
      case ProcessChangeCipherSpec => ChangeCipherKeeps(k, cfg, c, v);
      case StartConnect => ChangeCipherKeeps(k, cfg, c, v);
      case _ => PassKeeps(k, cfg, c, v);
    }
  }

  /** A message is left in place, or taken off: then it is the next one of `released`. */
  predicate TakesAtMost(c: Client, r: (Client, Wait), m: Msg) {
    r.0.core.released == c.core.released || r.0.core.released == c.core.released + [m]
  }

  lemma HashedOnceMore(c: Core, m: Msg)
    requires EachHashedOnce(c)
    ensures EachHashedOnce(HashAndRelease(c, m))
  {
    if c.released != c.hashed {
      assert (c.released + [m])[1..] == c.released[1..] + [m];
    }
  }

  lemma HelloKeeps(k: Crypto, cfg: Config, c: Client, m: Msg)
    requires Inv(cfg, c) && c.state.ReadServerHello?
    ensures Good(cfg, c, ReadServerHelloStep(c, m)) && TakesAtMost(c, ReadServerHelloStep(c, m), m)
  {
    HashedOnceMore(c.core, m);
    if m.ServerHello? {
      HelloTaken(cfg, c, ReadServerHelloStep(c, m).0, m);
    }
    hide Inv;
  }

  lemma HelloTaken(cfg: Config, c: Client, c': Client, m: Msg)
    requires Inv(cfg, c) && c.state.ReadServerHello? && EachHashedOnce(HashAndRelease(c.core, m))
    requires c'.state == if c'.core.session then ReadSessionTicket else ReadServerCertificate
    requires c'.core.hash == Some(c.core.all + [m]) && c'.core.all == c.core.all + [m]
    requires c'.core.buffer == if c'.core.session || !UsesCertificateAuth(c'.core.cipher) then None
                               else Some(c.core.all + [m])
    requires c'.core.hashed == c.core.hashed + [m] && c'.core.released == c.core.released + [m]
    requires c'.core.kinds == c.core.kinds && c'.core.certRequest == c.core.certRequest
    ensures Inv(cfg, c')
  {
    assert c.core.kinds == [];
  }

  lemma VerifyRequestKeeps(k: Crypto, cfg: Config, c: Client, m: Msg)
    requires Inv(cfg, c) && c.state.ReadHelloVerifyRequest?
    ensures Good(cfg, c, OnMessage(k, cfg, c, m)) && TakesAtMost(c, OnMessage(k, cfg, c, m), m)
  {
  }

  lemma ServerCertificateKeeps(k: Crypto, cfg: Config, c: Client, m: Msg)
    requires Inv(cfg, c) && Reads(c) && (c.state.ReadServerCertificate? || c.state.ReadCertificateStatus?)
    ensures Good(cfg, c, OnMessage(k, cfg, c, m)) && TakesAtMost(c, OnMessage(k, cfg, c, m), m)
  {
    HashedOnceMore(c.core, m);
  }

  lemma ServerKeyExchangeKeeps(k: Crypto, cfg: Config, c: Client, m: Msg)
    requires Inv(cfg, c) && c.state.ReadServerKeyExchange?
    ensures Good(cfg, c, OnMessage(k, cfg, c, m)) && TakesAtMost(c, OnMessage(k, cfg, c, m), m)
  {
    HashedOnceMore(c.core, m);
  }

  lemma RequestKeeps(k: Crypto, cfg: Config, c: Client, m: Msg)
    requires Inv(cfg, c) && Reads(c) && c.state.ReadCertificateRequest?
    ensures Good(cfg, c, OnMessage(k, cfg, c, m)) && TakesAtMost(c, OnMessage(k, cfg, c, m), m)
  {
    HashedOnceMore(c.core, m);
  }

  lemma HelloDoneKeeps(k: Crypto, cfg: Config, c: Client, m: Msg)
    requires Inv(cfg, c) && c.state.ReadServerHelloDone?
    ensures Good(cfg, c, OnMessage(k, cfg, c, m)) && TakesAtMost(c, OnMessage(k, cfg, c, m), m)
  {
    HashedOnceMore(c.core, m);
  }

  lemma TicketKeeps(k: Crypto, cfg: Config, c: Client, m: Msg)
    requires Inv(cfg, c) && Reads(c) && c.state.ReadSessionTicket?
    ensures Good(cfg, c, OnMessage(k, cfg, c, m)) && TakesAtMost(c, OnMessage(k, cfg, c, m), m)
  {
    HashedOnceMore(c.core, m);
  }

  lemma ReadKinds(p: seq<Kind>)
    ensures p + [KRead] + [KVerified] == p + [KRead, KVerified]
  {
  }

  lemma FinishedKeeps(k: Crypto, cfg: Config, c: Client, m: Msg)
    requires Inv(cfg, c) && c.state.ReadServerFinished?
    ensures Good(cfg, c, OnMessage(k, cfg, c, m)) && TakesAtMost(c, OnMessage(k, cfg, c, m), m)
  {
    var (c', wait) := OnMessage(k, cfg, c, m);
    if wait != WaitError {
      GetFinishedEffect(k, c.core, m, true);
      FinishedTaken(cfg, c, c', m);
    }
    hide Inv, OnMessage;
  }

  lemma FinishedTaken(cfg: Config, c: Client, c': Client, m: Msg)
    requires Inv(cfg, c) && c.state.ReadServerFinished?
    requires c'.state == if c.core.session then SendClientFinished else FinishClientHandshake
    requires c'.core == c.core.(hash := Some(c.core.all + [m]), all := c.core.all + [m],
                                hashed := c.core.hashed + [m], released := c.core.released + [m],
                                marks := c'.core.marks, kinds := c.core.kinds + [KVerified])
    ensures Inv(cfg, c')
  {
    HashedOnceMore(c.core, m);
    ReadKinds(FullPrologue(cfg, c) + SENDING);
    assert EachHashedOnce(c'.core);
    hide EachHashedOnce, FullPrologue;
  }

  lemma OnMessageKeepsInv(k: Crypto, cfg: Config, c: Client, m: Msg)
    requires Inv(cfg, c) && Reads(c)
    ensures Good(cfg, c, OnMessage(k, cfg, c, m)) && TakesAtMost(c, OnMessage(k, cfg, c, m), m)
  {
    match c.state {
      case ReadHelloVerifyRequest => VerifyRequestKeeps(k, cfg, c, m);
      case ReadServerHello => HelloKeeps(k, cfg, c, m);
      case ReadSessionTicket => TicketKeeps(k, cfg, c, m);
      case ReadServerFinished => FinishedKeeps(k, cfg, c, m);
      case ReadServerCertificate => ServerCertificateKeeps(k, cfg, c, m);
      case ReadCertificateStatus => ServerCertificateKeeps(k, cfg, c, m);
      case ReadServerKeyExchange => ServerKeyExchangeKeeps(k, cfg, c, m);
      case ReadCertificateRequest => RequestKeeps(k, cfg, c, m);
      case ReadServerHelloDone => HelloDoneKeeps(k, cfg, c, m);
    }
  }

  lemma StepKeepsInv(k: Crypto, cfg: Config, c: Client, front: Option<Msg>, v: Verdict)
    requires Inv(cfg, c)
    ensures Good(cfg, c, Step(k, cfg, c, front, v))
    ensures var c' := Step(k, cfg, c, front, v).0;
            c'.core.released == c.core.released
            || (front.Some? && c'.core.released == c.core.released + [front.value])
  {
    hide Inv, OnOwn, OnMessage;
    if !v.Reject? {
      if !Reads(c) {
        OnOwnKeepsInv(k, cfg, c, v);
      } else if front.Some? {
        OnMessageKeepsInv(k, cfg, c, front.value);
      }
    }
  }

  // ---------- whole runs ----------

  /** One call of a state function: whether a message is there yet, and how everything uninterpreted turns out. */
  datatype Turn = Turn(available: bool, verdict: Verdict)

  function Begin(session: bool, secret: nat): Client {
    Client(StartConnect, TlsHandshake.Fresh(session, secret))
  }

  /** What get_message returns: the first message of `inbox` that has not been released. */
  function Front(inbox: seq<Msg>, c: Core, available: bool): Option<Msg> {
    if available && |c.released| < |inbox| then Some(inbox[|c.released|]) else None
  }

  /** Calls of state functions in any number, up to an error, whatever the peer sends and however often it blocks. */
  function Run(k: Crypto, cfg: Config, session: bool, secret: nat, inbox: seq<Msg>, turns: seq<Turn>): (r: (Client, Wait))
    ensures r.1 != WaitError ==> Inv(cfg, r.0)
    decreases |turns|
  {
    if turns == [] then (Begin(session, secret), WaitOk)
    else
      var (c, wait) := Run(k, cfg, session, secret, inbox, turns[..|turns| - 1]);
      if wait == WaitError then (c, wait)
      else
        var turn := turns[|turns| - 1];
        StepKeepsInv(k, cfg, c, Front(inbox, c.core, turn.available), turn.verdict);
        Step(k, cfg, c, Front(inbox, c.core, turn.available), turn.verdict)
  }

  /** Messages are taken in order, each once, and hashed once. */
  lemma {:induction false} RunConsumes(
      k: Crypto, cfg: Config, session: bool, secret: nat, inbox: seq<Msg>, turns: seq<Turn>)
    ensures var (c, wait) := Run(k, cfg, session, secret, inbox, turns);
            wait != WaitError ==> c.core.released <= inbox && EachHashedOnce(c.core)
    decreases |turns|
  {
    hide Inv, OnOwn, OnMessage, EachHashedOnce, Begin;
    BeginHashes(session, secret);
    if turns != [] {
      RunConsumes(k, cfg, session, secret, inbox, turns[..|turns| - 1]);
      var (c, wait) := Run(k, cfg, session, secret, inbox, turns[..|turns| - 1]);
      if wait != WaitError {
        var turn := turns[|turns| - 1];
        var front := Front(inbox, c.core, turn.available);
        StepKeepsInv(k, cfg, c, front, turn.verdict);
        if Step(k, cfg, c, front, turn.verdict).1 != WaitError {
          InvHashes(cfg, Step(k, cfg, c, front, turn.verdict).0);
        }
      }
    }
  }

  lemma BeginHashes(session: bool, secret: nat)
    ensures Begin(session, secret).core.released == [] && EachHashedOnce(Begin(session, secret).core)
  {
  }

  lemma InvHashes(cfg: Config, c: Client)
    requires Inv(cfg, c)
    ensures EachHashedOnce(c.core)
  {
  }

  /**
   A completed run changed each cipher once, sent one Finished under the new write cipher and verified one under
   the new read cipher, in the order its path prescribes.
   */
  lemma {:induction false} CompletedRun(k: Crypto, cfg: Config, session: bool, secret: nat, inbox: seq<Msg>, turns: seq<Turn>)
    ensures var (c, wait) := Run(k, cfg, session, secret, inbox, turns);
            wait != WaitError && c.state.Done? ==>
              c.core.kinds == if c.core.session then [KRead, KVerified, KCcs, KWrite, KSent]
                               else FullPrologue(cfg, c) + [KCcs, KWrite, KSent, KRead, KVerified]
  {
    hide Step, Inv, Trace;
    var (c, wait) := Run(k, cfg, session, secret, inbox, turns);
    if wait != WaitError && c.state.Done? {
      DoneTrace(cfg, c);
    }
  }

  lemma DoneTrace(cfg: Config, c: Client)
    requires Inv(cfg, c) && c.state.Done?
    ensures c.core.kinds == if c.core.session then [KRead, KVerified, KCcs, KWrite, KSent]
                            else FullPrologue(cfg, c) + [KCcs, KWrite, KSent, KRead, KVerified]
  {
    var p := FullPrologue(cfg, c);
    assert p + SENDING + [KRead, KVerified] == p + [KCcs, KWrite, KSent, KRead, KVerified];
  }

  // ---------- the driver ----------

  /** ssl_client_handshake: state functions until one blocks; `verdicts` says how uninterpreted calls turn out. */
  function Driven(k: Crypto, cfg: Config, c: Client, inbox: seq<Msg>, verdicts: State -> Verdict): (r: (Client, Wait))
    requires Inv(cfg, c)
    ensures r.1 != WaitError ==> Inv(cfg, r.0)
    ensures r.1 == WaitOk ==> r.0.state.Done?
    decreases Rank(c)
  {
    if c.state.Done? then (c, WaitOk)
    else
      var front := Front(inbox, c.core, true);
      StepKeepsInv(k, cfg, c, front, verdicts(c.state));
      var (c', wait) := Step(k, cfg, c, front, verdicts(c.state));
      if wait != WaitOk then (c', wait) else Driven(k, cfg, c', inbox, verdicts)
  }

  /** How a call of ssl_run_handshake ends: with 1 when the handshake is complete, and otherwise to be called again. */
  datatype Outcome = Outcome(c: Client, wait: Wait, ret: int)

  /** What has been flushed is gone; the other operations bring something in. */
  function Resolved(c: Client, wait: Wait): Client {
    if wait == WaitFlush then c.(core := c.core.(flight := [])) else c
  }

  lemma ResolvedInv(cfg: Config, c: Client, wait: Wait)
    requires Inv(cfg, c)
    ensures Inv(cfg, Resolved(c, wait))
  {
  }

  /**
   ssl_run_handshake: it resolves what the machine waits for and runs it again. `io` tells how often flushing
   and reading succeed; a pending operation returns to the caller, and is tried again by the next call.
   */
  function Ran(
      k: Crypto, cfg: Config, c: Client, wait: Wait, inbox: seq<Msg>, verdicts: State -> Verdict, io: seq<bool>): (r: Outcome)
    requires wait != WaitError ==> Inv(cfg, c)
    ensures r.wait != WaitError ==> Inv(cfg, r.c)
    decreases |io|, if wait == WaitOk then 2 else 0
  {
    match wait
    case WaitError => Outcome(c, wait, -1)
    case WaitPending => Outcome(c, WaitOk, -1)
    case WaitOk => Entered(k, cfg, c, inbox, verdicts, io)
    case _ =>
      if io == [] || !io[0] then Outcome(c, wait, -1)
      else
        ResolvedInv(cfg, c, wait);
        Entered(k, cfg, Resolved(c, wait), inbox, verdicts, io[1..])
  }

  function Entered(
      k: Crypto, cfg: Config, c: Client, inbox: seq<Msg>, verdicts: State -> Verdict, io: seq<bool>): (r: Outcome)
    requires Inv(cfg, c)
    ensures r.wait != WaitError ==> Inv(cfg, r.c)
    decreases |io|, 1
  {
    var (c', wait) := Driven(k, cfg, c, inbox, verdicts);
    if wait == WaitError then Outcome(c', wait, -1)
    else if wait == WaitOk then Outcome(c', wait, 1)
    else Ran(k, cfg, c', wait, inbox, verdicts, io)
  }

  /** Messages arrive one after the other; `inbox` is all that ever will. */
  lemma {:induction false} DrivenTakes(
      k: Crypto, cfg: Config, c: Client, inbox: seq<Msg>, n: nat, verdicts: State -> Verdict)
    requires Inv(cfg, c) && c.core.released <= inbox && n <= |inbox|
    ensures var (c', wait) := Driven(k, cfg, c, inbox[..n], verdicts);
            wait != WaitError ==> c.core.released <= c'.core.released <= inbox
    decreases Rank(c)
  {
    hide Inv, Step, Rank;
    if !c.state.Done? {
      var front := Front(inbox[..n], c.core, true);
      StepKeepsInv(k, cfg, c, front, verdicts(c.state));
      var (c', wait) := Step(k, cfg, c, front, verdicts(c.state));
      if wait == WaitOk {
        DrivenTakes(k, cfg, c', inbox, n, verdicts);
      }
    }
  }

  /** A call takes messages in order, and returns 1 only when the handshake is complete. */
  lemma {:induction false} RanTakes(
      k: Crypto, cfg: Config, c: Client, wait: Wait, inbox: seq<Msg>, n: nat, verdicts: State -> Verdict, io: seq<bool>)
    requires wait != WaitError && Inv(cfg, c) && c.core.released <= inbox && n <= |inbox|
    ensures var r := Ran(k, cfg, c, wait, inbox[..n], verdicts, io);
            && (r.wait != WaitError ==> c.core.released <= r.c.core.released <= inbox)
            && (r.ret > 0 ==> r.wait == WaitOk && r.c.state.Done?)
    decreases |io|, if wait == WaitOk then 1 else 0
  {
    hide Inv, Driven;
    if wait != WaitPending && (wait == WaitOk || (io != [] && io[0])) {
      var from, left := if wait == WaitOk then c else Resolved(c, wait), if wait == WaitOk then io else io[1..];
      ResolvedInv(cfg, c, wait);
      DrivenTakes(k, cfg, from, inbox, n, verdicts);
      var (c', wait') := Driven(k, cfg, from, inbox[..n], verdicts);
      if wait' != WaitError && wait' != WaitOk {
        RanTakes(k, cfg, c', wait', inbox, n, verdicts, left);
      }
    }
  }

  /** A call of ssl_run_handshake: the messages that have arrived by then, and how everything turns out. */
  datatype Call = Call(arrived: nat, verdicts: State -> Verdict, io: seq<bool>)

  /** Any number of calls on a new connection. */
  function Called(k: Crypto, cfg: Config, session: bool, secret: nat, inbox: seq<Msg>, calls: seq<Call>): (r: Outcome)
    ensures r.wait != WaitError ==> Inv(cfg, r.c)
    decreases |calls|
  {
    if calls == [] then Outcome(Begin(session, secret), WaitOk, 0)
    else
      var before := Called(k, cfg, session, secret, inbox, calls[..|calls| - 1]);
      var call := calls[|calls| - 1];
      Ran(k, cfg, before.c, before.wait, inbox[..Min(call.arrived, |inbox|)], call.verdicts, call.io)
  }

  lemma {:induction false} CalledTakes(k: Crypto, cfg: Config, session: bool, secret: nat, inbox: seq<Msg>, calls: seq<Call>)
    ensures var r := Called(k, cfg, session, secret, inbox, calls);
            && (r.wait != WaitError ==> r.c.core.released <= inbox)
            && (r.ret > 0 ==> r.wait == WaitOk && r.c.state.Done?)
    decreases |calls|
  {
    hide Inv, Ran, Begin;
    BeginHashes(session, secret);
    if calls != [] {
      CalledTakes(k, cfg, session, secret, inbox, calls[..|calls| - 1]);
      var before := Called(k, cfg, session, secret, inbox, calls[..|calls| - 1]);
      var call := calls[|calls| - 1];
      if before.wait == WaitError {
        FailedStays(k, cfg, before.c, inbox[..Min(call.arrived, |inbox|)], call.verdicts, call.io);
      } else {
        RanTakes(k, cfg, before.c, before.wait, inbox, Min(call.arrived, |inbox|), call.verdicts, call.io);
      }
    }
  }

  /** An error is final: every later call reports it again. */
  lemma FailedStays(
      k: Crypto, cfg: Config, c: Client, inbox: seq<Msg>, verdicts: State -> Verdict, io: seq<bool>)
    ensures Ran(k, cfg, c, WaitError, inbox, verdicts, io) == Outcome(c, WaitError, -1)
  {
  }

  /**
   However often the handshake was retried before it returned 1: every message was taken in order, once, and hashed
   once, and both ciphers were changed and both Finished messages passed once, in the order of the path.
   */
  lemma CompletedCalls(k: Crypto, cfg: Config, session: bool, secret: nat, inbox: seq<Msg>, calls: seq<Call>)
    requires Called(k, cfg, session, secret, inbox, calls).ret > 0
    ensures var c := Called(k, cfg, session, secret, inbox, calls).c;
            && c.state.Done? && c.core.released <= inbox && EachHashedOnce(c.core)
            && c.core.kinds == if c.core.session then [KRead, KVerified, KCcs, KWrite, KSent]
                            else FullPrologue(cfg, c) + [KCcs, KWrite, KSent, KRead, KVerified]
  {
    hide Called, Inv, Trace;
    CalledTakes(k, cfg, session, secret, inbox, calls);
    var c := Called(k, cfg, session, secret, inbox, calls).c;
    InvHashes(cfg, c);
    DoneTrace(cfg, c);
  }

  class Connection {
    const k: Crypto
    const cfg: Config
    var hs: Client
    var wait: Wait

    constructor (crypto: Crypto, config: Config, session: bool, secret: nat)
      ensures k == crypto && cfg == config && hs == Begin(session, secret) && wait == WaitOk && Inv(cfg, hs)
    {
      k, cfg, hs, wait := crypto, config, Begin(session, secret), WaitOk;
    }

    /** ssl_client_handshake; it ends, since every state function that does not block moves on. */
    method Handshake(inbox: seq<Msg>, verdicts: State -> Verdict) returns (result: Wait)
      requires Inv(cfg, hs)
      modifies this`hs
      ensures (hs, result) == Driven(k, cfg, old(hs), inbox, verdicts)
    {
      result := WaitOk;
      while !hs.state.Done?
        invariant result == WaitOk && Inv(cfg, hs)
        invariant Driven(k, cfg, old(hs), inbox, verdicts) == Driven(k, cfg, hs, inbox, verdicts)
        decreases Rank(hs)
      {
        var front := Front(inbox, hs.core, true);
        StepKeepsInv(k, cfg, hs, front, verdicts(hs.state));
        hs, result := Step(k, cfg, hs, front, verdicts(hs.state)).0, Step(k, cfg, hs, front, verdicts(hs.state)).1;
        if result != WaitOk {
          return;
        }
      }
    }

    /** ssl_run_handshake; every round but the first uses up one operation of `io`. */
    method RunHandshake(inbox: seq<Msg>, verdicts: State -> Verdict, io: seq<bool>) returns (ret: int)
      requires wait != WaitError ==> Inv(cfg, hs)
      modifies this
      ensures Outcome(hs, wait, ret) == Ran(k, cfg, old(hs), old(wait), inbox, verdicts, io)
    {
      hide Driven, Inv, Resolved;
      var done := 0;
      while true
        invariant done <= |io| && (wait != WaitError ==> Inv(cfg, hs))
        invariant Ran(k, cfg, old(hs), old(wait), inbox, verdicts, io) == Ran(k, cfg, hs, wait, inbox, verdicts, io[done..])
        decreases |io| - done, if wait == WaitOk then 1 else 0
      {
        match wait {
          case WaitError => return -1;
          case WaitPending =>
            wait := WaitOk;
            return -1;
          case WaitOk =>
          case _ =>
            if done == |io| || !io[done] {
              return -1;
            }
            ResolvedInv(cfg, hs, wait);
            hs := Resolved(hs, wait);
            done := done + 1;
        }
        wait := Handshake(inbox, verdicts);
        if wait == WaitError {
          return -1;
        }
        if wait == WaitOk {
          return 1;
        }
      }
    }
  }
}
