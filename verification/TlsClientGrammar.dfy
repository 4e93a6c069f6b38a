/** Whatever a server sends, a client takes only what the grammar of the handshake allows at that place. */
module TlsClientGrammar {
  import opened Basics
  import opened TlsHandshake
  import opened TlsGrammar
  import opened TlsClient

  /** Which of the parts the server is free to leave out it did send, and its ServerHello. */
  datatype Parts = Parts(verifyRequest: bool, random: nat, p: Params, status: bool, keyExchange: bool, ticket: bool)

  function Hello(g: Parts): seq<MsgType> {
    Opt(g.verifyRequest, THelloVerifyRequest) + [TServerHello]
  }

  function Certified(c: Core, g: Parts): seq<MsgType> {
    Hello(g) + Opt(UsesCertificateAuth(c.cipher), TCertificate)
  }

  function Exchanged(c: Core, g: Parts): seq<MsgType> {
    Certified(c, g) + Opt(g.status, TCertificateStatus) + Opt(g.keyExchange, TServerKeyExchange)
  }

  /** What a server says before its last flight. */
  function Opening(c: Core, g: Parts): seq<MsgType> {
    if c.session then Hello(g) else Exchanged(c, g) + Opt(c.certRequest, TCertificateRequest) + [TServerHelloDone]
  }

  /** All that a server says. */
  function Complete(c: Core, g: Parts): seq<MsgType> {
    Opening(c, g) + Opt(g.ticket, TNewSessionTicket) + [TFinished]
  }

  /** What has been taken so far, at each place. */
  function Heard(c: Client, g: Parts): seq<MsgType> {
    match c.state
    case StartConnect => []
    case EnterEarlyData => []
    case ReadHelloVerifyRequest => []
    case ReadServerHello => Opt(g.verifyRequest, THelloVerifyRequest)
    case ReadServerCertificate => Hello(g)
    case ReadCertificateStatus => Certified(c.core, g)
    case VerifyServerCertificate => Certified(c.core, g) + Opt(g.status, TCertificateStatus)
    case ReadServerKeyExchange => Certified(c.core, g) + Opt(g.status, TCertificateStatus)
    case ReadCertificateRequest => Exchanged(c.core, g)
    case ReadServerHelloDone => Exchanged(c.core, g) + Opt(c.core.certRequest, TCertificateRequest)
    case SendClientCertificate => Opening(c.core, g)
    case SendClientKeyExchange => Opening(c.core, g)
    case SendClientCertificateVerify => Opening(c.core, g)
    case SendClientFinished => if c.core.session then Complete(c.core, g) else Opening(c.core, g)
    case FinishFlight => if c.core.session then Complete(c.core, g) else Opening(c.core, g)
    case ReadSessionTicket => Opening(c.core, g)
    case ProcessChangeCipherSpec => Opening(c.core, g) + Opt(g.ticket, TNewSessionTicket)
    case ReadServerFinished => Opening(c.core, g) + Opt(g.ticket, TNewSessionTicket)
    case FinishClientHandshake => Complete(c.core, g)
    case Done => Complete(c.core, g)
  }

  predicate TicketRead(c: Client) {
    || c.state.ProcessChangeCipherSpec? || c.state.ReadServerFinished?
    || c.state.FinishClientHandshake? || c.state.Done?
    || (c.core.session && (c.state.SendClientFinished? || c.state.FinishFlight?))
  }

  predicate BeforeKeyExchange(s: State) {
    || s.ReadServerCertificate? || s.ReadCertificateStatus? || s.VerifyServerCertificate? || s.ReadServerKeyExchange?
  }

  /** The client goes by the ServerHello it took. */
  predicate Settled(c: Client, g: Parts) {
    && ServerHello(g.random, g.p) in c.core.released
    && c.core.cipher == g.p.cipher && c.core.statusExpected == g.p.status && c.core.nextProto == g.p.nextProto
    && c.core.channelId == g.p.channelId && c.core.ems == g.p.ems && (c.core.session ==> g.p.resumed)
    && (if TicketRead(c) then g.ticket == g.p.ticket else c.core.ticketExpected == g.p.ticket)
  }

  /** The parts that were sent were allowed, and none that is needed was left out. */
  predicate Allowed(cfg: Config, c: Client, g: Parts) {
    && (g.verifyRequest || c.state.ReadHelloVerifyRequest? ==> cfg.dtls)
    && (forall m :: m in c.core.released ==> m != Certificate(false))
    && (!BeforeServerHello(c.state) ==> Settled(c, g))
    && (g.status ==> g.p.status)
    && (!BeforeServerHello(c.state) && !BeforeKeyExchange(c.state) && !c.core.session ==>
          (RequiresServerKeyExchange(g.p.cipher) ==> g.keyExchange) && (g.p.cipher.RSA? ==> !g.keyExchange))
  }

  predicate Told(cfg: Config, c: Client, g: Parts) {
    Types(c.core.released) == Heard(c, g) && Allowed(cfg, c, g)
  }

  /** The step took `m`, which the grammar has next. */
  lemma TakenTold(cfg: Config, c: Client, g: Parts, c': Client, g': Parts, m: Msg)
    requires Told(cfg, c, g) && c'.core.released == c.core.released + [m]
    requires Heard(c', g') == Heard(c, g) + [TypeOf(m)] && Allowed(cfg, c', g')
    ensures Told(cfg, c', g')
  {
    TypesOne(c.core.released, m);
    hide Types, Heard, Allowed;
  }

  lemma EarlyEmpty(cfg: Config, c: Client)
    requires Inv(cfg, c) && (c.state.StartConnect? || c.state.EnterEarlyData? || c.state.ReadHelloVerifyRequest?)
    ensures c.core.released == []
  {
  }

  lemma VerifyRequestTold(k: Crypto, cfg: Config, c: Client, m: Msg, g: Parts) returns (g': Parts)
    requires Inv(cfg, c) && Told(cfg, c, g) && c.state.ReadHelloVerifyRequest?
    ensures Told(cfg, OnMessage(k, cfg, c, m).0, g')
  {
    EarlyEmpty(cfg, c);
    hide Inv;
    g' := g.(verifyRequest := m.HelloVerifyRequest?, status := false);
    TypesOne([], m);
    assert [] + [m] == [m];
    assert OnMessage(k, cfg, c, m).0.core.released == if m.HelloVerifyRequest? then [m] else [];
    hide OnMessage;
  }

  lemma HelloTold(cfg: Config, c: Client, m: Msg, g: Parts) returns (g': Parts)
    requires Told(cfg, c, g) && c.state.ReadServerHello? && m.ServerHello?
    ensures Told(cfg, ReadServerHelloStep(c, m).0, g')
  {
    g' := Parts(g.verifyRequest, m.serverRandom, m.params, false, false, false);
    var c' := ReadServerHelloStep(c, m).0;
    HelloTaken(c, m);
    hide ReadServerHelloStep;
    HelloAllowed(cfg, c, c', m, g, g');
    HelloHeard(c, c', g, g');
    hide Heard, Allowed;
    TakenTold(cfg, c, g, c', g', m);
  }

  lemma HelloTaken(c: Client, m: Msg)
    requires m.ServerHello?
    ensures var c' := ReadServerHelloStep(c, m).0;
            && c'.core.released == c.core.released + [m]
            && c'.state == (if c'.core.session then ReadSessionTicket else ReadServerCertificate)
            && c'.core.cipher == m.params.cipher && c'.core.statusExpected == m.params.status
            && c'.core.nextProto == m.params.nextProto && c'.core.channelId == m.params.channelId
            && c'.core.ems == m.params.ems && c'.core.ticketExpected == m.params.ticket
            && (c'.core.session ==> m.params.resumed)
  {
    var core := Accept(c.core, m.params);
    HelloHashed(core, m);
    ReleasedTook(HashMessage(InitHash(core), m), m);
    FreedTook(HashMessage(InitHash(core), m), m);
    hide HashMessage, InitHash, FreeBuffer, NextMessage;
  }

  lemma HelloHeard(c: Client, c': Client, g: Parts, g': Parts)
    requires c.state.ReadServerHello? && g'.verifyRequest == g.verifyRequest
    requires c'.state == if c'.core.session then ReadSessionTicket else ReadServerCertificate
    ensures Heard(c', g') == Heard(c, g) + [TServerHello]
  {
  }

  lemma HelloAllowed(cfg: Config, c: Client, c': Client, m: Msg, g: Parts, g': Parts)
    requires Allowed(cfg, c, g) && m.ServerHello? && c'.core.released == c.core.released + [m]
    requires g' == Parts(g.verifyRequest, m.serverRandom, m.params, false, false, false)
    requires c'.state == if c'.core.session then ReadSessionTicket else ReadServerCertificate
    requires c'.core.cipher == m.params.cipher && c'.core.statusExpected == m.params.status
    requires c'.core.nextProto == m.params.nextProto && c'.core.channelId == m.params.channelId
    requires c'.core.ems == m.params.ems && c'.core.ticketExpected == m.params.ticket
    requires c'.core.session ==> m.params.resumed
    ensures Allowed(cfg, c', g')
  {
  }

  /** What the client goes by has not changed since the ServerHello. */
  predicate Stands(c: Core, c': Core) {
    && c'.session == c.session && c'.cipher == c.cipher && c'.statusExpected == c.statusExpected
    && c'.nextProto == c.nextProto && c'.channelId == c.channelId && c'.ems == c.ems
  }

  /** Most messages leave the parts of the grammar to choose as they are. */
  lemma StillAllowed(cfg: Config, c: Client, c': Client, g: Parts, more: seq<Msg>)
    requires Allowed(cfg, c, g) && Stands(c.core, c'.core) && c'.core.released == c.core.released + more
    requires Certificate(false) !in more && !BeforeServerHello(c.state) && !BeforeServerHello(c'.state)
    requires TicketRead(c') == TicketRead(c) && (!TicketRead(c) ==> c'.core.ticketExpected == c.core.ticketExpected)
    requires BeforeKeyExchange(c'.state) || !BeforeKeyExchange(c.state)
    ensures Allowed(cfg, c', g)
  {
  }

  lemma SameParts(c: Core, c': Core, g: Parts, g': Parts)
    requires c'.session == c.session && c'.cipher == c.cipher && g' == g.(ticket := g'.ticket)
    ensures Hello(g') == Hello(g) && Certified(c', g') == Certified(c, g) && Exchanged(c', g') == Exchanged(c, g)
    ensures c'.certRequest == c.certRequest ==> Opening(c', g') == Opening(c, g)
    ensures c'.certRequest == c.certRequest && g' == g ==> Complete(c', g') == Complete(c, g)
  {
  }

  /** The grammar has this message next. */
  predicate Follows(c: Client, c': Client, m: Msg) {
    || (c.state.ReadServerCertificate? && c'.state.ReadCertificateStatus? && m.Certificate?
        && UsesCertificateAuth(c.core.cipher))
    || (c.state.ReadCertificateRequest? && c'.state.ReadServerHelloDone? && m.CertificateRequest?
        && c'.core.certRequest)
    || (c.state.ReadServerHelloDone? && c'.state.SendClientCertificate? && m.ServerHelloDone? && !c.core.session)
    || (c.state.ReadServerFinished? && m.Finished?
        && c'.state == if c.core.session then SendClientFinished else FinishClientHandshake)
  }

  lemma EarlyHeard(c: Client, c': Client, g: Parts, m: Msg)
    requires Follows(c, c', m) && !m.Finished? && c'.core.session == c.core.session && c'.core.cipher == c.core.cipher
    requires !m.CertificateRequest? ==> c'.core.certRequest == c.core.certRequest
    ensures Heard(c', g) == Heard(c, g) + [TypeOf(m)]
  {
    SameParts(c.core, c'.core, g, g);
    hide Hello, Exchanged, Complete;
  }

  lemma FinishedHeard(c: Client, c': Client, g: Parts)
    requires Follows(c, c', Finished(0)) && c'.core.session == c.core.session
    requires Opening(c'.core, g) == Opening(c.core, g)
    ensures Heard(c', g) == Heard(c, g) + [TFinished]
  {
    hide Opening;
  }

  lemma FollowsHeard(c: Client, c': Client, g: Parts, m: Msg)
    requires Follows(c, c', m) && c'.core.session == c.core.session && c'.core.cipher == c.core.cipher
    requires !m.CertificateRequest? ==> c'.core.certRequest == c.core.certRequest
    ensures Heard(c', g) == Heard(c, g) + [TypeOf(m)]
  {
    hide Heard;
    if m.Finished? {
      SameParts(c.core, c'.core, g, g);
      FinishedHeard(c, c', g);
    } else {
      EarlyHeard(c, c', g, m);
    }
  }

  lemma FollowsTold(cfg: Config, c: Client, c': Client, g: Parts, m: Msg)
    requires Told(cfg, c, g) && Follows(c, c', m) && Stands(c.core, c'.core)
    requires c'.core.released == c.core.released + [m] && m != Certificate(false)
    requires !m.CertificateRequest? ==> c'.core.certRequest == c.core.certRequest
    requires !TicketRead(c) ==> c'.core.ticketExpected == c.core.ticketExpected
    ensures Told(cfg, c', g)
  {
    StillAllowed(cfg, c, c', g, [m]);
    FollowsHeard(c, c', g, m);
    hide Heard, Allowed;
    TakenTold(cfg, c, g, c', g, m);
  }

  lemma CertificateTold(k: Crypto, cfg: Config, c: Client, m: Msg, g: Parts)
    requires Told(cfg, c, g) && Reads(c) && c.state.ReadServerCertificate?
    ensures OnMessage(k, cfg, c, m).1 != WaitError ==> Told(cfg, OnMessage(k, cfg, c, m).0, g)
  {
    hide Told, HashAndRelease;
    if OnMessage(k, cfg, c, m).1 != WaitError {
      HashedTook(c.core, m);
      FollowsTold(cfg, c, OnMessage(k, cfg, c, m).0, g, m);
    }
  }

  lemma RequestTold(cfg: Config, c: Client, m: Msg, g: Parts)
    requires Told(cfg, c, g) && c.state.ReadCertificateRequest? && !c.core.certRequest && !c.core.session
    ensures ReadCertificateRequestStep(c, m).1 != WaitError ==> Told(cfg, ReadCertificateRequestStep(c, m).0, g)
  {
    hide Told, HashAndRelease, FreeBuffer;
    var c' := ReadCertificateRequestStep(c, m).0;
    if m.CertificateRequest? {
      HashedTook(c.core, m);
      FollowsTold(cfg, c, c', g, m);
    } else if m.ServerHelloDone? {
      NothingHeard(c.core);
      PassTold(cfg, c, c', g);
    }
  }

  lemma HelloDoneTold(k: Crypto, cfg: Config, c: Client, m: Msg, g: Parts)
    requires Told(cfg, c, g) && c.state.ReadServerHelloDone? && !c.core.session
    ensures OnMessage(k, cfg, c, m).1 != WaitError ==> Told(cfg, OnMessage(k, cfg, c, m).0, g)
  {
    hide Told, HashAndRelease;
    if OnMessage(k, cfg, c, m).1 != WaitError {
      HashedTook(c.core, m);
      FollowsTold(cfg, c, OnMessage(k, cfg, c, m).0, g, m);
    }
  }

  lemma FinishedGoes(k: Crypto, cfg: Config, c: Client, m: Msg)
    requires Inv(cfg, c) && c.state.ReadServerFinished?
    ensures var (c', wait) := OnMessage(k, cfg, c, m);
            wait != WaitError ==>
              m.Finished? && c'.state == (if c.core.session then SendClientFinished else FinishClientHandshake)
              && Took(c.core, c'.core, m)
  {
    if m.Finished? && GetFinished(k, c.core, m, true).Some? {
      VerifiedTook(k, c.core, m, true);
      hide GetFinished;
    }
  }

  lemma FinishedTold(k: Crypto, cfg: Config, c: Client, m: Msg, g: Parts)
    requires Inv(cfg, c) && Told(cfg, c, g) && c.state.ReadServerFinished?
    ensures OnMessage(k, cfg, c, m).1 != WaitError ==> Told(cfg, OnMessage(k, cfg, c, m).0, g)
  {
    FinishedGoes(k, cfg, c, m);
    hide Told, OnMessage, Inv;
    if OnMessage(k, cfg, c, m).1 != WaitError {
      FollowsTold(cfg, c, OnMessage(k, cfg, c, m).0, g, m);
    }
  }

  // ---------- parts the server may leave out ----------

  lemma StatusHeard(c: Client, c': Client, g: Parts, status: bool)
    requires c.state.ReadCertificateStatus? && c'.state.VerifyServerCertificate? && c'.core.cipher == c.core.cipher
    ensures Heard(c', g.(status := status)) == Heard(c, g) + Opt(status, TCertificateStatus)
  {
  }

  lemma StatusAllowed(cfg: Config, c: Client, c': Client, g: Parts, status: bool, more: seq<Msg>)
    requires Allowed(cfg, c, g) && Stands(c.core, c'.core) && c'.core.released == c.core.released + more
    requires c'.core.ticketExpected == c.core.ticketExpected && Certificate(false) !in more
    requires c.state.ReadCertificateStatus? && c'.state.VerifyServerCertificate? && (status ==> c.core.statusExpected)
    ensures Allowed(cfg, c', g.(status := status))
  {
  }

  lemma StatusTold(k: Crypto, cfg: Config, c: Client, m: Msg, g: Parts) returns (g': Parts)
    requires Told(cfg, c, g) && Reads(c) && c.state.ReadCertificateStatus?
    ensures Told(cfg, OnMessage(k, cfg, c, m).0, g')
  {
    hide Heard, Allowed, HashAndRelease;
    g' := g.(status := m.CertificateStatus?);
    var c' := OnMessage(k, cfg, c, m).0;
    HashedTook(c.core, m);
    StatusHeard(c, c', g, m.CertificateStatus?);
    assert c.core.released + [] == c.core.released;
    StatusAllowed(cfg, c, c', g, m.CertificateStatus?, if m.CertificateStatus? then [m] else []);
    if m.CertificateStatus? {
      TakenTold(cfg, c, g, c', g', m);
    } else {
      NothingMore(Types(c.core.released));
    }
  }

  /** Without a status expected, none is waited for. */
  lemma NoStatusTold(cfg: Config, c: Client, c': Client, g: Parts)
    requires Told(cfg, c, g) && c.state.ReadCertificateStatus? && c' == Client(VerifyServerCertificate, c.core)
    ensures Told(cfg, c', g.(status := false))
  {
    StatusHeard(c, c', g, false);
    assert c.core.released + [] == c.core.released;
    StatusAllowed(cfg, c, c', g, false, []);
    hide Heard, Allowed;
    NothingMore(Types(c.core.released));
  }

  lemma ExchangeHeard(c: Client, c': Client, g: Parts, sent: bool)
    requires c.state.ReadServerKeyExchange? && c'.state.ReadCertificateRequest? && c'.core.cipher == c.core.cipher
    ensures Heard(c', g.(keyExchange := sent)) == Heard(c, g) + Opt(sent, TServerKeyExchange)
  {
  }

  lemma ExchangeAllowed(cfg: Config, c: Client, c': Client, g: Parts, sent: bool, more: seq<Msg>)
    requires Allowed(cfg, c, g) && Stands(c.core, c'.core) && c'.core.released == c.core.released + more
    requires c'.core.ticketExpected == c.core.ticketExpected && Certificate(false) !in more
    requires c.state.ReadServerKeyExchange? && c'.state.ReadCertificateRequest?
    requires if sent then !c.core.cipher.RSA? else !RequiresServerKeyExchange(c.core.cipher)
    ensures Allowed(cfg, c', g.(keyExchange := sent))
  {
  }

  lemma KeyExchangeTold(cfg: Config, c: Client, m: Msg, g: Parts) returns (g': Parts)
    requires Told(cfg, c, g) && c.state.ReadServerKeyExchange?
    ensures ReadServerKeyExchangeStep(c, m).1 != WaitError ==> Told(cfg, ReadServerKeyExchangeStep(c, m).0, g')
  {
    hide Heard, Allowed, HashAndRelease;
    var sent := m.ServerKeyExchange?;
    g' := g.(keyExchange := sent);
    var (c', wait) := ReadServerKeyExchangeStep(c, m);
    if wait != WaitError {
      HashedTook(c.core, m);
      ExchangeHeard(c, c', g, sent);
      assert c.core.released + [] == c.core.released;
      ExchangeAllowed(cfg, c, c', g, sent, if sent then [m] else []);
      if sent {
        TakenTold(cfg, c, g, c', g', m);
      } else {
        NothingMore(Types(c.core.released));
      }
    }
  }

  lemma TicketHeard(c: Client, c': Client, g: Parts, ticket: bool)
    requires c.state.ReadSessionTicket? && c'.state.ProcessChangeCipherSpec?
    requires c'.core.session == c.core.session && c'.core.cipher == c.core.cipher
    requires c'.core.certRequest == c.core.certRequest
    ensures Heard(c', g.(ticket := ticket)) == Heard(c, g) + Opt(ticket, TNewSessionTicket)
  {
    SameParts(c.core, c'.core, g, g.(ticket := ticket));
    hide Opening;
  }

  lemma TicketAllowed(cfg: Config, c: Client, c': Client, g: Parts, more: seq<Msg>)
    requires Allowed(cfg, c, g) && Stands(c.core, c'.core) && c'.core.released == c.core.released + more
    requires Certificate(false) !in more && c.state.ReadSessionTicket? && c'.state.ProcessChangeCipherSpec?
    ensures Allowed(cfg, c', g.(ticket := c.core.ticketExpected))
  {
  }

  lemma TicketTold(k: Crypto, cfg: Config, c: Client, m: Msg, g: Parts) returns (g': Parts)
    requires Told(cfg, c, g) && Reads(c) && c.state.ReadSessionTicket?
    ensures OnMessage(k, cfg, c, m).1 != WaitError ==> Told(cfg, OnMessage(k, cfg, c, m).0, g')
  {
    g' := g.(ticket := true);
    var (c', wait) := OnMessage(k, cfg, c, m);
    if wait != WaitError {
      HashedTook(c.core, m);
      hide HashAndRelease;
      TicketHeard(c, c', g, true);
      TicketAllowed(cfg, c, c', g, [m]);
      hide Heard, Allowed;
      TakenTold(cfg, c, g, c', g', m);
    }
  }

  lemma NoTicketTold(cfg: Config, c: Client, c': Client, g: Parts)
    requires Told(cfg, c, g) && c.state.ReadSessionTicket? && !c.core.ticketExpected
    requires c' == Client(ProcessChangeCipherSpec, c.core)
    ensures Told(cfg, c', g.(ticket := false))
  {
    TicketHeard(c, c', g, false);
    assert c.core.released + [] == c.core.released;
    TicketAllowed(cfg, c, c', g, []);
    hide Heard, Allowed;
    NothingMore(Types(c.core.released));
  }

  lemma NothingMore(ts: seq<MsgType>)
    ensures ts + [] == ts
  {
  }

  // ---------- places where nothing is read ----------

  /** Where a state function that reads nothing may lead. */
  predicate Passes(c: Client, c': Client) {
    || c'.state == c.state
    || (c.state.ReadCertificateRequest? && c'.state.ReadServerHelloDone? && !c.core.certRequest)
    || (c.state.ReadServerCertificate? && c'.state.ReadCertificateStatus? && !UsesCertificateAuth(c.core.cipher))
    || (c.state.VerifyServerCertificate? && c'.state.ReadServerKeyExchange?)
    || (c.state.SendClientCertificate? && c'.state.SendClientKeyExchange?)
    || (c.state.SendClientKeyExchange? && c'.state.SendClientCertificateVerify?)
    || (c.state.SendClientCertificateVerify? && c'.state.SendClientFinished? && !c.core.session)
    || (c.state.SendClientFinished? && c'.state.FinishFlight?)
    || (c.state.FinishFlight? && c'.state == if c.core.session then FinishClientHandshake else ReadSessionTicket)
    || (c.state.ProcessChangeCipherSpec? && c'.state.ReadServerFinished?)
    || (c.state.FinishClientHandshake? && c'.state.Done?)
  }

  lemma EarlyPassHeard(c: Client, c': Client, g: Parts)
    requires Passes(c, c') && (BeforeKeyExchange(c.state) || c.state.ReadCertificateRequest?)
    requires c'.core.session == c.core.session && c'.core.cipher == c.core.cipher
    requires c'.core.certRequest == c.core.certRequest
    ensures Heard(c', g) == Heard(c, g)
  {
    SameParts(c.core, c'.core, g, g);
    NothingMore(Hello(g));
    NothingMore(Exchanged(c.core, g));
    hide Hello, Exchanged, Opening, Complete;
  }

  lemma LatePassHeard(c: Client, c': Client, g: Parts)
    requires Passes(c, c') && !BeforeKeyExchange(c.state) && !c.state.ReadCertificateRequest?
    requires !BeforeServerHello(c.state) && c'.core.session == c.core.session
    requires Opening(c'.core, g) == Opening(c.core, g) && Complete(c'.core, g) == Complete(c.core, g)
    requires c.state == c'.state ==> Heard(c', g) == Heard(c, g)
    ensures Heard(c', g) == Heard(c, g)
  {
    hide Hello, Certified, Exchanged, Opening, Complete;
  }

  lemma SameHeard(c: Client, c': Client, g: Parts)
    requires c'.state == c.state && c'.core.session == c.core.session && c'.core.cipher == c.core.cipher
    requires c'.core.certRequest == c.core.certRequest
    ensures Heard(c', g) == Heard(c, g)
  {
    SameParts(c.core, c'.core, g, g);
    hide Hello, Certified, Exchanged, Opening, Complete;
  }

  lemma PassHeard(c: Client, c': Client, g: Parts)
    requires Passes(c, c') && !BeforeServerHello(c.state)
    requires c'.core.session == c.core.session && c'.core.cipher == c.core.cipher
    requires c'.core.certRequest == c.core.certRequest
    ensures Heard(c', g) == Heard(c, g)
  {
    hide Heard, Passes;
    if BeforeKeyExchange(c.state) || c.state.ReadCertificateRequest? {
      EarlyPassHeard(c, c', g);
    } else {
      SameParts(c.core, c'.core, g, g);
      if c'.state == c.state {
        SameHeard(c, c', g);
      } else {
        LatePassHeard(c, c', g);
      }
    }
  }

  lemma PassTold(cfg: Config, c: Client, c': Client, g: Parts)
    requires Told(cfg, c, g) && Passes(c, c') && !BeforeServerHello(c.state) && Unheard(c.core, c'.core)
    requires c.state.ReadServerCertificate? || c.state.ReadCertificateRequest? ==> !c.core.session
    ensures Told(cfg, c', g)
  {
    PassHeard(c, c', g);
    assert c.core.released + [] == c.core.released;
    StillAllowed(cfg, c, c', g, []);
    hide Heard, Allowed;
  }

  lemma CertificateSent(k: Crypto, cfg: Config, c: Client, v: Verdict)
    requires !Reads(c) && c.state.SendClientCertificate?
    ensures Unheard(c.core, OnOwn(k, cfg, c, v).0.core)
  {
    var core := if cfg.hasCertificate then c.core else FreeBuffer(c.core);
    NothingHeard(c.core);
    AddedUnheard(core, Certificate(cfg.hasCertificate));
    hide AddMessage, FreeBuffer;
  }

  lemma KeyExchangeSent(k: Crypto, cfg: Config, c: Client, v: Verdict)
    requires !Reads(c) && c.state.SendClientKeyExchange? && c.core.hash.Some?
    ensures Unheard(c.core, OnOwn(k, cfg, c, v).0.core)
  {
    AddedUnheard(c.core, ClientKeyExchange(cfg.premaster));
  }

  lemma VerifySent(k: Crypto, cfg: Config, c: Client, v: Verdict)
    requires c.core.certRequest && cfg.hasCertificate ==> c.core.buffer.Some?
    ensures Unheard(c.core, SendCertificateVerifyStep(k, cfg, c, v).0.core)
  {
    NothingHeard(c.core);
  }

  lemma FinishedSent(k: Crypto, c: Client, v: Verdict)
    requires CanFinish(c.core) && TranscriptOk(c.core)
    ensures Unheard(c.core, SendFinishedStep(k, c, v).0.core)
  {
    if !(c.core.channelId && v.Pend?) {
      TlsClient.SendFinishedEffect(k, c, v);
    }
    hide SendFinishedStep;
  }

  lemma RestUnheard(k: Crypto, cfg: Config, c: Client, v: Verdict)
    requires !Reads(c) && !c.state.SendClientCertificate? && !c.state.SendClientKeyExchange?
    requires !c.state.SendClientCertificateVerify? && !c.state.SendClientFinished?
    ensures Unheard(c.core, OnOwn(k, cfg, c, v).0.core)
  {
    hide Unheard, ChangeReadCipher, AddMessage;
    NothingHeard(c.core);
    AddedUnheard(c.core, ClientHello(cfg.random));
  }

  lemma OwnUnheard(k: Crypto, cfg: Config, c: Client, v: Verdict)
    requires Inv(cfg, c) && !Reads(c)
    ensures Unheard(c.core, OnOwn(k, cfg, c, v).0.core)
  {
    hide Unheard, SendCertificateVerifyStep, SendFinishedStep;
    if c.state.SendClientCertificate? {
      CertificateSent(k, cfg, c, v);
    } else if c.state.SendClientKeyExchange? {
      KeyExchangeSent(k, cfg, c, v);
    } else if c.state.SendClientCertificateVerify? {
      VerifySent(k, cfg, c, v);
    } else if c.state.SendClientFinished? {
      FinishedSent(k, c, v);
    } else {
      RestUnheard(k, cfg, c, v);
    }
  }

  lemma OwnPasses(k: Crypto, cfg: Config, c: Client, v: Verdict)
    requires Inv(cfg, c) && !Reads(c) && !BeforeServerHello(c.state)
    requires !c.state.ReadCertificateStatus? && !c.state.ReadSessionTicket?
    ensures Passes(c, OnOwn(k, cfg, c, v).0)
    ensures c.state.ReadServerCertificate? || c.state.ReadCertificateRequest? ==> !c.core.session
  {
    hide AddMessage, SendFinished, ChangeWriteCipher, ChangeReadCipher, WithExtras, TranscriptOk, Trace, EachHashedOnce;
  }

  lemma StartTold(k: Crypto, cfg: Config, c: Client, v: Verdict, g: Parts) returns (g': Parts)
    requires Inv(cfg, c) && Told(cfg, c, g) && (c.state.StartConnect? || c.state.EnterEarlyData?)
    ensures Told(cfg, OnOwn(k, cfg, c, v).0, g')
  {
    g' := g.(verifyRequest := false);
    EarlyEmpty(cfg, c);
    hide Inv;
  }

  lemma OwnTold(k: Crypto, cfg: Config, c: Client, v: Verdict, g: Parts) returns (g': Parts)
    requires Inv(cfg, c) && Told(cfg, c, g) && !Reads(c)
    ensures Told(cfg, OnOwn(k, cfg, c, v).0, g')
  {
    hide Told;
    g' := g;
    if c.state.StartConnect? || c.state.EnterEarlyData? {
      g' := StartTold(k, cfg, c, v, g);
    } else if c.state.ReadCertificateStatus? {
      g' := g.(status := false);
      NoStatusTold(cfg, c, OnOwn(k, cfg, c, v).0, g);
    } else if c.state.ReadSessionTicket? {
      g' := g.(ticket := false);
      NoTicketTold(cfg, c, OnOwn(k, cfg, c, v).0, g);
    } else {
      OwnUnheard(k, cfg, c, v);
      OwnPasses(k, cfg, c, v);
      hide OnOwn, Passes, Unheard;
      PassTold(cfg, c, OnOwn(k, cfg, c, v).0, g);
    }
  }

  lemma MessageTold(k: Crypto, cfg: Config, c: Client, m: Msg, g: Parts) returns (g': Parts)
    requires Inv(cfg, c) && Told(cfg, c, g) && Reads(c)
    ensures OnMessage(k, cfg, c, m).1 != WaitError ==> Told(cfg, OnMessage(k, cfg, c, m).0, g')
  {
    FullFlags(cfg, c);
    hide Told, Inv;
    g' := g;
    match c.state {
      case ReadHelloVerifyRequest => g' := VerifyRequestTold(k, cfg, c, m, g);
      case ReadServerHello =>
        if m.ServerHello? {
          g' := HelloTold(cfg, c, m, g);
        }
      case ReadServerCertificate => CertificateTold(k, cfg, c, m, g);
      case ReadCertificateStatus => g' := StatusTold(k, cfg, c, m, g);
      case ReadServerKeyExchange => g' := KeyExchangeTold(cfg, c, m, g);
      case ReadCertificateRequest => RequestTold(cfg, c, m, g);
      case ReadServerHelloDone => HelloDoneTold(k, cfg, c, m, g);
      case ReadSessionTicket => g' := TicketTold(k, cfg, c, m, g);
      case ReadServerFinished => FinishedTold(k, cfg, c, m, g);
    }
  }

  lemma FullFlags(cfg: Config, c: Client)
    requires Inv(cfg, c)
    ensures c.state.ReadCertificateRequest? ==> !c.core.certRequest
    ensures FullOnly(c.state) ==> !c.core.session
  {
  }

  lemma StepTold(k: Crypto, cfg: Config, c: Client, front: Option<Msg>, v: Verdict, g: Parts) returns (g': Parts)
    requires Inv(cfg, c) && Told(cfg, c, g)
    ensures Step(k, cfg, c, front, v).1 != WaitError ==> Told(cfg, Step(k, cfg, c, front, v).0, g')
  {
    hide Told, Inv, OnOwn, OnMessage;
    g' := g;
    if !v.Reject? {
      if !Reads(c) {
        g' := OwnTold(k, cfg, c, v, g);
      } else if front.Some? {
        g' := MessageTold(k, cfg, c, front.value, g);
      }
    }
  }

  const NOTHING := Parts(false, 0, Params(false, RSA, false, false, false, false, false), false, false, false)

  lemma BeginTold(cfg: Config, session: bool, secret: nat)
    ensures Told(cfg, Begin(session, secret), NOTHING)
  {
  }

  lemma {:induction false} DrivenTold(
      k: Crypto, cfg: Config, c: Client, inbox: seq<Msg>, verdicts: State -> Verdict, g: Parts)
    returns (g': Parts)
    requires Inv(cfg, c) && Told(cfg, c, g)
    ensures Driven(k, cfg, c, inbox, verdicts).1 != WaitError ==> Told(cfg, Driven(k, cfg, c, inbox, verdicts).0, g')
    decreases Rank(c)
  {
    hide Inv, Step, Rank, Told;
    g' := g;
    if !c.state.Done? {
      var front := Front(inbox, c.core, true);
      StepKeepsInv(k, cfg, c, front, verdicts(c.state));
      g' := StepTold(k, cfg, c, front, verdicts(c.state), g);
      var (c', wait) := Step(k, cfg, c, front, verdicts(c.state));
      if wait == WaitOk {
        g' := DrivenTold(k, cfg, c', inbox, verdicts, g');
      }
    }
  }

  lemma ResolvedTold(cfg: Config, c: Client, wait: Wait, g: Parts)
    requires Told(cfg, c, g)
    ensures Told(cfg, Resolved(c, wait), g)
  {
  }

  lemma {:induction false} RanTold(
      k: Crypto, cfg: Config, c: Client, wait: Wait, inbox: seq<Msg>, verdicts: State -> Verdict, io: seq<bool>,
      g: Parts)
    returns (g': Parts)
    requires wait != WaitError && Inv(cfg, c) && Told(cfg, c, g)
    ensures var r := Ran(k, cfg, c, wait, inbox, verdicts, io); r.wait != WaitError ==> Told(cfg, r.c, g')
    decreases |io|, if wait == WaitOk then 1 else 0
  {
    hide Inv, Driven, Told;
    g' := g;
    if wait != WaitPending && (wait == WaitOk || (io != [] && io[0])) {
      var from, left := if wait == WaitOk then c else Resolved(c, wait), if wait == WaitOk then io else io[1..];
      ResolvedInv(cfg, c, wait);
      ResolvedTold(cfg, c, wait, g);
      g' := DrivenTold(k, cfg, from, inbox, verdicts, g);
      var (c', wait') := Driven(k, cfg, from, inbox, verdicts);
      if wait' != WaitError && wait' != WaitOk {
        g' := RanTold(k, cfg, c', wait', inbox, verdicts, left, g');
      }
    }
  }

  /** Whatever comes in, and however often the handshake is called. */
  lemma {:induction false} CalledTold(
      k: Crypto, cfg: Config, session: bool, secret: nat, inbox: seq<Msg>, calls: seq<Call>)
    returns (g: Parts)
    ensures var r := Called(k, cfg, session, secret, inbox, calls); r.wait != WaitError ==> Told(cfg, r.c, g)
    decreases |calls|
  {
    hide Inv, Ran, Told, Begin;
    BeginTold(cfg, session, secret);
    g := NOTHING;
    if calls != [] {
      g := CalledTold(k, cfg, session, secret, inbox, calls[..|calls| - 1]);
      var before := Called(k, cfg, session, secret, inbox, calls[..|calls| - 1]);
      var (call, n) := (calls[|calls| - 1], Min(calls[|calls| - 1].arrived, |inbox|));
      if before.wait == WaitError {
        FailedStays(k, cfg, before.c, inbox[..n], call.verdicts, call.io);
      } else {
        g := RanTold(k, cfg, before.c, before.wait, inbox[..n], call.verdicts, call.io, g);
      }
    }
  }

  /**
   A call returns 1 only if the server sent the messages of the grammar, in its order and nothing else: a nonempty
   Certificate exactly if the cipher has one, a key exchange if it needs one and not for RSA, a status only if it was
   announced, and a ticket exactly if it was.
   */
  lemma CompletedGrammar(k: Crypto, cfg: Config, session: bool, secret: nat, inbox: seq<Msg>, calls: seq<Call>)
    returns (g: Parts)
    requires Called(k, cfg, session, secret, inbox, calls).ret > 0
    ensures var c := Called(k, cfg, session, secret, inbox, calls).c.core;
            && c.released <= inbox && ServerHello(g.random, g.p) in c.released && Certificate(false) !in c.released
            && (g.verifyRequest ==> cfg.dtls) && (c.session ==> g.p.resumed) && (g.status ==> g.p.status)
            && (!c.session ==> (RequiresServerKeyExchange(g.p.cipher) ==> g.keyExchange)
                               && (g.p.cipher.RSA? ==> !g.keyExchange)
                               && (c.certRequest ==> UsesCertificateAuth(g.p.cipher)))
            && Types(c.released) == Complete(c, g) && c.cipher == g.p.cipher && g.ticket == g.p.ticket
  {
    hide Called;
    CalledTakes(k, cfg, session, secret, inbox, calls);
    g := CalledTold(k, cfg, session, secret, inbox, calls);
  }
}
