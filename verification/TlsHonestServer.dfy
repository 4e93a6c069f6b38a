/** An honest server follows the script: every state function says and takes exactly its part. */
module TlsHonestServer {
  import opened Basics
  import opened TlsHandshake
  import opened TlsScript
  import S = TlsServer

  /** What the server's configuration comes to, as the ServerHello will say. */
  function Negotiated(cfg: S.Config): Params {
    var resumed := cfg.found.Some?;
    Params(resumed, cfg.cipher,
           cfg.status && !resumed && UsesCertificateAuth(cfg.cipher),
           if resumed then cfg.renew else cfg.tickets,
           cfg.nextProto,
           cfg.channelId && S.IsECDHE(cfg.cipher) && (resumed ==> cfg.originalHashes),
           cfg.ems)
  }

  /** How a server must be set up to make this deal. A client without a certificate must be acceptable. */
  predicate SetUp(d: Deal, cfg: S.Config) {
    && d.p == Negotiated(cfg) && d.serverRandom == cfg.random
    && d.certRequest == (cfg.found.None? && cfg.verifyPeer && !(cfg.unlessChannelId && cfg.channelId)
                         && UsesCertificateAuth(cfg.cipher))
    && d.serverKeyExchange == (RequiresServerKeyExchange(cfg.cipher)
                               || (!UsesCertificateAuth(cfg.cipher) && cfg.hint))
    && (cfg.found.Some? ==> d.oldSecret == cfg.found.value)
    && (d.certRequest && cfg.requireCertificate ==> d.clientCertificate)
  }

  /** Everything before this place has been said. */
  function Place(d: Deal, s: S.State, wait: Wait): nat {
    match s
    case StartAccept => 0
    case ReadClientHello => 0
    case SelectCertificate => 0
    case SelectParameters => 0
    case SendServerHello => 1
    case SendServerCertificate => 2
    case SendServerKeyExchange => 4
    case SendServerHelloDone => 5
    case ReadClientCertificate => 7
    case VerifyClientCertificate => 8
    case ReadClientKeyExchange => 8
    case ReadClientCertificateVerify => 9
    case ReadChangeCipherSpec => if d.p.resumed then 5 else 10
    case ProcessChangeCipherSpec => (if d.p.resumed then 5 else 10) + if wait == WaitCcs then 0 else 1
    case ReadNextProto => if d.p.resumed then 6 else 11
    case ReadChannelId => if d.p.resumed then 7 else 12
    case ReadClientFinished => if d.p.resumed then 8 else 13
    case SendServerFinished => if d.p.resumed then 2 else 14
    case FinishServerHandshake => End(d)
    case Done => End(d)
  }

  function Sending(t: seq<Msg>): seq<Mark> {
    [CcsSent, WriteChanged, FinishedSent(t)]
  }

  function Prologue(k: Crypto, d: Deal): seq<Mark> {
    [SecretDerived(Transcript(k, d, 9))]
    + if d.certRequest && d.clientCertificate then [VerifyChecked(Transcript(k, d, 9))] else []
  }

  function Marks(k: Crypto, d: Deal, s: S.State): seq<Mark> {
    if d.p.resumed then
      match s
      case ReadChangeCipherSpec => Sending(Transcript(k, d, 4))
      case ProcessChangeCipherSpec => Sending(Transcript(k, d, 4))
      case ReadNextProto => Sending(Transcript(k, d, 4)) + [ReadChanged]
      case ReadChannelId => Sending(Transcript(k, d, 4)) + [ReadChanged]
      case ReadClientFinished => Sending(Transcript(k, d, 4)) + [ReadChanged]
      case FinishServerHandshake => Sending(Transcript(k, d, 4)) + [ReadChanged, FinishedVerified(Transcript(k, d, 8))]
      case Done => Sending(Transcript(k, d, 4)) + [ReadChanged, FinishedVerified(Transcript(k, d, 8))]
      case _ => []
    else
      match s
      case ReadClientCertificateVerify => [SecretDerived(Transcript(k, d, 9))]
      case ReadChangeCipherSpec => Prologue(k, d)
      case ProcessChangeCipherSpec => Prologue(k, d)
      case ReadNextProto => Prologue(k, d) + [ReadChanged]
      case ReadChannelId => Prologue(k, d) + [ReadChanged]
      case ReadClientFinished => Prologue(k, d) + [ReadChanged]
      case SendServerFinished => Prologue(k, d) + [ReadChanged, FinishedVerified(Transcript(k, d, 13))]
      case FinishServerHandshake =>
        Prologue(k, d) + [ReadChanged, FinishedVerified(Transcript(k, d, 13))] + Sending(Transcript(k, d, 16))
      case Done =>
        Prologue(k, d) + [ReadChanged, FinishedVerified(Transcript(k, d, 13))] + Sending(Transcript(k, d, 16))
      case _ => []
  }

  predicate BeforeKeyExchange(s: S.State) {
    S.FullOnly(s) && !s.ReadClientCertificateVerify?
  }

  /** The flags, as far as they are decided. */
  predicate Decided(k: Crypto, d: Deal, cfg: S.Config, s: S.Server) {
    var c := s.core;
    match s.state
    case StartAccept => true
    case ReadClientHello => true
    case SelectCertificate => c.nextProto == cfg.nextProto && c.channelId == cfg.channelId && c.ems == cfg.ems
    case SelectParameters =>
      c.nextProto == cfg.nextProto && c.channelId == cfg.channelId && c.ems == cfg.ems && c.cipher == cfg.cipher
    case SendServerHello =>
      && c.session == d.p.resumed && c.cipher == d.p.cipher && c.ticketExpected == d.p.ticket
      && c.nextProto == d.p.nextProto && c.channelId == cfg.channelId && c.ems == d.p.ems
      && c.certRequest == d.certRequest && (d.p.resumed ==> c.secret == d.oldSecret)
    case _ =>
      && c.session == d.p.resumed && c.cipher == d.p.cipher && c.ticketExpected == d.p.ticket
      && c.statusExpected == d.p.status && c.nextProto == d.p.nextProto && c.channelId == d.p.channelId
      && c.ems == d.p.ems && c.certRequest == d.certRequest
      && (d.p.resumed ==> c.secret == d.oldSecret)
      && (!d.p.resumed && !BeforeKeyExchange(s.state) ==> c.secret == Master(k, d, Transcript(k, d, 9)))
      && (s.state.SendServerCertificate? || s.state.SendServerKeyExchange? || s.state.SendServerHelloDone?
          || s.state.ReadClientCertificate? || c.peerPubkey == (d.certRequest && d.clientCertificate))
  }

  /** The server stands where the script says. */
  predicate Stands(k: Crypto, d: Deal, cfg: S.Config, s: S.Server, wait: Wait) {
    && (S.FullOnly(s.state) ==> !d.p.resumed)
    && s.core.all == Transcript(k, d, Place(d, s.state, wait))
    && s.core.marks == Marks(k, d, s.state)
    && Decided(k, d, cfg, s)
  }

  predicate Took(c: Core, c': Core, m: Option<Msg>, taken: seq<Item>) {
    if taken == [] then c'.released == c.released
    else m.Some? && taken == [Hs(m.value)] && c'.released == c.released + [m.value]
  }

  /** What one call of a state function does for an honest server: it says and takes its part of the script. */
  ghost predicate Moves(k: Crypto, d: Deal, cfg: S.Config, s: S.Server, m: Option<Msg>, r: (S.Server, Wait)) {
    && r.1 != WaitError && Stands(k, d, cfg, r.0, r.1)
    && (r.1 == WaitPending || r.1 == WaitMessage ==> r.0 == s)
    && (r.1 != WaitPending && r.1 != WaitMessage ==>
          var a, b := Place(d, s.state, WaitOk), Place(d, r.0.state, r.1);
          && a <= b
          && r.0.core.flight == s.core.flight + Items(k, d, false, a, b)
          && Took(s.core, r.0.core, m, Items(k, d, true, a, b)))
  }

  /** What the machine's own invariant says about the transcript and the certificate. */
  predicate Views(s: S.Server) {
    && TranscriptOk(s.core)
    && (s.core.hash.Some? <==> !S.BeforeParameters(s.state))
    && (s.core.buffer.Some? <==> S.KeepsBuffer(s))
    && (s.core.peerPubkey ==> s.core.certRequest && !s.state.SendServerHello? && !s.state.SendServerCertificate?
                              && !s.state.SendServerKeyExchange? && !s.state.SendServerHelloDone?
                              && !s.state.ReadClientCertificate?)
  }

  ghost predicate Ready(k: Crypto, d: Deal, cfg: S.Config, s: S.Server) {
    DealOk(d) && SetUp(d, cfg) && Stands(k, d, cfg, s, WaitOk) && Views(s)
  }

  lemma NoItems(k: Crypto, d: Deal, a: nat)
    ensures Items(k, d, true, a, a) == [] && Items(k, d, false, a, a) == []
  {
  }

  /** A call moves as the script says if it ends where the server stands, having said and taken what lies between. */
  lemma MovesTo(k: Crypto, d: Deal, cfg: S.Config, s: S.Server, m: Option<Msg>, s': S.Server, wait: Wait)
    requires wait == WaitOk || wait == WaitFlush || wait == WaitCcs
    requires Stands(k, d, cfg, s', wait) && Place(d, s.state, WaitOk) <= Place(d, s'.state, wait)
    requires var a, b := Place(d, s.state, WaitOk), Place(d, s'.state, wait);
             s'.core.flight == s.core.flight + Items(k, d, false, a, b)
             && Took(s.core, s'.core, m, Items(k, d, true, a, b))
    ensures Moves(k, d, cfg, s, m, (s', wait))
  {
    hide Stands, Took, Place, Items;
  }

  /** So does one that has to be tried again. */
  lemma PendingMoves(k: Crypto, d: Deal, cfg: S.Config, s: S.Server, m: Option<Msg>)
    requires Stands(k, d, cfg, s, WaitOk)
    ensures Moves(k, d, cfg, s, m, (s, WaitPending))
  {
    hide Decided, Marks;
  }

  lemma NotResumed(k: Crypto, d: Deal, cfg: S.Config, s: S.Server)
    requires Stands(k, d, cfg, s, WaitOk) && S.FullOnly(s.state)
    ensures !d.p.resumed
  {
  }

  // ---------- reading ----------

  lemma HelloMoves(k: Crypto, d: Deal, cfg: S.Config, s: S.Server, m: Msg, v: Verdict)
    requires Ready(k, d, cfg, s) && (s.state.ReadClientHello? || s.state.SelectCertificate?)
    requires NextFrom(k, d, true, 0, m)
    ensures Moves(k, d, cfg, s, Some(m), S.OnMessage(k, cfg, s, m, v))
  {
    hide Transcript, Said, One, Items, NextFrom;
    Heard(k, d, true, 0, m);
    NoItems(k, d, 0);
  }

  lemma ParametersMoves(k: Crypto, d: Deal, cfg: S.Config, s: S.Server, m: Msg, v: Verdict)
    requires Ready(k, d, cfg, s) && s.state.SelectParameters?
    requires NextFrom(k, d, true, 0, m)
    ensures Moves(k, d, cfg, s, Some(m), S.OnMessage(k, cfg, s, m, v))
  {
    hide Transcript, Said, One, Items, NextFrom, Moves;
    Heard(k, d, true, 0, m);
    if v.Pend? {
      PendingMoves(k, d, cfg, s, Some(m));
    } else {
      ParametersStands(k, d, cfg, s, m, v);
      hide Stands;
      MovesTo(k, d, cfg, s, Some(m), S.OnMessage(k, cfg, s, m, v).0, WaitOk);
    }
  }

  lemma ParametersStands(k: Crypto, d: Deal, cfg: S.Config, s: S.Server, m: Msg, v: Verdict)
    requires Ready(k, d, cfg, s) && s.state.SelectParameters? && m.ClientHello? && !v.Pend?
    requires Transcript(k, d, 1) == Transcript(k, d, 0) + [m]
    ensures Stands(k, d, cfg, S.OnMessage(k, cfg, s, m, v).0, WaitOk)
  {
    hide Transcript;
  }

  lemma CertificateMoves(k: Crypto, d: Deal, cfg: S.Config, s: S.Server, m: Msg, v: Verdict)
    requires Ready(k, d, cfg, s) && S.Reads(s) && s.state.ReadClientCertificate?
    requires NextFrom(k, d, true, 7, m)
    ensures Moves(k, d, cfg, s, Some(m), S.OnMessage(k, cfg, s, m, v))
  {
    hide Transcript, Said, ItemAt, One, Items, NextFrom;
    FullItems(k, d);
    Heard(k, d, true, 7, m);
  }

  lemma KeyExchangeMoves(k: Crypto, d: Deal, cfg: S.Config, s: S.Server, m: Msg, v: Verdict)
    requires Ready(k, d, cfg, s) && s.state.ReadClientKeyExchange?
    requires NextFrom(k, d, true, 8, m)
    ensures Moves(k, d, cfg, s, Some(m), S.OnMessage(k, cfg, s, m, v))
  {
    hide Transcript, Said, ItemAt, One, Items, NextFrom, Moves, Stands, S.OnMessage;
    NotResumed(k, d, cfg, s);
    FullItems(k, d);
    Heard(k, d, true, 8, m);
    KeyExchangeStands(k, d, cfg, s, m, v);
    if s.core.cipher.RSA? && v.Pend? {
      PendingMoves(k, d, cfg, s, Some(m));
      assert S.OnMessage(k, cfg, s, m, v) == (s, WaitPending);
    } else {
      assert s.core.flight + [] == s.core.flight;
      MovesTo(k, d, cfg, s, Some(m), S.OnMessage(k, cfg, s, m, v).0, WaitOk);
    }
  }

  lemma KeyExchangeStands(k: Crypto, d: Deal, cfg: S.Config, s: S.Server, m: Msg, v: Verdict)
    requires Ready(k, d, cfg, s) && s.state.ReadClientKeyExchange? && m == ClientKeyExchange(d.premaster)
    requires Transcript(k, d, 9) == Transcript(k, d, 8) + [m]
    ensures var (s', wait) := S.OnMessage(k, cfg, s, m, v);
            if s.core.cipher.RSA? && v.Pend? then (s', wait) == (s, WaitPending)
            else
              && wait == WaitOk && s'.state.ReadClientCertificateVerify? && Stands(k, d, cfg, s', WaitOk)
              && s'.core.flight == s.core.flight && s'.core.released == s.core.released + [m]
  {
    hide Transcript;
  }

  lemma VerifyMoves(k: Crypto, d: Deal, cfg: S.Config, s: S.Server, m: Msg, v: Verdict)
    requires Ready(k, d, cfg, s) && S.Reads(s) && s.state.ReadClientCertificateVerify?
    requires NextFrom(k, d, true, 9, m)
    ensures Moves(k, d, cfg, s, Some(m), S.OnMessage(k, cfg, s, m, v))
  {
    hide Transcript, Said, ItemAt, One, Items, NextFrom;
    FullItems(k, d);
    Heard(k, d, true, 9, m);
  }

  lemma ExtraMoves(k: Crypto, d: Deal, cfg: S.Config, s: S.Server, m: Msg, v: Verdict)
    requires Ready(k, d, cfg, s) && S.Reads(s) && (s.state.ReadNextProto? || s.state.ReadChannelId?)
    requires NextFrom(k, d, true, Place(d, s.state, WaitOk), m)
    ensures Moves(k, d, cfg, s, Some(m), S.OnMessage(k, cfg, s, m, v))
  {
    hide Transcript, Said, One, ItemAt, Items, NextFrom, Present, Master, Stands, Moves;
    var a := Place(d, s.state, WaitOk);
    BeforeExtra(k, d, cfg, s);
    ExtraItem(k, d, s.state.ReadChannelId?, a);
    Heard(k, d, true, a, m);
    assert S.OnMessage(k, cfg, s, m, v)
        == (S.Server(if s.state.ReadNextProto? then S.ReadChannelId else S.ReadClientFinished,
                     HashAndRelease(s.core, m)), WaitOk);
    ExtraReceived(k, d, cfg, s, S.OnMessage(k, cfg, s, m, v).0, m, a);
    hide *;
  }

  lemma BeforeExtra(k: Crypto, d: Deal, cfg: S.Config, s: S.Server)
    requires Ready(k, d, cfg, s) && (s.state.ReadNextProto? || s.state.ReadChannelId?)
    ensures s.core.nextProto == d.p.nextProto && s.core.channelId == d.p.channelId && s.core.hash.Some?
  {
    hide Transcript, Master, Marks;
  }

  lemma ExtraReceived(k: Crypto, d: Deal, cfg: S.Config, s: S.Server, s': S.Server, m: Msg, a: nat)
    requires Stands(k, d, cfg, s, WaitOk) && (s.state.ReadNextProto? || s.state.ReadChannelId?)
    requires a == Place(d, s.state, WaitOk)
    requires s'.state == if s.state.ReadNextProto? then S.ReadChannelId else S.ReadClientFinished
    requires s'.core == s.core.(hash := s'.core.hash, buffer := s'.core.buffer, all := s.core.all + [m],
                                hashed := s.core.hashed + [m], released := s.core.released + [m])
    requires Transcript(k, d, a + 1) == Transcript(k, d, a) + [m]
    requires Items(k, d, true, a, a + 1) == [Hs(m)] && Items(k, d, false, a, a + 1) == []
    ensures Moves(k, d, cfg, s, Some(m), (s', WaitOk))
  {
    hide Transcript, Items, Master, Marks;
    SameMarks(k, d);
    StillDecided(k, d, cfg, s, s');
    hide Decided;
  }

  lemma StillDecided(k: Crypto, d: Deal, cfg: S.Config, s: S.Server, s': S.Server)
    requires Decided(k, d, cfg, s) && (s.state.ReadNextProto? || s.state.ReadChannelId?)
    requires s'.state == if s.state.ReadNextProto? then S.ReadChannelId else S.ReadClientFinished
    requires s'.core == s.core.(hash := s'.core.hash, buffer := s'.core.buffer, all := s'.core.all,
                                hashed := s'.core.hashed, released := s'.core.released)
    ensures Decided(k, d, cfg, s')
  {
    hide Transcript, Master;
  }

  lemma SameMarks(k: Crypto, d: Deal)
    ensures Marks(k, d, S.ReadNextProto) == Marks(k, d, S.ReadChannelId) == Marks(k, d, S.ReadClientFinished)
  {
    hide Transcript;
  }

  lemma FinishedMoves(k: Crypto, d: Deal, cfg: S.Config, s: S.Server, m: Msg, v: Verdict)
    requires Ready(k, d, cfg, s) && s.state.ReadClientFinished?
    requires NextFrom(k, d, true, Place(d, s.state, WaitOk), m)
    ensures Moves(k, d, cfg, s, Some(m), S.OnMessage(k, cfg, s, m, v))
  {
    hide Transcript, Said, ItemAt, One, Items, NextFrom, Master, Present, Stands, TranscriptOk, Moves;
    var a := Place(d, s.state, WaitOk);
    BeforeFinished(k, d, cfg, s);
    FinishedItem(k, d, true, a, s.core.secret);
    Heard(k, d, true, a, m);
    GetFinishedEffect(k, s.core, m, false);
    assert S.OnMessage(k, cfg, s, m, v)
        == (S.Server(if s.core.session then S.FinishServerHandshake else S.SendServerFinished,
                     GetFinished(k, s.core, m, false).value), WaitOk);
    ReceivedMoves(k, d, cfg, s, S.OnMessage(k, cfg, s, m, v).0, m, a);
    hide *;
  }

  /** What the client's Finished message will be verified against. */
  lemma BeforeFinished(k: Crypto, d: Deal, cfg: S.Config, s: S.Server)
    requires Ready(k, d, cfg, s) && s.state.ReadClientFinished?
    ensures s.core.session == d.p.resumed && s.core.all == Transcript(k, d, Place(d, s.state, WaitOk))
    ensures s.core.secret == if d.p.resumed then d.oldSecret else Master(k, d, Transcript(k, d, 9))
  {
    hide Transcript, Master, Marks;
  }

  lemma ReceivedMoves(k: Crypto, d: Deal, cfg: S.Config, s: S.Server, s': S.Server, m: Msg, a: nat)
    requires Stands(k, d, cfg, s, WaitOk) && s.state.ReadClientFinished? && a == Place(d, s.state, WaitOk)
    requires s'.state == if d.p.resumed then S.FinishServerHandshake else S.SendServerFinished
    requires s'.core == s.core.(hash := s'.core.hash, all := s.core.all + [m],
                                hashed := s.core.hashed + [m], released := s.core.released + [m],
                                marks := s.core.marks + [FinishedVerified(s.core.all)], kinds := s'.core.kinds)
    requires Transcript(k, d, a + 1) == Transcript(k, d, a) + [m]
    requires Items(k, d, true, a, a + 1) == [Hs(m)] && Items(k, d, false, a, a + 1) == []
    ensures Moves(k, d, cfg, s, Some(m), (s', WaitOk))
  {
    hide Transcript, Items, Master;
  }

  lemma MessageMoves(k: Crypto, d: Deal, cfg: S.Config, s: S.Server, m: Msg, v: Verdict)
    requires Ready(k, d, cfg, s) && S.Reads(s) && NextFrom(k, d, true, Place(d, s.state, WaitOk), m)
    ensures Moves(k, d, cfg, s, Some(m), S.OnMessage(k, cfg, s, m, v))
  {
    hide Moves, Stands, S.OnMessage, NextFrom;
    match s.state {
      case ReadClientHello => HelloMoves(k, d, cfg, s, m, v);
      case SelectCertificate => HelloMoves(k, d, cfg, s, m, v);
      case SelectParameters => ParametersMoves(k, d, cfg, s, m, v);
      case ReadClientCertificate => CertificateMoves(k, d, cfg, s, m, v);
      case ReadClientKeyExchange => KeyExchangeMoves(k, d, cfg, s, m, v);
      case ReadClientCertificateVerify => VerifyMoves(k, d, cfg, s, m, v);
      case ReadNextProto => ExtraMoves(k, d, cfg, s, m, v);
      case ReadChannelId => ExtraMoves(k, d, cfg, s, m, v);
      case ReadClientFinished => FinishedMoves(k, d, cfg, s, m, v);
    }
  }

  // ---------- sending, and places that are empty ----------

  lemma SendHelloMoves(k: Crypto, d: Deal, cfg: S.Config, s: S.Server, v: Verdict)
    requires Ready(k, d, cfg, s) && s.state.SendServerHello?
    ensures Moves(k, d, cfg, s, None, S.OnOwn(k, cfg, s, v))
  {
    hide Transcript, Said, One, Items, Moves, Stands, S.OnOwn;
    Spoken(k, d, 1, ServerHello(d.serverRandom, d.p));
    SendHelloStands(k, d, cfg, s, v);
    MovesTo(k, d, cfg, s, None, S.OnOwn(k, cfg, s, v).0, WaitOk);
  }

  lemma SendHelloStands(k: Crypto, d: Deal, cfg: S.Config, s: S.Server, v: Verdict)
    requires Ready(k, d, cfg, s) && s.state.SendServerHello?
    requires Transcript(k, d, 2) == Transcript(k, d, 1) + [ServerHello(d.serverRandom, d.p)]
    ensures var (s', wait) := S.OnOwn(k, cfg, s, v);
            && wait == WaitOk && Place(d, s'.state, WaitOk) == 2 && Stands(k, d, cfg, s', WaitOk)
            && s'.core.flight == s.core.flight + [Hs(ServerHello(d.serverRandom, d.p))]
            && s'.core.released == s.core.released
  {
    hide Transcript;
  }

  lemma SendCertificateMoves(k: Crypto, d: Deal, cfg: S.Config, s: S.Server, v: Verdict)
    requires Ready(k, d, cfg, s) && s.state.SendServerCertificate?
    ensures Moves(k, d, cfg, s, None, S.OnOwn(k, cfg, s, v))
  {
    hide Transcript, Said, ItemAt, One, Items, Moves, Stands, S.OnOwn;
    NotResumed(k, d, cfg, s);
    FullItems(k, d);
    SpokenTwo(k, d, 2, Certificate(true), CertificateStatus);
    SendCertificateStands(k, d, cfg, s, v);
    MovesTo(k, d, cfg, s, None, S.OnOwn(k, cfg, s, v).0, WaitOk);
  }

  lemma SendCertificateStands(k: Crypto, d: Deal, cfg: S.Config, s: S.Server, v: Verdict)
    requires Ready(k, d, cfg, s) && s.state.SendServerCertificate?
    requires Transcript(k, d, 4)
          == Transcript(k, d, 2) + (if UsesCertificateAuth(d.p.cipher) then [Certificate(true)] else [])
             + (if d.p.status then [CertificateStatus] else [])
    ensures var (s', wait) := S.OnOwn(k, cfg, s, v);
            && wait == WaitOk && s'.state.SendServerKeyExchange? && Stands(k, d, cfg, s', WaitOk)
            && s'.core.flight
               == s.core.flight + ((if UsesCertificateAuth(d.p.cipher) then [Hs(Certificate(true))] else [])
                                   + (if d.p.status then [Hs(CertificateStatus)] else []))
            && s'.core.released == s.core.released
  {
    hide Transcript;
  }

  /** Two places in a row of the same side. */
  lemma SpokenTwo(k: Crypto, d: Deal, a: nat, m: Msg, n: Msg)
    requires (Present(d, a) ==> ItemAt(k, d, a) == Hs(m)) && (Present(d, a + 1) ==> ItemAt(k, d, a + 1) == Hs(n))
    requires FromClient(d, a) == FromClient(d, a + 1)
    ensures Transcript(k, d, a + 2)
         == Transcript(k, d, a) + (if Present(d, a) then [m] else []) + (if Present(d, a + 1) then [n] else [])
    ensures Items(k, d, FromClient(d, a), a, a + 2)
         == (if Present(d, a) then [Hs(m)] else []) + (if Present(d, a + 1) then [Hs(n)] else [])
    ensures Items(k, d, !FromClient(d, a), a, a + 2) == []
  {
    hide Transcript, Said, ItemAt, One, Items;
    Spoken(k, d, a, m);
    Spoken(k, d, a + 1, n);
    ItemsSplit(k, d, true, a, a + 1, a + 2);
    ItemsSplit(k, d, false, a, a + 1, a + 2);
  }

  lemma SendKeyExchangeMoves(k: Crypto, d: Deal, cfg: S.Config, s: S.Server, v: Verdict)
    requires Ready(k, d, cfg, s) && s.state.SendServerKeyExchange?
    ensures Moves(k, d, cfg, s, None, S.OnOwn(k, cfg, s, v))
  {
    hide Transcript, Said, ItemAt, One, Items;
    FullItems(k, d);
    Spoken(k, d, 4, ServerKeyExchange(d.serverRandom));
  }

  lemma SendHelloDoneMoves(k: Crypto, d: Deal, cfg: S.Config, s: S.Server, v: Verdict)
    requires Ready(k, d, cfg, s) && s.state.SendServerHelloDone?
    ensures Moves(k, d, cfg, s, None, S.OnOwn(k, cfg, s, v))
  {
    hide Transcript, Said, ItemAt, One, Items;
    FullItems(k, d);
    SpokenTwo(k, d, 5, CertificateRequest, ServerHelloDone);
  }

  lemma SkipMoves(k: Crypto, d: Deal, cfg: S.Config, s: S.Server, v: Verdict)
    requires Ready(k, d, cfg, s) && !S.Reads(s)
    requires s.state.ReadClientCertificate? || s.state.ReadClientCertificateVerify?
             || s.state.ReadNextProto? || s.state.ReadChannelId?
    ensures Moves(k, d, cfg, s, None, S.OnOwn(k, cfg, s, v))
  {
    hide Transcript, Said, ItemAt, One, Items, Moves;
    Skipped(k, d, Place(d, s.state, WaitOk));
    if s.state.ReadClientCertificate? || s.state.ReadClientCertificateVerify? {
      SkipAuthStands(k, d, cfg, s, v);
    } else {
      SkipExtraStands(k, d, cfg, s, v);
    }
    hide Stands;
    MovesTo(k, d, cfg, s, None, S.OnOwn(k, cfg, s, v).0, WaitOk);
  }

  lemma SkipAuthStands(k: Crypto, d: Deal, cfg: S.Config, s: S.Server, v: Verdict)
    requires Ready(k, d, cfg, s) && !S.Reads(s)
    requires s.state.ReadClientCertificate? || s.state.ReadClientCertificateVerify?
    requires var a := Place(d, s.state, WaitOk); Transcript(k, d, a + 1) == Transcript(k, d, a)
    ensures Stands(k, d, cfg, S.OnOwn(k, cfg, s, v).0, WaitOk)
  {
    hide Transcript;
  }

  lemma SkipExtraStands(k: Crypto, d: Deal, cfg: S.Config, s: S.Server, v: Verdict)
    requires Ready(k, d, cfg, s) && !S.Reads(s) && (s.state.ReadNextProto? || s.state.ReadChannelId?)
    requires var a := Place(d, s.state, WaitOk); Transcript(k, d, a + 1) == Transcript(k, d, a)
    ensures Stands(k, d, cfg, S.OnOwn(k, cfg, s, v).0, WaitOk)
  {
    hide Transcript, Marks;
    SameMarks(k, d);
  }

  /** States in which nothing is said. */
  lemma RestMoves(k: Crypto, d: Deal, cfg: S.Config, s: S.Server, v: Verdict)
    requires Ready(k, d, cfg, s)
    requires s.state.StartAccept? || s.state.VerifyClientCertificate? || s.state.ReadChangeCipherSpec?
             || s.state.ProcessChangeCipherSpec? || s.state.FinishServerHandshake? || s.state.Done?
    ensures Moves(k, d, cfg, s, None, S.OnOwn(k, cfg, s, v))
  {
    hide Transcript, Said, ItemAt, One, Items, NextFrom, Moves;
    NoItems(k, d, Place(d, s.state, WaitOk));
    if s.state.VerifyClientCertificate? && s.core.peerPubkey && v.Pend? {
      PendingMoves(k, d, cfg, s, None);
    } else {
      var (s', wait) := S.OnOwn(k, cfg, s, v);
      if s.state.ReadChangeCipherSpec? || s.state.ProcessChangeCipherSpec? {
        CcsStands(k, d, cfg, s, v);
      } else {
        RestStands(k, d, cfg, s, v);
      }
      hide Stands;
      assert s.core.flight + [] == s.core.flight;
      MovesTo(k, d, cfg, s, None, s', wait);
    }
  }

  lemma CcsStands(k: Crypto, d: Deal, cfg: S.Config, s: S.Server, v: Verdict)
    requires Ready(k, d, cfg, s) && (s.state.ReadChangeCipherSpec? || s.state.ProcessChangeCipherSpec?)
    ensures var (s', wait) := S.OnOwn(k, cfg, s, v);
            Stands(k, d, cfg, s', wait) && Place(d, s'.state, wait) == Place(d, s.state, WaitOk)
  {
    hide Transcript;
  }

  lemma RestStands(k: Crypto, d: Deal, cfg: S.Config, s: S.Server, v: Verdict)
    requires Ready(k, d, cfg, s) && !(s.state.VerifyClientCertificate? && s.core.peerPubkey && v.Pend?)
    requires s.state.StartAccept? || s.state.VerifyClientCertificate? || s.state.FinishServerHandshake? || s.state.Done?
    ensures var (s', wait) := S.OnOwn(k, cfg, s, v);
            wait == WaitOk && Stands(k, d, cfg, s', WaitOk) && Place(d, s'.state, WaitOk) == Place(d, s.state, WaitOk)
  {
    hide Transcript;
  }

  /** The ticket, ChangeCipherSpec and Finished: three places at once. */
  lemma SendFinishedMoves(k: Crypto, d: Deal, cfg: S.Config, s: S.Server, v: Verdict)
    requires Ready(k, d, cfg, s) && s.state.SendServerFinished?
    ensures Moves(k, d, cfg, s, None, S.OnOwn(k, cfg, s, v))
  {
    var a := if d.p.resumed then 2 else 14;
    FlightIsScripted(k, d, cfg, s, a);
    OwnIsFlight(k, cfg, s, v);
    hide S.OnOwn, S.SendServerFinishedStep, Transcript, Items, Stands, Moves, Views, TranscriptOk, SetUp, Sending;
    SentMoves(k, d, cfg, s, S.SendServerFinishedStep(k, s).0, a);
  }

  lemma OwnIsFlight(k: Crypto, cfg: S.Config, s: S.Server, v: Verdict)
    requires s.state.SendServerFinished? && CanFinish(s.core)
    ensures S.OnOwn(k, cfg, s, v) == S.SendServerFinishedStep(k, s)
  {
    hide S.SendServerFinishedStep;
  }

  lemma FlightIsScripted(k: Crypto, d: Deal, cfg: S.Config, s: S.Server, a: nat)
    requires Ready(k, d, cfg, s) && s.state.SendServerFinished? && a == if d.p.resumed then 2 else 14
    ensures CanFinish(s.core) && Items(k, d, true, a, a + 3) == []
    ensures var (s', wait) := S.SendServerFinishedStep(k, s);
            && wait == WaitFlush
            && s'.state == (if d.p.resumed then S.ReadChangeCipherSpec else S.FinishServerHandshake)
            && s'.core.all == Transcript(k, d, a + 3)
            && s'.core.marks == s.core.marks + Sending(Transcript(k, d, a + 2))
            && s'.core.flight == s.core.flight + Items(k, d, false, a, a + 3)
            && s'.core == s.core.(buffer := None, hash := s'.core.hash, all := s'.core.all,
                                  flight := s'.core.flight, marks := s'.core.marks, kinds := s'.core.kinds)
  {
    hide S.SendServerFinishedStep, Transcript, Items, ItemAt, Stands, Master, TranscriptOk;
    BeforeFlight(k, d, cfg, s);
    FlightPlaces(k, d, s.core.secret, a);
    S.SendFinishedEffect(k, s);
    FlightSent(k, d, s, a);
  }

  lemma BeforeFlight(k: Crypto, d: Deal, cfg: S.Config, s: S.Server)
    requires Ready(k, d, cfg, s) && s.state.SendServerFinished?
    ensures TranscriptOk(s.core) && CanFinish(s.core)
    ensures s.core.session == d.p.resumed && s.core.ticketExpected == d.p.ticket
    ensures s.core.all == Transcript(k, d, if d.p.resumed then 2 else 14)
    ensures s.core.secret == if d.p.resumed then d.oldSecret else Master(k, d, Transcript(k, d, 9))
  {
    hide Marks, Transcript, Master;
  }

  lemma SentMoves(k: Crypto, d: Deal, cfg: S.Config, s: S.Server, s': S.Server, a: nat)
    requires Stands(k, d, cfg, s, WaitOk) && s.state.SendServerFinished?
    requires s'.state == if d.p.resumed then S.ReadChangeCipherSpec else S.FinishServerHandshake
    requires a == if d.p.resumed then 2 else 14
    requires s'.core.all == Transcript(k, d, a + 3)
    requires s'.core.marks == s.core.marks + Sending(Transcript(k, d, a + 2))
    requires s'.core.flight == s.core.flight + Items(k, d, false, a, a + 3) && Items(k, d, true, a, a + 3) == []
    requires s'.core == s.core.(buffer := None, hash := s'.core.hash, all := s'.core.all, flight := s'.core.flight,
                                marks := s'.core.marks, kinds := s'.core.kinds)
    ensures Moves(k, d, cfg, s, None, (s', WaitFlush))
  {
    hide Transcript, Items;
    assert [] + Sending(Transcript(k, d, a + 2)) == Sending(Transcript(k, d, a + 2));
  }

  lemma FlightPlaces(k: Crypto, d: Deal, secret: nat, a: nat)
    requires a == if d.p.resumed then 2 else 14
    requires secret == if d.p.resumed then d.oldSecret else Master(k, d, Transcript(k, d, 9))
    ensures var ticket := if d.p.ticket then [NewSessionTicket(false)] else [];
            var m := Finished((k.mac)(secret, Transcript(k, d, a + 2), true));
            && Transcript(k, d, a + 2) == Transcript(k, d, a) + ticket
            && Transcript(k, d, a + 3) == Transcript(k, d, a + 2) + [m]
            && Items(k, d, false, a, a + 3)
               == (if d.p.ticket then [Hs(NewSessionTicket(false))] else []) + [Ccs] + [Hs(m)]
            && Items(k, d, true, a, a + 3) == []
  {
    PerhapsHere(k, d, a, NewSessionTicket(false));
    CcsHere(k, d, a + 1);
    MessageHere(k, d, a + 2, Finished((k.mac)(secret, Transcript(k, d, a + 2), true)));
    hide Transcript, Said, One, ItemAt;
    ItemsThree(k, d, true, a);
    ItemsThree(k, d, false, a);
  }

  /** The flight in detail. */
  lemma FlightSent(k: Crypto, d: Deal, s: S.Server, a: nat)
    requires TranscriptOk(s.core) && CanFinish(s.core) && s.core.ticketExpected == d.p.ticket
    requires a == (if d.p.resumed then 2 else 14) && s.core.all == Transcript(k, d, a)
    requires s.core.secret == if d.p.resumed then d.oldSecret else Master(k, d, Transcript(k, d, 9))
    ensures var s' := S.SendServerFinishedStep(k, s).0;
            && s'.core.all == Transcript(k, d, a + 3)
            && s'.core.marks == s.core.marks + Sending(Transcript(k, d, a + 2))
            && s'.core.flight == s.core.flight + Items(k, d, false, a, a + 3)
  {
    hide Transcript, Said, ItemAt, One, Items, Master, Present;
    FlightPlaces(k, d, s.core.secret, a);
    var t := Transcript(k, d, a + 2);
    var ticket := if d.p.ticket then [Hs(NewSessionTicket(false))] else [];
    var core := if s.core.ticketExpected then AddMessage(s.core, NewSessionTicket(false)) else s.core;
    FlightJoined(s.core.flight, ticket, Hs(Finished((k.mac)(s.core.secret, t, true))));
    assert core.all == t && core.flight == s.core.flight + ticket && core.secret == s.core.secret;
    S.TicketAdded(s.core);
    SendFinishedSays(k, core, true);
    hide AddMessage, SendFinished, ChangeWriteCipher, TranscriptOk;
  }

  lemma FlightJoined(flight: seq<Item>, ticket: seq<Item>, last: Item)
    ensures flight + ticket + [Ccs] + [last] == flight + (ticket + [Ccs] + [last])
    ensures flight + [] == flight
  {
  }

  lemma OwnMoves(k: Crypto, d: Deal, cfg: S.Config, s: S.Server, v: Verdict)
    requires Ready(k, d, cfg, s) && !S.Reads(s)
    ensures Moves(k, d, cfg, s, None, S.OnOwn(k, cfg, s, v))
  {
    hide Moves, Stands, S.OnOwn;
    match s.state {
      case SendServerHello => SendHelloMoves(k, d, cfg, s, v);
      case SendServerCertificate => SendCertificateMoves(k, d, cfg, s, v);
      case SendServerKeyExchange => SendKeyExchangeMoves(k, d, cfg, s, v);
      case SendServerHelloDone => SendHelloDoneMoves(k, d, cfg, s, v);
      case ReadClientCertificate => SkipMoves(k, d, cfg, s, v);
      case ReadClientCertificateVerify => SkipMoves(k, d, cfg, s, v);
      case ReadNextProto => SkipMoves(k, d, cfg, s, v);
      case ReadChannelId => SkipMoves(k, d, cfg, s, v);
      case SendServerFinished => SendFinishedMoves(k, d, cfg, s, v);
      case _ => RestMoves(k, d, cfg, s, v);
    }
  }
}
