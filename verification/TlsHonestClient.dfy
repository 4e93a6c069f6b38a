/** An honest client follows the script: every state function says and takes exactly its part. */
module TlsHonestClient {
  import opened Basics
  import opened TlsHandshake
  import opened TlsScript
  import C = TlsClient

  /** How a client must be set up to make this deal. */
  predicate SetUp(d: Deal, cfg: C.Config) {
    && cfg.random == d.clientRandom && cfg.premaster == d.premaster
    && (d.certRequest ==> cfg.hasCertificate == d.clientCertificate)
  }

  /** Everything before this place has been said. */
  function Place(d: Deal, s: C.State, wait: Wait): nat {
    match s
    case StartConnect => 0
    case EnterEarlyData => 1
    case ReadHelloVerifyRequest => 1
    case ReadServerHello => 1
    case ReadServerCertificate => 2
    case ReadCertificateStatus => 3
    case VerifyServerCertificate => 4
    case ReadServerKeyExchange => 4
    case ReadCertificateRequest => 5
    case ReadServerHelloDone => 6
    case SendClientCertificate => 7
    case SendClientKeyExchange => 8
    case SendClientCertificateVerify => 9
    case SendClientFinished => if d.p.resumed then 5 else 10
    case FinishFlight => if d.p.resumed then 9 else 14
    case ReadSessionTicket => if d.p.resumed then 2 else 14
    case ProcessChangeCipherSpec => (if d.p.resumed then 3 else 15) + if wait == WaitCcs then 0 else 1
    case ReadServerFinished => if d.p.resumed then 4 else 16
    case FinishClientHandshake => End(d)
    case Done => End(d)
  }

  /** The flags the ServerHello has settled. */
  predicate Settled(d: Deal, c: Core) {
    && c.session == d.p.resumed && c.cipher == d.p.cipher && c.ticketExpected == d.p.ticket
    && c.statusExpected == d.p.status && c.nextProto == d.p.nextProto && c.channelId == d.p.channelId
    && c.ems == d.p.ems
  }

  function Sending(t: seq<Msg>): seq<Mark> {
    [CcsSent, WriteChanged, FinishedSent(t)]
  }

  function Prologue(k: Crypto, d: Deal): seq<Mark> {
    [SecretDerived(Transcript(k, d, 9))]
    + if d.certRequest && d.clientCertificate then [VerifySigned(Transcript(k, d, 9))] else []
  }

  /** The history, with the transcripts that were signed and hashed. */
  function Marks(k: Crypto, d: Deal, s: C.State): seq<Mark> {
    if d.p.resumed then
      match s
      case ReadServerFinished => [ReadChanged]
      case SendClientFinished => [ReadChanged, FinishedVerified(Transcript(k, d, 4))]
      case FinishFlight => [ReadChanged, FinishedVerified(Transcript(k, d, 4))] + Sending(Transcript(k, d, 8))
      case FinishClientHandshake => [ReadChanged, FinishedVerified(Transcript(k, d, 4))] + Sending(Transcript(k, d, 8))
      case Done => [ReadChanged, FinishedVerified(Transcript(k, d, 4))] + Sending(Transcript(k, d, 8))
      case _ => []
    else
      match s
      case SendClientCertificateVerify => [SecretDerived(Transcript(k, d, 9))]
      case SendClientFinished => Prologue(k, d)
      case FinishFlight => Prologue(k, d) + Sending(Transcript(k, d, 13))
      case ReadSessionTicket => Prologue(k, d) + Sending(Transcript(k, d, 13))
      case ProcessChangeCipherSpec => Prologue(k, d) + Sending(Transcript(k, d, 13))
      case ReadServerFinished => Prologue(k, d) + Sending(Transcript(k, d, 13)) + [ReadChanged]
      case FinishClientHandshake =>
        Prologue(k, d) + Sending(Transcript(k, d, 13)) + [ReadChanged, FinishedVerified(Transcript(k, d, 16))]
      case Done =>
        Prologue(k, d) + Sending(Transcript(k, d, 13)) + [ReadChanged, FinishedVerified(Transcript(k, d, 16))]
      case _ => []
  }

  predicate BeforeKeyExchange(s: C.State) {
    C.FullOnly(s) && !s.SendClientCertificateVerify?
  }

  /** The client stands where the script says. */
  predicate Stands(k: Crypto, d: Deal, c: C.Client, wait: Wait) {
    && (C.FullOnly(c.state) ==> !d.p.resumed)
    && c.core.all == Transcript(k, d, Place(d, c.state, wait))
    && c.core.marks == Marks(k, d, c.state)
    && (if C.BeforeServerHello(c.state) then (d.p.resumed ==> c.core.session && c.core.secret == d.oldSecret)
        else
          && Settled(d, c.core)
          && (d.p.resumed ==> c.core.secret == d.oldSecret)
          && (!d.p.resumed && !BeforeKeyExchange(c.state) ==> c.core.secret == Master(k, d, Transcript(k, d, 9)))
          && (C.BeforeRequest(c.state) || c.core.certRequest == d.certRequest))
    && (C.BeforeRequest(c.state) ==> !c.core.certRequest)
  }

  /** The messages taken off the connection. */
  predicate Took(c: Core, c': Core, m: Option<Msg>, taken: seq<Item>) {
    if taken == [] then c'.released == c.released
    else m.Some? && taken == [Hs(m.value)] && c'.released == c.released + [m.value]
  }

  /** What one call of a state function does for an honest client: it says and takes its part of the script. */
  ghost predicate Moves(k: Crypto, d: Deal, c: C.Client, m: Option<Msg>, r: (C.Client, Wait)) {
    && r.1 != WaitError && Stands(k, d, r.0, r.1)
    && (r.1 == WaitPending || r.1 == WaitMessage ==> r.0 == c)
    && (r.1 != WaitPending && r.1 != WaitMessage ==>
          var a, b := Place(d, c.state, WaitOk), Place(d, r.0.state, r.1);
          && a <= b
          && r.0.core.flight == c.core.flight + Items(k, d, true, a, b)
          && Took(c.core, r.0.core, m, Items(k, d, false, a, b)))
  }

  /** What the machine's own invariant says about the transcript. */
  predicate Views(cfg: C.Config, c: C.Client) {
    && TranscriptOk(c.core)
    && (c.core.hash.Some? <==> !C.BeforeServerHello(c.state))
    && (c.core.buffer.Some? <==> C.KeepsBuffer(cfg, c))
  }

  ghost predicate Ready(k: Crypto, d: Deal, cfg: C.Config, c: C.Client) {
    DealOk(d) && SetUp(d, cfg) && Stands(k, d, c, WaitOk) && Views(cfg, c)
  }

  lemma StartMoves(k: Crypto, d: Deal, cfg: C.Config, c: C.Client, v: Verdict)
    requires Ready(k, d, cfg, c) && (c.state.StartConnect? || c.state.EnterEarlyData?)
    ensures Moves(k, d, c, None, C.OnOwn(k, cfg, c, v))
  {
    MessageHere(k, d, 0, ClientHello(d.clientRandom));
    ItemsOne(k, d, true, 0);
    ItemsOne(k, d, false, 0);
    hide Transcript, Said, ItemAt;
  }

  lemma SendCertificateMoves(k: Crypto, d: Deal, cfg: C.Config, c: C.Client, v: Verdict)
    requires Ready(k, d, cfg, c) && c.state.SendClientCertificate?
    ensures Moves(k, d, c, None, C.OnOwn(k, cfg, c, v))
  {
    hide Transcript, Said, ItemAt, One, Items, NextFrom;
    FullItems(k, d);
    Spoken(k, d, 7, Certificate(d.clientCertificate));
  }

  lemma KeyExchangeMoves(k: Crypto, d: Deal, cfg: C.Config, c: C.Client, v: Verdict)
    requires Ready(k, d, cfg, c) && c.state.SendClientKeyExchange?
    ensures Moves(k, d, c, None, C.OnOwn(k, cfg, c, v))
  {
    hide Transcript, Said, ItemAt, One, Items, NextFrom;
    FullItems(k, d);
    Spoken(k, d, 8, ClientKeyExchange(d.premaster));
  }

  lemma VerifyMoves(k: Crypto, d: Deal, cfg: C.Config, c: C.Client, v: Verdict)
    requires Ready(k, d, cfg, c) && c.state.SendClientCertificateVerify?
    ensures Moves(k, d, c, None, C.OnOwn(k, cfg, c, v))
  {
    hide Transcript, Said, ItemAt, One, Items, NextFrom;
    FullItems(k, d);
    Spoken(k, d, 9, CertificateVerify((k.sign)(Transcript(k, d, 9))));
  }

  /** ChangeCipherSpec, the extension messages and Finished: four places at once. */
  lemma SendFinishedMoves(k: Crypto, d: Deal, cfg: C.Config, c: C.Client, v: Verdict)
    requires Ready(k, d, cfg, c) && c.state.SendClientFinished?
    ensures Moves(k, d, c, None, C.OnOwn(k, cfg, c, v))
  {
    if c.core.channelId && v.Pend? {
      PendingSends(k, d, cfg, c, v);
    } else {
      var a := if d.p.resumed then 5 else 10;
      FlightIsScripted(k, d, cfg, c, v, a);
      assert C.OnOwn(k, cfg, c, v) == C.SendFinishedStep(k, c, v);
      hide C.OnOwn, C.SendFinishedStep, Transcript, Items, Stands, Moves;
      SentMoves(k, d, c, C.SendFinishedStep(k, c, v).0, a);
    }
  }

  lemma FlightIsScripted(k: Crypto, d: Deal, cfg: C.Config, c: C.Client, v: Verdict, a: nat)
    requires Ready(k, d, cfg, c) && c.state.SendClientFinished? && !(c.core.channelId && v.Pend?)
    requires a == if d.p.resumed then 5 else 10
    ensures CanFinish(c.core) && Items(k, d, false, a, a + 4) == []
    ensures var (c', wait) := C.SendFinishedStep(k, c, v);
            && wait == WaitFlush && c'.state.FinishFlight?
            && c'.core.all == Transcript(k, d, a + 4)
            && c'.core.marks == c.core.marks + Sending(Transcript(k, d, a + 3))
            && c'.core.flight == c.core.flight + Items(k, d, true, a, a + 4)
            && c'.core == c.core.(buffer := None, hash := c'.core.hash, all := c'.core.all,
                                  flight := c'.core.flight, marks := c'.core.marks, kinds := c'.core.kinds)
  {
    hide C.SendFinishedStep, Transcript, Items, One, ItemAt, Stands, Settled, Master, TranscriptOk;
    BeforeFlight(k, d, cfg, c);
    ItemsFour(k, d, true, a);
    OthersSilent(k, d, a);
    C.SendFinishedEffect(k, c, v);
    FlightSent(k, d, c, v, a);
  }

  lemma PendingSends(k: Crypto, d: Deal, cfg: C.Config, c: C.Client, v: Verdict)
    requires Ready(k, d, cfg, c) && c.state.SendClientFinished? && c.core.channelId && v.Pend?
    ensures Moves(k, d, c, None, C.OnOwn(k, cfg, c, v))
  {
    hide Marks, Transcript;
  }

  lemma BeforeFlight(k: Crypto, d: Deal, cfg: C.Config, c: C.Client)
    requires Ready(k, d, cfg, c) && c.state.SendClientFinished?
    ensures TranscriptOk(c.core) && CanFinish(c.core)
    ensures Settled(d, c.core) && c.core.all == Transcript(k, d, if d.p.resumed then 5 else 10)
    ensures c.core.secret == if d.p.resumed then d.oldSecret else Master(k, d, Transcript(k, d, 9))
  {
    hide Marks, Transcript, Master;
  }

  lemma OthersSilent(k: Crypto, d: Deal, a: nat)
    requires a == if d.p.resumed then 5 else 10
    ensures Items(k, d, false, a, a + 4) == []
  {
    hide ItemAt;
    ItemsFour(k, d, false, a);
  }

  lemma SentMoves(k: Crypto, d: Deal, c: C.Client, c': C.Client, a: nat)
    requires Stands(k, d, c, WaitOk) && c.state.SendClientFinished? && c'.state.FinishFlight?
    requires a == if d.p.resumed then 5 else 10
    requires c'.core.all == Transcript(k, d, a + 4)
    requires c'.core.marks == c.core.marks + Sending(Transcript(k, d, a + 3))
    requires c'.core.flight == c.core.flight + Items(k, d, true, a, a + 4) && Items(k, d, false, a, a + 4) == []
    requires c'.core == c.core.(buffer := None, hash := c'.core.hash, all := c'.core.all, flight := c'.core.flight,
                                marks := c'.core.marks, kinds := c'.core.kinds)
    ensures Moves(k, d, c, None, (c', WaitFlush))
  {
    hide Transcript, Items;
  }

  /** The flight in detail. */
  lemma FlightSent(k: Crypto, d: Deal, c: C.Client, v: Verdict, a: nat)
    requires DealOk(d) && Settled(d, c.core) && TranscriptOk(c.core) && CanFinish(c.core)
    requires a == (if d.p.resumed then 5 else 10) && c.core.all == Transcript(k, d, a)
    requires c.core.secret == if d.p.resumed then d.oldSecret else Master(k, d, Transcript(k, d, 9))
    requires !(c.core.channelId && v.Pend?)
    ensures var c' := C.SendFinishedStep(k, c, v).0;
            && c'.core.all == Transcript(k, d, a + 4)
            && c'.core.marks == c.core.marks + Sending(Transcript(k, d, a + 3))
            && c'.core.flight == c.core.flight + (One(k, d, true, a) + One(k, d, true, a + 1)
                                                  + One(k, d, true, a + 2) + One(k, d, true, a + 3))
  {
    hide Transcript, Said, ItemAt, One, Master, Present;
    var verifyData := (k.mac)(c.core.secret, Transcript(k, d, a + 3), false);
    FlightPlaces(k, d, c.core.secret, a);
    var core := ChangeWriteCipher(c.core);
    C.ExtrasKeep(core);
    var core' := C.WithExtras(core);
    assert core'.all == Transcript(k, d, a + 3);
    assert core'.flight == c.core.flight + [Ccs] + One(k, d, true, a + 1) + One(k, d, true, a + 2);
    hide C.WithExtras;
    assert c.core.marks + [CcsSent] + [WriteChanged] + [FinishedSent(core'.all)]
        == c.core.marks + Sending(Transcript(k, d, a + 3));
    FlightJoined(c.core.flight, One(k, d, true, a + 1), One(k, d, true, a + 2), Hs(Finished(verifyData)));
  }

  lemma FlightPlaces(k: Crypto, d: Deal, secret: nat, a: nat)
    requires a == if d.p.resumed then 5 else 10
    requires secret == if d.p.resumed then d.oldSecret else Master(k, d, Transcript(k, d, 9))
    ensures Transcript(k, d, a + 1) == Transcript(k, d, a) && One(k, d, true, a) == [Ccs]
    ensures Transcript(k, d, a + 2) == Transcript(k, d, a + 1) + if d.p.nextProto then [NextProto] else []
    ensures One(k, d, true, a + 1) == if d.p.nextProto then [Hs(NextProto)] else []
    ensures Transcript(k, d, a + 3) == Transcript(k, d, a + 2) + if d.p.channelId then [ChannelId] else []
    ensures One(k, d, true, a + 2) == if d.p.channelId then [Hs(ChannelId)] else []
    ensures var m := Finished((k.mac)(secret, Transcript(k, d, a + 3), false));
            Transcript(k, d, a + 4) == Transcript(k, d, a + 3) + [m] && One(k, d, true, a + 3) == [Hs(m)]
  {
    CcsHere(k, d, a);
    PerhapsHere(k, d, a + 1, NextProto);
    PerhapsHere(k, d, a + 2, ChannelId);
    MessageHere(k, d, a + 3, Finished((k.mac)(secret, Transcript(k, d, a + 3), false)));
    hide Transcript, Said, One;
  }

  lemma FlightJoined(flight: seq<Item>, a: seq<Item>, b: seq<Item>, last: Item)
    ensures flight + [Ccs] + a + b + [last] == flight + ([Ccs] + a + b + [last])
  {
  }

  /** Places that are empty under this deal. */
  lemma SkipMoves(k: Crypto, d: Deal, cfg: C.Config, c: C.Client, v: Verdict)
    requires Ready(k, d, cfg, c) && !C.Reads(c)
    requires c.state.ReadServerCertificate? || c.state.ReadCertificateStatus? || c.state.ReadCertificateRequest?
             || c.state.ReadSessionTicket?
    ensures Moves(k, d, c, None, C.OnOwn(k, cfg, c, v))
  {
    hide Transcript, Said, ItemAt, One, Items, NextFrom;
    Skipped(k, d, Place(d, c.state, WaitOk));
  }

  lemma RestMoves(k: Crypto, d: Deal, cfg: C.Config, c: C.Client, v: Verdict)
    requires Ready(k, d, cfg, c)
    requires c.state.VerifyServerCertificate? || c.state.FinishFlight? || c.state.FinishClientHandshake?
             || c.state.Done? || c.state.ProcessChangeCipherSpec?
    ensures Moves(k, d, c, None, C.OnOwn(k, cfg, c, v))
  {
    hide Transcript, Said, ItemAt, One, Items;
    NoItems(k, d, Place(d, c.state, WaitOk));
  }

  lemma OwnMoves(k: Crypto, d: Deal, cfg: C.Config, c: C.Client, v: Verdict)
    requires Ready(k, d, cfg, c) && !C.Reads(c)
    ensures Moves(k, d, c, None, C.OnOwn(k, cfg, c, v))
  {
    hide Moves, Stands, C.OnOwn;
    match c.state {
      case StartConnect => StartMoves(k, d, cfg, c, v);
      case EnterEarlyData => StartMoves(k, d, cfg, c, v);
      case SendClientCertificate => SendCertificateMoves(k, d, cfg, c, v);
      case SendClientKeyExchange => KeyExchangeMoves(k, d, cfg, c, v);
      case SendClientCertificateVerify => VerifyMoves(k, d, cfg, c, v);
      case SendClientFinished => SendFinishedMoves(k, d, cfg, c, v);
      case ReadServerCertificate => SkipMoves(k, d, cfg, c, v);
      case ReadCertificateStatus => SkipMoves(k, d, cfg, c, v);
      case ReadCertificateRequest => SkipMoves(k, d, cfg, c, v);
      case ReadSessionTicket => SkipMoves(k, d, cfg, c, v);
      case _ => RestMoves(k, d, cfg, c, v);
    }
  }

  // ---------- reading ----------

  lemma NoItems(k: Crypto, d: Deal, a: nat)
    ensures Items(k, d, true, a, a) == [] && Items(k, d, false, a, a) == []
  {
  }

  /** A call moves as the script says if it ends where the client stands, having said and taken what lies between. */
  lemma MovesTo(k: Crypto, d: Deal, c: C.Client, m: Option<Msg>, c': C.Client, wait: Wait)
    requires wait == WaitOk || wait == WaitFlush || wait == WaitCcs
    requires Stands(k, d, c', wait) && Place(d, c.state, WaitOk) <= Place(d, c'.state, wait)
    requires var a, b := Place(d, c.state, WaitOk), Place(d, c'.state, wait);
             c'.core.flight == c.core.flight + Items(k, d, true, a, b)
             && Took(c.core, c'.core, m, Items(k, d, false, a, b))
    ensures Moves(k, d, c, m, (c', wait))
  {
    hide Stands, Took, Place, Items;
  }

  lemma HelloMoves(k: Crypto, d: Deal, cfg: C.Config, c: C.Client, m: Msg)
    requires Ready(k, d, cfg, c) && c.state.ReadServerHello?
    requires NextFrom(k, d, false, 1, m)
    ensures Moves(k, d, c, Some(m), C.OnMessage(k, cfg, c, m))
  {
    hide Transcript, Said, One, Items, NextFrom, Moves, Stands, C.OnMessage;
    Heard(k, d, false, 1, m);
    HelloStands(k, d, cfg, c, m);
    assert c.core.flight + [] == c.core.flight;
    MovesTo(k, d, c, Some(m), C.OnMessage(k, cfg, c, m).0, WaitOk);
  }

  lemma HelloStands(k: Crypto, d: Deal, cfg: C.Config, c: C.Client, m: Msg)
    requires Ready(k, d, cfg, c) && c.state.ReadServerHello? && m == ServerHello(d.serverRandom, d.p)
    requires Transcript(k, d, 2) == Transcript(k, d, 1) + [m]
    ensures var (c', wait) := C.OnMessage(k, cfg, c, m);
            && wait == WaitOk && Place(d, c'.state, WaitOk) == 2 && Stands(k, d, c', WaitOk)
            && c'.core.flight == c.core.flight && c'.core.released == c.core.released + [m]
  {
    hide Transcript;
  }

  /** A server of this model sends no HelloVerifyRequest. */
  lemma NoVerifyRequestMoves(k: Crypto, d: Deal, cfg: C.Config, c: C.Client, m: Msg)
    requires Ready(k, d, cfg, c) && c.state.ReadHelloVerifyRequest?
    requires NextFrom(k, d, false, 1, m)
    ensures Moves(k, d, c, Some(m), C.OnMessage(k, cfg, c, m))
  {
    hide Transcript, Said, One, Items, NextFrom;
    Heard(k, d, false, 1, m);
    NoItems(k, d, 1);
  }

  lemma CertificateMoves(k: Crypto, d: Deal, cfg: C.Config, c: C.Client, m: Msg)
    requires Ready(k, d, cfg, c) && C.Reads(c) && (c.state.ReadServerCertificate? || c.state.ReadCertificateStatus?)
    requires NextFrom(k, d, false, Place(d, c.state, WaitOk), m)
    ensures Moves(k, d, c, Some(m), C.OnMessage(k, cfg, c, m))
  {
    hide Transcript, Said, ItemAt, One, Items, NextFrom;
    FullItems(k, d);
    Heard(k, d, false, Place(d, c.state, WaitOk), m);
  }

  /** Behind the ServerKeyExchange comes the CertificateRequest, or else the ServerHelloDone. */
  lemma AfterKeyExchange(k: Crypto, d: Deal, m: Msg)
    requires !d.p.resumed && NextFrom(k, d, false, 5, m)
    ensures m == if d.certRequest then CertificateRequest else ServerHelloDone
  {
    hide Transcript, Items, NextFrom, ItemAt;
    FullItems(k, d);
    NextIsHere(k, d, false, 5, m);
    if !d.certRequest {
      NextIsHere(k, d, false, 6, m);
    }
  }

  lemma ServerKeyExchangeMoves(k: Crypto, d: Deal, cfg: C.Config, c: C.Client, m: Msg)
    requires Ready(k, d, cfg, c) && c.state.ReadServerKeyExchange?
    requires NextFrom(k, d, false, 4, m)
    ensures Moves(k, d, c, Some(m), C.OnMessage(k, cfg, c, m))
  {
    hide Transcript, Said, ItemAt, One, Items, NextFrom;
    FullItems(k, d);
    if d.serverKeyExchange {
      Heard(k, d, false, 4, m);
    } else {
      Skipped(k, d, 4);
      NextIsHere(k, d, false, 4, m);
      AfterKeyExchange(k, d, m);
    }
  }

  lemma RequestMoves(k: Crypto, d: Deal, cfg: C.Config, c: C.Client, m: Msg)
    requires Ready(k, d, cfg, c) && C.Reads(c) && c.state.ReadCertificateRequest?
    requires NextFrom(k, d, false, 5, m)
    ensures Moves(k, d, c, Some(m), C.OnMessage(k, cfg, c, m))
  {
    hide Transcript, Said, ItemAt, One, Items, NextFrom;
    FullItems(k, d);
    if d.certRequest {
      Heard(k, d, false, 5, m);
    } else {
      Skipped(k, d, 5);
      AfterKeyExchange(k, d, m);
    }
  }

  lemma HelloDoneMoves(k: Crypto, d: Deal, cfg: C.Config, c: C.Client, m: Msg)
    requires Ready(k, d, cfg, c) && c.state.ReadServerHelloDone?
    requires NextFrom(k, d, false, 6, m)
    ensures Moves(k, d, c, Some(m), C.OnMessage(k, cfg, c, m))
  {
    hide Transcript, Said, ItemAt, One, Items, NextFrom;
    FullItems(k, d);
    Heard(k, d, false, 6, m);
  }

  lemma TicketMoves(k: Crypto, d: Deal, cfg: C.Config, c: C.Client, m: Msg)
    requires Ready(k, d, cfg, c) && C.Reads(c) && c.state.ReadSessionTicket?
    requires NextFrom(k, d, false, Place(d, c.state, WaitOk), m)
    ensures Moves(k, d, c, Some(m), C.OnMessage(k, cfg, c, m))
  {
    hide Transcript, Said, One, Items, NextFrom;
    Heard(k, d, false, Place(d, c.state, WaitOk), m);
  }

  lemma FinishedMoves(k: Crypto, d: Deal, cfg: C.Config, c: C.Client, m: Msg)
    requires Ready(k, d, cfg, c) && c.state.ReadServerFinished?
    requires NextFrom(k, d, false, Place(d, c.state, WaitOk), m)
    ensures Moves(k, d, c, Some(m), C.OnMessage(k, cfg, c, m))
  {
    hide Transcript, Said, ItemAt, One, Items, NextFrom, Master, Present, Stands, TranscriptOk, Moves;
    var a := Place(d, c.state, WaitOk);
    BeforeFinished(k, d, cfg, c);
    FinishedItem(k, d, false, a, c.core.secret);
    Heard(k, d, false, a, m);
    GetFinishedEffect(k, c.core, m, true);
    assert C.OnMessage(k, cfg, c, m)
        == (C.Client(if c.core.session then C.SendClientFinished else C.FinishClientHandshake,
                     GetFinished(k, c.core, m, true).value), WaitOk);
    ReceivedMoves(k, d, c, C.OnMessage(k, cfg, c, m).0, m, a);
    hide *;
  }

  /** What the server's Finished message will be verified against. */
  lemma BeforeFinished(k: Crypto, d: Deal, cfg: C.Config, c: C.Client)
    requires Ready(k, d, cfg, c) && c.state.ReadServerFinished?
    ensures c.core.session == d.p.resumed && c.core.all == Transcript(k, d, Place(d, c.state, WaitOk))
    ensures c.core.secret == if d.p.resumed then d.oldSecret else Master(k, d, Transcript(k, d, 9))
  {
    hide Transcript, Master, Marks;
  }

  lemma ReceivedMoves(k: Crypto, d: Deal, c: C.Client, c': C.Client, m: Msg, a: nat)
    requires Stands(k, d, c, WaitOk) && c.state.ReadServerFinished? && a == Place(d, c.state, WaitOk)
    requires c'.state == if d.p.resumed then C.SendClientFinished else C.FinishClientHandshake
    requires c'.core == c.core.(hash := c'.core.hash, all := c.core.all + [m],
                                hashed := c.core.hashed + [m], released := c.core.released + [m],
                                marks := c.core.marks + [FinishedVerified(c.core.all)], kinds := c'.core.kinds)
    requires Transcript(k, d, a + 1) == Transcript(k, d, a) + [m]
    requires Items(k, d, false, a, a + 1) == [Hs(m)] && Items(k, d, true, a, a + 1) == []
    ensures Moves(k, d, c, Some(m), (c', WaitOk))
  {
    hide Transcript, Items, Master;
  }

  lemma MessageMoves(k: Crypto, d: Deal, cfg: C.Config, c: C.Client, m: Msg)
    requires Ready(k, d, cfg, c) && C.Reads(c) && NextFrom(k, d, false, Place(d, c.state, WaitOk), m)
    ensures Moves(k, d, c, Some(m), C.OnMessage(k, cfg, c, m))
  {
    hide Moves, Stands, C.OnMessage, NextFrom;
    match c.state {
      case ReadHelloVerifyRequest => NoVerifyRequestMoves(k, d, cfg, c, m);
      case ReadServerHello => HelloMoves(k, d, cfg, c, m);
      case ReadServerCertificate => CertificateMoves(k, d, cfg, c, m);
      case ReadCertificateStatus => CertificateMoves(k, d, cfg, c, m);
      case ReadServerKeyExchange => ServerKeyExchangeMoves(k, d, cfg, c, m);
      case ReadCertificateRequest => RequestMoves(k, d, cfg, c, m);
      case ReadServerHelloDone => HelloDoneMoves(k, d, cfg, c, m);
      case ReadSessionTicket => TicketMoves(k, d, cfg, c, m);
      case ReadServerFinished => FinishedMoves(k, d, cfg, c, m);
    }
  }
}
