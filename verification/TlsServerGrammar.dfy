/** Whatever a client sends, a server takes only what the grammar of the handshake allows at that place. */
module TlsServerGrammar {
  import opened Basics
  import opened TlsHandshake
  import opened TlsGrammar
  import opened TlsServer

  /** What a client says before ChangeCipherSpec. */
  function Opening(c: Core): seq<MsgType> {
    if c.session then [TClientHello]
    else
      [TClientHello] + Opt(c.certRequest, TCertificate) + [TClientKeyExchange] + Opt(c.peerPubkey, TCertificateVerify)
  }

  /** Everything taken so far is determined by the state, and by what was negotiated. */
  function Heard(s: Server): seq<MsgType> {
    var c := s.core;
    match s.state
    case StartAccept => []
    case ReadClientHello => []
    case SelectCertificate => []
    case SelectParameters => []
    case SendServerHello => [TClientHello]
    case SendServerCertificate => [TClientHello]
    case SendServerKeyExchange => [TClientHello]
    case SendServerHelloDone => [TClientHello]
    case ReadClientCertificate => [TClientHello]
    case VerifyClientCertificate => [TClientHello] + Opt(c.certRequest, TCertificate)
    case ReadClientKeyExchange => [TClientHello] + Opt(c.certRequest, TCertificate)
    case ReadClientCertificateVerify => [TClientHello] + Opt(c.certRequest, TCertificate) + [TClientKeyExchange]
    case ReadChangeCipherSpec => Opening(c)
    case ProcessChangeCipherSpec => Opening(c)
    case ReadNextProto => Opening(c)
    case ReadChannelId => Opening(c) + Opt(c.nextProto, TNextProto)
    case ReadClientFinished => Opening(c) + Opt(c.nextProto, TNextProto) + Opt(c.channelId, TChannelId)
    case SendServerFinished => if c.session then [TClientHello] else Complete(c)
    case FinishServerHandshake => Complete(c)
    case Done => Complete(c)
  }

  /** All that a client says. */
  function Complete(c: Core): seq<MsgType> {
    Opening(c) + Opt(c.nextProto, TNextProto) + Opt(c.channelId, TChannelId) + [TFinished]
  }

  /** A client has a key exactly if it showed a certificate, and must have one where the configuration says so. */
  predicate Shown(cfg: Config, s: Server) {
    && (s.core.peerPubkey <==> Certificate(true) in s.core.released)
    && (cfg.requireCertificate && s.core.certRequest && !BeforeCertificate(s.state) ==> s.core.peerPubkey)
  }

  predicate BeforeCertificate(s: State) {
    || BeforeParameters(s) || s.SendServerHello? || s.SendServerCertificate? || s.SendServerKeyExchange?
    || s.SendServerHelloDone? || s.ReadClientCertificate?
  }

  predicate Told(cfg: Config, s: Server) {
    Types(s.core.released) == Heard(s) && Shown(cfg, s)
  }

  lemma EarlyEmpty(s: Server)
    requires Inv(s) && BeforeParameters(s.state)
    ensures s.core.released == [] && !s.core.peerPubkey && !s.core.certRequest && !s.core.session
  {
  }

  lemma HelloTold(k: Crypto, cfg: Config, s: Server, m: Msg, v: Verdict)
    requires Inv(s) && Told(cfg, s) && Reads(s) && BeforeParameters(s.state)
    ensures OnMessage(k, cfg, s, m, v).1 != WaitError ==> Told(cfg, OnMessage(k, cfg, s, m, v).0)
  {
    EarlyEmpty(s);
    hide Inv;
    if s.state.SelectParameters? && !v.Pend? {
      assert OnMessage(k, cfg, s, m, v) == SelectParametersStep(cfg, s, m);
      hide OnMessage;
      if m.ClientHello? {
        TypesOne([], m);
        assert [] + [m] == [m];
        assert SelectParametersStep(cfg, s, m).0.core.released == [m];
      }
    }
  }

  /** What `Heard` depends on. */
  lemma SameParts(c: Core, c': Core)
    requires c'.session == c.session && c'.certRequest == c.certRequest && c'.peerPubkey == c.peerPubkey
    requires c'.nextProto == c.nextProto && c'.channelId == c.channelId
    ensures Opening(c') == Opening(c) && Complete(c') == Complete(c)
  {
  }

  lemma CertificateTold(cfg: Config, s: Server, m: Msg)
    requires Inv(s) && Told(cfg, s) && Reads(s) && s.state.ReadClientCertificate?
    ensures ReadClientCertificateStep(cfg, s, m).1 != WaitError ==> Told(cfg, ReadClientCertificateStep(cfg, s, m).0)
  {
    var (s', wait) := ReadClientCertificateStep(cfg, s, m);
    if wait != WaitError {
      HashedTook(s.core, m);
      TypesOne(s.core.released, m);
      assert !s.core.peerPubkey && s.core.certRequest && Certificate(true) !in s.core.released;
      hide HashAndRelease, Inv, Types, Heard;
      CertificateShown(cfg, s, s', m);
      CertificateHeard(s, s');
    }
  }

  lemma CertificateHeard(s: Server, s': Server)
    requires s.state.ReadClientCertificate? && s'.state.VerifyClientCertificate? && s'.core.certRequest
    ensures Heard(s') == Heard(s) + [TCertificate]
  {
  }

  lemma CertificateShown(cfg: Config, s: Server, s': Server, m: Msg)
    requires s'.core.released == s.core.released + [m] && m.Certificate? && Certificate(true) !in s.core.released
    requires s'.core.peerPubkey == m.nonempty && (cfg.requireCertificate ==> m.nonempty)
    ensures Shown(cfg, s')
  {
  }

  lemma KeyExchangeTold(k: Crypto, cfg: Config, s: Server, m: Msg, v: Verdict)
    requires Inv(s) && Told(cfg, s) && s.state.ReadClientKeyExchange?
    ensures ReadClientKeyExchangeStep(k, s, m, v).1 != WaitError ==> Told(cfg, ReadClientKeyExchangeStep(k, s, m, v).0)
  {
    TypesOne(s.core.released, m);
  }

  lemma VerifyTold(k: Crypto, cfg: Config, s: Server, m: Msg)
    requires Inv(s) && Told(cfg, s) && Reads(s) && s.state.ReadClientCertificateVerify?
    ensures ReadCertificateVerifyStep(k, s, m).1 != WaitError ==> Told(cfg, ReadCertificateVerifyStep(k, s, m).0)
  {
    TypesOne(s.core.released, m);
  }

  /** After the key exchange, a message that is no certificate tells nothing new about keys. */
  lemma LateShown(cfg: Config, s: Server, s': Server, m: Msg)
    requires Shown(cfg, s) && Took(s.core, s'.core, m) && !m.Certificate?
    requires !BeforeCertificate(s.state)
    ensures Shown(cfg, s')
  {
  }

  /** One part more of the grammar. */
  lemma LateHeard(s: Server, s': Server, m: Msg)
    requires Took(s.core, s'.core, m)
    requires (s.state.ReadNextProto? && s.core.nextProto && s'.state.ReadChannelId? && m.NextProto?)
             || (s.state.ReadChannelId? && s.core.channelId && s'.state.ReadClientFinished? && m.ChannelId?)
             || (s.state.ReadClientFinished? && m.Finished?
                 && s'.state == if s.core.session then FinishServerHandshake else SendServerFinished)
    ensures Heard(s') == Heard(s) + [TypeOf(m)]
  {
    SameParts(s.core, s'.core);
    hide Opening;
  }

  /** What a step that takes `m` comes to. */
  lemma LateTold(cfg: Config, s: Server, s': Server, m: Msg)
    requires Told(cfg, s) && Took(s.core, s'.core, m) && !m.Certificate? && !BeforeCertificate(s.state)
    requires Heard(s') == Heard(s) + [TypeOf(m)]
    ensures Told(cfg, s')
  {
    TypesOne(s.core.released, m);
    LateShown(cfg, s, s', m);
    hide Shown, Heard, Types;
  }

  lemma ExtraTold(k: Crypto, cfg: Config, s: Server, m: Msg, v: Verdict)
    requires Told(cfg, s) && Reads(s) && (s.state.ReadNextProto? || s.state.ReadChannelId?)
    ensures OnMessage(k, cfg, s, m, v).1 != WaitError ==> Told(cfg, OnMessage(k, cfg, s, m, v).0)
  {
    hide Told, Heard, HashAndRelease;
    var (s', wait) := OnMessage(k, cfg, s, m, v);
    if wait != WaitError {
      HashedTook(s.core, m);
      LateHeard(s, s', m);
      LateTold(cfg, s, s', m);
    }
  }

  lemma FinishedTold(k: Crypto, cfg: Config, s: Server, m: Msg, v: Verdict)
    requires Inv(s) && Told(cfg, s) && s.state.ReadClientFinished?
    ensures OnMessage(k, cfg, s, m, v).1 != WaitError ==> Told(cfg, OnMessage(k, cfg, s, m, v).0)
  {
    hide Told, Heard;
    var (s', wait) := OnMessage(k, cfg, s, m, v);
    if wait != WaitError {
      FinishedGoes(k, cfg, s, m, v);
      VerifiedTook(k, s.core, m, false);
      LateHeard(s, s', m);
      LateTold(cfg, s, s', m);
    }
  }

  lemma FinishedGoes(k: Crypto, cfg: Config, s: Server, m: Msg, v: Verdict)
    requires Inv(s) && s.state.ReadClientFinished?
    ensures var (s', wait) := OnMessage(k, cfg, s, m, v);
            wait != WaitError ==>
              m.Finished? && s'.state == if s.core.session then FinishServerHandshake else SendServerFinished
  {
  }

  lemma MessageTold(k: Crypto, cfg: Config, s: Server, m: Msg, v: Verdict)
    requires Inv(s) && Told(cfg, s) && Reads(s)
    ensures OnMessage(k, cfg, s, m, v).1 != WaitError ==> Told(cfg, OnMessage(k, cfg, s, m, v).0)
  {
    hide Inv, Told;
    if BeforeParameters(s.state) {
      HelloTold(k, cfg, s, m, v);
    } else if s.state.ReadClientCertificate? {
      CertificateTold(cfg, s, m);
    } else if s.state.ReadClientKeyExchange? {
      KeyExchangeTold(k, cfg, s, m, v);
    } else if s.state.ReadClientCertificateVerify? {
      VerifyTold(k, cfg, s, m);
    } else if s.state.ReadClientFinished? {
      FinishedTold(k, cfg, s, m, v);
    } else {
      ExtraTold(k, cfg, s, m, v);
    }
  }

  lemma HelloSent(cfg: Config, s: Server)
    ensures var c' := SendServerHelloStep(cfg, s).0.core;
            Unheard(s.core.(channelId := c'.channelId, statusExpected := c'.statusExpected), c')
  {
  }

  lemma CertificateSent(s: Server)
    ensures Unheard(s.core, SendServerCertificateStep(s).0.core)
  {
    hide AddMessage;
    NothingHeard(s.core);
    AddedUnheard(s.core, Certificate(true));
    AddedUnheard(AddMessage(s.core, Certificate(true)), CertificateStatus);
  }

  lemma KeyExchangeSent(cfg: Config, s: Server, v: Verdict)
    ensures Unheard(s.core, SendServerKeyExchangeStep(cfg, s, v).0.core)
  {
    hide AddMessage, Unheard;
    NothingHeard(s.core);
    AddedUnheard(s.core, ServerKeyExchange(cfg.random));
  }

  lemma HelloDoneSent(s: Server)
    ensures Unheard(s.core, SendServerHelloDoneStep(s).0.core)
  {
    hide AddMessage;
    AddedUnheard(s.core, CertificateRequest);
    AddedUnheard(s.core, ServerHelloDone);
    AddedUnheard(AddMessage(s.core, CertificateRequest), ServerHelloDone);
  }

  lemma FinishedSent(k: Crypto, s: Server)
    requires CanFinish(s.core) && TranscriptOk(s.core)
    ensures Unheard(s.core, SendServerFinishedStep(k, s).0.core)
  {
    var ticket := AddMessage(s.core, NewSessionTicket(false));
    TicketAdded(s.core);
    AddedUnheard(s.core, NewSessionTicket(false));
    ChangedUnheard(s.core);
    ChangedUnheard(ticket);
    SentUnheard(k, ChangeWriteCipher(s.core), true);
    SentUnheard(k, ChangeWriteCipher(ticket), true);
    hide AddMessage, SendFinished, ChangeWriteCipher;
  }

  lemma OwnUnheard(k: Crypto, cfg: Config, s: Server, v: Verdict)
    requires Inv(s) && !Reads(s)
    ensures var c' := OnOwn(k, cfg, s, v).0.core;
            Unheard(if s.state.SendServerHello?
                    then s.core.(channelId := c'.channelId, statusExpected := c'.statusExpected) else s.core, c')
  {
    hide SendServerHelloStep, SendServerCertificateStep, SendServerKeyExchangeStep, SendServerHelloDoneStep,
      SendServerFinishedStep, Unheard;
    if s.state.SendServerHello? {
      HelloSent(cfg, s);
    } else if s.state.SendServerFinished? {
      FinishedSent(k, s);
    } else if s.state.SendServerCertificate? {
      CertificateSent(s);
    } else if s.state.SendServerKeyExchange? {
      KeyExchangeSent(cfg, s, v);
    } else if s.state.SendServerHelloDone? {
      HelloDoneSent(s);
    } else {
      RestUnheard(k, cfg, s, v);
    }
  }

  lemma RestUnheard(k: Crypto, cfg: Config, s: Server, v: Verdict)
    requires !Reads(s) && !s.state.SendServerHello? && !s.state.SendServerFinished? && !s.state.SendServerCertificate?
    requires !s.state.SendServerKeyExchange? && !s.state.SendServerHelloDone?
    ensures Unheard(s.core, OnOwn(k, cfg, s, v).0.core)
  {
    hide Unheard, FreeBuffer, ChangeReadCipher;
    NothingHeard(s.core);
  }

  /** Where a state function that reads nothing may lead. */
  predicate Passes(s: Server, s': Server) {
    || s'.state == s.state
    || (s.state.StartAccept? && s'.state.ReadClientHello?)
    || (s.state.SendServerHello?
        && s'.state == if s.core.session then SendServerFinished else SendServerCertificate)
    || (s.state.SendServerCertificate? && s'.state.SendServerKeyExchange?)
    || (s.state.SendServerKeyExchange? && s'.state.SendServerHelloDone?)
    || (s.state.SendServerHelloDone? && s'.state.ReadClientCertificate?)
    || (s.state.ReadClientCertificate? && !s.core.certRequest && s'.state.VerifyClientCertificate?)
    || (s.state.VerifyClientCertificate? && s'.state.ReadClientKeyExchange?)
    || (s.state.ReadClientCertificateVerify? && !s.core.peerPubkey && s'.state.ReadChangeCipherSpec?)
    || (s.state.ReadChangeCipherSpec? && s'.state.ProcessChangeCipherSpec?)
    || (s.state.ProcessChangeCipherSpec? && s'.state.ReadNextProto?)
    || (s.state.ReadNextProto? && !s.core.nextProto && s'.state.ReadChannelId?)
    || (s.state.ReadChannelId? && !s.core.channelId && s'.state.ReadClientFinished?)
    || (s.state.SendServerFinished?
        && s'.state == if s.core.session then ReadChangeCipherSpec else FinishServerHandshake)
    || (s.state.FinishServerHandshake? && s'.state.Done?)
  }

  lemma OwnPasses(k: Crypto, cfg: Config, s: Server, v: Verdict)
    requires Inv(s) && !Reads(s)
    ensures Passes(s, OnOwn(k, cfg, s, v).0)
  {
    hide AddMessage, SendFinished, ChangeWriteCipher, ChangeReadCipher, TranscriptOk, Trace;
  }

  /** After the key exchange only the last parts of the grammar are still open. */
  predicate Late(s: State) {
    || s.ReadChangeCipherSpec? || s.ProcessChangeCipherSpec? || s.ReadNextProto? || s.ReadChannelId?
    || s.FinishServerHandshake? || s.Done?
  }

  lemma EarlyHeard(s: Server, s': Server)
    requires Passes(s, s') && (s.core.session ==> !FullOnly(s.state)) && !Late(s.state) && s' != s
    requires s'.core.session == s.core.session && s'.core.certRequest == s.core.certRequest
    requires s'.core.peerPubkey == s.core.peerPubkey
    requires !s.state.SendServerHello? ==>
               s'.core.channelId == s.core.channelId && s'.core.nextProto == s.core.nextProto
    ensures Heard(s') == Heard(s)
  {
    if !s.state.SendServerHello? {
      SameParts(s.core, s'.core);
      hide Complete;
    }
  }

  lemma LatePasses(s: Server, s': Server)
    requires Passes(s, s') && Late(s.state)
    requires s'.core.session == s.core.session && s'.core.certRequest == s.core.certRequest
    requires s'.core.peerPubkey == s.core.peerPubkey
    requires s'.core.channelId == s.core.channelId && s'.core.nextProto == s.core.nextProto
    ensures Heard(s') == Heard(s)
  {
    SameParts(s.core, s'.core);
    NothingMore(Opening(s.core));
    NothingMore(Opening(s.core) + Opt(s.core.nextProto, TNextProto));
    hide Opening, Complete;
  }

  lemma NothingMore(ts: seq<MsgType>)
    ensures ts + [] == ts
  {
  }

  /** A place where nothing is read adds nothing to what is heard. */
  lemma PassHeard(s: Server, s': Server)
    requires Passes(s, s') && (s.core.session ==> !FullOnly(s.state))
    requires Unheard(if s.state.SendServerHello?
                     then s.core.(channelId := s'.core.channelId, statusExpected := s'.core.statusExpected) else s.core,
                     s'.core)
    ensures Heard(s') == Heard(s)
  {
    hide Heard, Passes;
    if Late(s.state) {
      LatePasses(s, s');
    } else if s' != s {
      EarlyHeard(s, s');
    }
  }

  lemma PassShown(cfg: Config, s: Server, s': Server)
    requires Shown(cfg, s) && Passes(s, s')
    requires s'.core.released == s.core.released && s'.core.certRequest == s.core.certRequest
    requires s'.core.peerPubkey == s.core.peerPubkey && (s.core.session ==> !s.core.certRequest)
    ensures Shown(cfg, s')
  {
  }

  lemma OwnTold(k: Crypto, cfg: Config, s: Server, v: Verdict)
    requires Inv(s) && Told(cfg, s) && !Reads(s)
    ensures Told(cfg, OnOwn(k, cfg, s, v).0)
  {
    var s' := OnOwn(k, cfg, s, v).0;
    OwnUnheard(k, cfg, s, v);
    OwnPasses(k, cfg, s, v);
    hide OnOwn, Heard, Shown, Passes;
    PassHeard(s, s');
    PassShown(cfg, s, s');
  }

  lemma StepTold(k: Crypto, cfg: Config, s: Server, front: Option<Msg>, v: Verdict)
    requires Inv(s) && Told(cfg, s)
    ensures Step(k, cfg, s, front, v).1 != WaitError ==> Told(cfg, Step(k, cfg, s, front, v).0)
  {
    hide Told, Inv, OnOwn, OnMessage;
    if !v.Reject? {
      if !Reads(s) {
        OwnTold(k, cfg, s, v);
      } else if front.Some? {
        MessageTold(k, cfg, s, front.value, v);
      }
    }
  }

  lemma BeginTold(cfg: Config)
    ensures Told(cfg, Begin())
  {
  }

  lemma {:induction false} RunTold(k: Crypto, cfg: Config, inbox: seq<Msg>, turns: seq<Turn>)
    ensures Run(k, cfg, inbox, turns).1 != WaitError ==> Told(cfg, Run(k, cfg, inbox, turns).0)
    decreases |turns|
  {
    hide Step, Told, Inv, Begin;
    BeginTold(cfg);
    if turns != [] {
      var (s, wait) := Run(k, cfg, inbox, turns[..|turns| - 1]);
      RunTold(k, cfg, inbox, turns[..|turns| - 1]);
      if wait != WaitError {
        var turn := turns[|turns| - 1];
        StepTold(k, cfg, s, Front(inbox, s.core, turn.available), turn.verdict);
      }
    }
  }

  lemma {:induction false} DrivenTold(k: Crypto, cfg: Config, s: Server, inbox: seq<Msg>, verdicts: State -> Verdict)
    requires Inv(s) && Told(cfg, s)
    ensures Driven(k, cfg, s, inbox, verdicts).1 != WaitError ==> Told(cfg, Driven(k, cfg, s, inbox, verdicts).0)
    decreases Rank(s)
  {
    hide Inv, Step, Rank, Told;
    if !s.state.Done? {
      var front := Front(inbox, s.core, true);
      StepKeepsInv(k, cfg, s, front, verdicts(s.state));
      StepTold(k, cfg, s, front, verdicts(s.state));
      var (s', wait) := Step(k, cfg, s, front, verdicts(s.state));
      if wait == WaitOk {
        DrivenTold(k, cfg, s', inbox, verdicts);
      }
    }
  }

  lemma ResolvedTold(cfg: Config, s: Server, wait: Wait)
    requires Told(cfg, s)
    ensures Told(cfg, Resolved(s, wait))
  {
  }

  lemma {:induction false} RanTold(
      k: Crypto, cfg: Config, s: Server, wait: Wait, inbox: seq<Msg>, verdicts: State -> Verdict, io: seq<bool>)
    requires wait != WaitError && Inv(s) && Told(cfg, s)
    ensures var r := Ran(k, cfg, s, wait, inbox, verdicts, io); r.wait != WaitError ==> Told(cfg, r.s)
    decreases |io|, if wait == WaitOk then 1 else 0
  {
    hide Inv, Driven, Told;
    if wait != WaitPending && (wait == WaitOk || (io != [] && io[0])) {
      var from, left := if wait == WaitOk then s else Resolved(s, wait), if wait == WaitOk then io else io[1..];
      ResolvedInv(s, wait);
      ResolvedTold(cfg, s, wait);
      DrivenTold(k, cfg, from, inbox, verdicts);
      var (s', wait') := Driven(k, cfg, from, inbox, verdicts);
      if wait' != WaitError && wait' != WaitOk {
        RanTold(k, cfg, s', wait', inbox, verdicts, left);
      }
    }
  }

  /** Whatever comes in, and however often the handshake is called. */
  lemma {:induction false} CalledTold(k: Crypto, cfg: Config, inbox: seq<Msg>, calls: seq<Call>)
    ensures var r := Called(k, cfg, inbox, calls); r.wait != WaitError ==> Told(cfg, r.s)
    decreases |calls|
  {
    hide Inv, Ran, Told, Begin;
    BeginTold(cfg);
    if calls != [] {
      CalledTold(k, cfg, inbox, calls[..|calls| - 1]);
      var before := Called(k, cfg, inbox, calls[..|calls| - 1]);
      var (call, n) := (calls[|calls| - 1], Min(calls[|calls| - 1].arrived, |inbox|));
      if before.wait == WaitError {
        FailedStays(k, cfg, before.s, inbox[..n], call.verdicts, call.io);
      } else {
        RanTold(k, cfg, before.s, before.wait, inbox[..n], call.verdicts, call.io);
      }
    }
  }

  /**
   A call returns 1 only if the client sent the messages of the grammar, in its order and nothing else: with a
   Certificate exactly if one was asked for, and a CertificateVerify exactly if that was not empty.
   */
  lemma CompletedGrammar(k: Crypto, cfg: Config, inbox: seq<Msg>, calls: seq<Call>) returns (shown: bool)
    requires Called(k, cfg, inbox, calls).ret > 0
    ensures var c := Called(k, cfg, inbox, calls).s.core;
            && c.released <= inbox && (shown <==> Certificate(true) in c.released)
            && (cfg.requireCertificate && c.certRequest ==> shown) && (c.session ==> !shown)
            && Types(c.released) ==
                 [TClientHello]
                 + (if c.session then []
                    else Opt(c.certRequest, TCertificate) + [TClientKeyExchange] + Opt(shown, TCertificateVerify))
                 + Opt(c.nextProto, TNextProto) + Opt(c.channelId, TChannelId) + [TFinished]
  {
    hide Called;
    CompletedCalls(k, cfg, inbox, calls);
    CalledTold(k, cfg, inbox, calls);
    CalledTakes(k, cfg, inbox, calls);
    var s := Called(k, cfg, inbox, calls).s;
    shown := s.core.peerPubkey;
  }
}
