/** The same for the server, which also insists on the signature of a client that showed a certificate. */
module TlsServerEvidence {
  import opened Basics
  import opened TlsHandshake
  import opened TlsEvidence
  import opened TlsServer

  /** On any message but the right Finished, the handshake fails; the right one is accepted. */
  lemma FinishedDecides(k: Crypto, cfg: Config, s: Server, m: Msg, v: Verdict)
    requires Inv(s) && s.state.ReadClientFinished? && !v.Reject?
    ensures Step(k, cfg, s, Some(m), v).1 == WaitError <==> m != Finished((k.mac)(s.core.secret, s.core.all, false))
    ensures Step(k, cfg, s, Some(m), v).1 == WaitError ==> Step(k, cfg, s, Some(m), v).0 == s
  {
  }

  /** So it does on any message but a signature of all that was said, from a client with a certificate. */
  lemma VerifyDecides(k: Crypto, cfg: Config, s: Server, m: Msg, v: Verdict)
    requires Inv(s) && s.state.ReadClientCertificateVerify? && s.core.peerPubkey && !v.Reject?
    ensures Step(k, cfg, s, Some(m), v).1 == WaitError <==> m != CertificateVerify((k.sign)(s.core.all))
    ensures Step(k, cfg, s, Some(m), v).1 == WaitError ==> Step(k, cfg, s, Some(m), v).0 == s
  {
  }

  lemma EarlyUnmarked(s: Server)
    requires Inv(s) && Labelled(s.core)
    requires BeforeParameters(s.state) || s.state.ReadClientKeyExchange?
    ensures s.core.marks == []
  {
  }

  lemma KeyExchangeGenuine(k: Crypto, s: Server, m: Msg, v: Verdict)
    requires Inv(s) && s.state.ReadClientKeyExchange? && Genuine(k, true, s.core)
    ensures Genuine(k, true, ReadClientKeyExchangeStep(k, s, m, v).0.core)
  {
    var (s', wait) := ReadClientKeyExchangeStep(k, s, m, v);
    if wait == WaitOk {
      EarlyUnmarked(s);
      var core := DeriveSecret(k, HashMessage(s.core, m), m.premaster);
      DerivedGenuine(k, true, HashMessage(s.core, m), m.premaster);
      QuietGenuine(k, true, core, NextMessage(core, m));
    }
  }

  lemma VerifyGenuine(k: Crypto, s: Server, m: Msg)
    requires Inv(s) && s.state.ReadClientCertificateVerify? && s.core.peerPubkey && Genuine(k, true, s.core)
    ensures Genuine(k, true, ReadCertificateVerifyStep(k, s, m).0.core)
  {
    var (s', wait) := ReadCertificateVerifyStep(k, s, m);
    if wait == WaitOk {
      NoteLabelled(s.core, VerifyChecked(s.core.all));
      GenuineGrows(k, true, s.core, s'.core, [VerifyChecked(s.core.all)]);
    }
  }

  lemma HelloIsQuiet(k: Crypto, cfg: Config, s: Server, m: Msg, v: Verdict)
    requires Reads(s) && BeforeParameters(s.state)
    ensures var s' := OnMessage(k, cfg, s, m, v).0; s'.core.marks == s.core.marks && s'.core.kinds == s.core.kinds
  {
    if s.state.SelectParameters? && !v.Pend? {
      assert OnMessage(k, cfg, s, m, v) == SelectParametersStep(cfg, s, m);
    }
  }

  lemma CertificateIsQuiet(cfg: Config, s: Server, m: Msg)
    ensures Continues(s.core, ReadClientCertificateStep(cfg, s, m).0.core, m)
  {
  }

  lemma MessageIsQuiet(k: Crypto, cfg: Config, s: Server, m: Msg, v: Verdict)
    requires Reads(s) && (s.state.ReadClientCertificate? || s.state.ReadNextProto? || s.state.ReadChannelId?)
    ensures Continues(s.core, OnMessage(k, cfg, s, m, v).0.core, m)
  {
    CertificateIsQuiet(cfg, s, m);
    hide ReadClientCertificateStep;
  }

  lemma MessageGenuine(k: Crypto, cfg: Config, s: Server, m: Msg, v: Verdict)
    requires Inv(s) && Reads(s) && Genuine(k, true, s.core)
    ensures Genuine(k, true, OnMessage(k, cfg, s, m, v).0.core)
  {
    hide Backed, Trace, Labelled;
    var core := OnMessage(k, cfg, s, m, v).0.core;
    if s.state.ReadClientFinished? {
      if m.Finished? {
        VerifiedGenuine(k, true, s.core, m);
      }
    } else if s.state.ReadClientKeyExchange? {
      KeyExchangeGenuine(k, s, m, v);
    } else if s.state.ReadClientCertificateVerify? {
      VerifyGenuine(k, s, m);
    } else if BeforeParameters(s.state) {
      EarlyUnmarked(s);
      HelloIsQuiet(k, cfg, s, m, v);
      hide Genuine, OnMessage, Inv;
      QuietGenuine(k, true, s.core, core);
    } else {
      MessageIsQuiet(k, cfg, s, m, v);
      ContinuesGrown(s.core, core, m);
      hide Genuine, OnMessage, Inv, Grown;
      QuietGenuine(k, true, s.core, core);
    }
  }

  lemma FlightGenuine(k: Crypto, s: Server)
    requires Inv(s) && s.state.SendServerFinished? && Genuine(k, true, s.core)
    ensures Genuine(k, true, SendServerFinishedStep(k, s).0.core)
  {
    hide Backed, Labelled;
    var core := if s.core.ticketExpected then AddMessage(s.core, NewSessionTicket(false)) else s.core;
    TicketAdded(s.core);
    QuietGenuine(k, true, s.core, core);
    WriteChangeGenuine(k, true, core);
    SentGenuine(k, true, ChangeWriteCipher(core));
  }

  lemma HelloSpeaks(cfg: Config, s: Server)
    ensures Speaks(s.core, SendServerHelloStep(cfg, s).0.core)
  {
  }

  lemma CertificateSpeaks(s: Server)
    ensures Speaks(s.core, SendServerCertificateStep(s).0.core)
  {
    var core := AddMessage(s.core, Certificate(true));
    SpokeOne(s.core, Certificate(true));
    SpokeOne(core, CertificateStatus);
    hide AddMessage;
  }

  lemma KeyExchangeSpeaks(cfg: Config, s: Server, v: Verdict)
    ensures Speaks(s.core, SendServerKeyExchangeStep(cfg, s, v).0.core)
  {
    SpokeOne(s.core, ServerKeyExchange(cfg.random));
    hide AddMessage;
  }

  lemma HelloDoneSpeaks(s: Server)
    ensures Speaks(s.core, SendServerHelloDoneStep(s).0.core)
  {
    var core := if s.core.certRequest then AddMessage(s.core, CertificateRequest) else s.core;
    SpokeOne(s.core, CertificateRequest);
    SpokeOne(core, ServerHelloDone);
    hide AddMessage;
  }

  lemma OwnIsQuiet(k: Crypto, cfg: Config, s: Server, v: Verdict)
    requires !Reads(s) && !s.state.SendServerFinished? && !s.state.ProcessChangeCipherSpec?
    ensures Speaks(s.core, OnOwn(k, cfg, s, v).0.core)
  {
    hide SendServerHelloStep, SendServerCertificateStep, SendServerKeyExchangeStep, SendServerHelloDoneStep;
    HelloSpeaks(cfg, s);
    CertificateSpeaks(s);
    KeyExchangeSpeaks(cfg, s, v);
    HelloDoneSpeaks(s);
  }

  lemma OwnGenuine(k: Crypto, cfg: Config, s: Server, v: Verdict)
    requires Inv(s) && !Reads(s) && Genuine(k, true, s.core)
    ensures Genuine(k, true, OnOwn(k, cfg, s, v).0.core)
  {
    hide Genuine, Backed, Labelled;
    if s.state.SendServerFinished? {
      FlightGenuine(k, s);
    } else if s.state.ProcessChangeCipherSpec? {
      ReadChangeGenuine(k, true, s.core);
    } else {
      OwnIsQuiet(k, cfg, s, v);
      SpeaksGrown(s.core, OnOwn(k, cfg, s, v).0.core);
      hide OnOwn, Inv, Speaks, Grown;
      QuietGenuine(k, true, s.core, OnOwn(k, cfg, s, v).0.core);
    }
  }

  lemma StepGenuine(k: Crypto, cfg: Config, s: Server, front: Option<Msg>, v: Verdict)
    requires Inv(s) && Genuine(k, true, s.core)
    ensures Genuine(k, true, Step(k, cfg, s, front, v).0.core)
  {
    hide Genuine, OnOwn, OnMessage;
    if !v.Reject? {
      if !Reads(s) {
        OwnGenuine(k, cfg, s, v);
      } else if front.Some? {
        MessageGenuine(k, cfg, s, front.value, v);
      }
    }
  }

  lemma {:induction false} RunGenuine(k: Crypto, cfg: Config, inbox: seq<Msg>, turns: seq<Turn>)
    ensures Genuine(k, true, Run(k, cfg, inbox, turns).0.core)
    decreases |turns|
  {
    hide Step;
    if turns != [] {
      var (s, wait) := Run(k, cfg, inbox, turns[..|turns| - 1]);
      RunGenuine(k, cfg, inbox, turns[..|turns| - 1]);
      hide Genuine;
      if wait != WaitError {
        var turn := turns[|turns| - 1];
        StepGenuine(k, cfg, s, Front(inbox, s.core, turn.available), turn.verdict);
      }
    }
  }

  lemma {:induction false} DrivenGenuine(k: Crypto, cfg: Config, s: Server, inbox: seq<Msg>, verdicts: State -> Verdict)
    requires Inv(s) && Genuine(k, true, s.core)
    ensures Genuine(k, true, Driven(k, cfg, s, inbox, verdicts).0.core)
    decreases Rank(s)
  {
    hide Inv, Step, Rank, Genuine;
    if !s.state.Done? {
      var front := Front(inbox, s.core, true);
      StepKeepsInv(k, cfg, s, front, verdicts(s.state));
      StepGenuine(k, cfg, s, front, verdicts(s.state));
      var (s', wait) := Step(k, cfg, s, front, verdicts(s.state));
      if wait == WaitOk {
        DrivenGenuine(k, cfg, s', inbox, verdicts);
      }
    }
  }

  lemma ResolvedGenuine(k: Crypto, s: Server, wait: Wait)
    requires Genuine(k, true, s.core)
    ensures Genuine(k, true, Resolved(s, wait).core)
  {
    QuietGenuine(k, true, s.core, Resolved(s, wait).core);
  }

  lemma {:induction false} RanGenuine(
      k: Crypto, cfg: Config, s: Server, wait: Wait, inbox: seq<Msg>, verdicts: State -> Verdict, io: seq<bool>)
    requires (wait != WaitError ==> Inv(s)) && Genuine(k, true, s.core)
    ensures Genuine(k, true, Ran(k, cfg, s, wait, inbox, verdicts, io).s.core)
    decreases |io|, if wait == WaitOk then 1 else 0
  {
    hide Inv, Driven, Genuine;
    if wait != WaitError && wait != WaitPending && (wait == WaitOk || (io != [] && io[0])) {
      var from, left := if wait == WaitOk then s else Resolved(s, wait), if wait == WaitOk then io else io[1..];
      ResolvedInv(s, wait);
      ResolvedGenuine(k, s, wait);
      DrivenGenuine(k, cfg, from, inbox, verdicts);
      var (s', wait') := Driven(k, cfg, from, inbox, verdicts);
      if wait' != WaitError && wait' != WaitOk {
        RanGenuine(k, cfg, s', wait', inbox, verdicts, left);
      }
    }
  }

  /** Whatever comes in, and however often the handshake is called: every mark is backed by messages. */
  lemma {:induction false} CalledGenuine(k: Crypto, cfg: Config, inbox: seq<Msg>, calls: seq<Call>)
    ensures Genuine(k, true, Called(k, cfg, inbox, calls).s.core)
    decreases |calls|
  {
    hide Inv, Ran;
    if calls != [] {
      CalledGenuine(k, cfg, inbox, calls[..|calls| - 1]);
      hide Genuine;
      var before := Called(k, cfg, inbox, calls[..|calls| - 1]);
      var call := calls[|calls| - 1];
      RanGenuine(k, cfg, before.s, before.wait, inbox[..Min(call.arrived, |inbox|)], call.verdicts, call.io);
    }
  }

  /**
   A call returns 1 only if the client sent the Finished that the secret demands over everything said before it,
   and, if it showed a certificate, a signature of everything said before that.
   */
  lemma CompletedIsAuthentic(
      k: Crypto, cfg: Config, inbox: seq<Msg>, calls: seq<Call>) returns (t: seq<Msg>, u: seq<Msg>)
    requires Called(k, cfg, inbox, calls).ret > 0
    ensures var c := Called(k, cfg, inbox, calls).s.core;
            var (m, n) := (Finished((k.mac)(c.secret, t, false)), CertificateVerify((k.sign)(u)));
            && c.released <= inbox
            && FinishedVerified(t) in c.marks && t + [m] <= c.all && m in c.released
            && (c.peerPubkey && !c.session ==> VerifyChecked(u) in c.marks && u + [n] <= c.all && n in c.released)
  {
    hide Called, Genuine;
    CompletedCalls(k, cfg, inbox, calls);
    CalledGenuine(k, cfg, inbox, calls);
    var c := Called(k, cfg, inbox, calls).s.core;
    t := VerifiedIsReceived(k, true, c);
    u := [];
    if c.peerPubkey && !c.session {
      u := CheckedIsReceived(k, true, c);
    }
  }

  /** What the model does not interpret is not passed over: a run in which it was rejected once has failed. */
  lemma {:induction false} RejectionFails(k: Crypto, cfg: Config, inbox: seq<Msg>, turns: seq<Turn>, i: nat)
    requires i < |turns| && turns[i].verdict.Reject?
    ensures Run(k, cfg, inbox, turns).1 == WaitError
    decreases |turns|
  {
    hide Inv, OnOwn, OnMessage;
    if i < |turns| - 1 {
      RejectionFails(k, cfg, inbox, turns[..|turns| - 1], i);
    }
  }

  /** The places where a callback, the session cache or a private key operation may have to be waited for. */
  predicate MayPend(cfg: Config, s: Server, front: Option<Msg>) {
    || (s.state.ReadClientHello? && front.Some? && front.value.ClientHello?)
    || ((s.state.SelectCertificate? || s.state.SelectParameters?) && front.Some?)
    || (s.state.SendServerKeyExchange? && HasParams(cfg, s.core) && UsesCertificateAuth(s.core.cipher))
    || (s.state.VerifyClientCertificate? && s.core.peerPubkey)
    || (s.state.ReadClientKeyExchange? && s.core.cipher.RSA? && front.Some? && front.value.ClientKeyExchange?)
  }

  lemma PendsExactly(k: Crypto, cfg: Config, s: Server, front: Option<Msg>, v: Verdict)
    requires Inv(s)
    ensures Step(k, cfg, s, front, v).1 == WaitPending <==> v.Pend? && MayPend(cfg, s, front)
  {
    hide Trace, SendFinished, AddMessage, HashMessage;
  }
}
