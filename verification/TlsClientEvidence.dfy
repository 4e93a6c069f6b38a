/** No client run, however it is retried, claims what no message shows: above all, no unverified Finished passes. */
module TlsClientEvidence {
  import opened Basics
  import opened TlsHandshake
  import opened TlsEvidence
  import opened TlsClient

  /** On any message but the right Finished, the handshake fails; the right one is accepted. */
  lemma FinishedDecides(k: Crypto, cfg: Config, c: Client, m: Msg, v: Verdict)
    requires Inv(cfg, c) && c.state.ReadServerFinished? && !v.Reject?
    ensures Step(k, cfg, c, Some(m), v).1 == WaitError <==> m != Finished((k.mac)(c.core.secret, c.core.all, true))
    ensures Step(k, cfg, c, Some(m), v).1 == WaitError ==> Step(k, cfg, c, Some(m), v).0 == c
  {
  }

  lemma EarlyUnmarked(cfg: Config, c: Client)
    requires Inv(cfg, c) && Labelled(c.core) && (BeforeServerHello(c.state) || c.state.SendClientKeyExchange?)
    ensures c.core.marks == []
  {
  }

  lemma MessageGenuine(k: Crypto, cfg: Config, c: Client, m: Msg)
    requires Inv(cfg, c) && Reads(c) && Genuine(k, false, c.core)
    ensures Genuine(k, false, OnMessage(k, cfg, c, m).0.core)
  {
    hide Backed, Trace, Labelled, EachHashedOnce;
    if c.state.ReadServerFinished? {
      if m.Finished? {
        VerifiedGenuine(k, false, c.core, m);
      }
    } else {
      if BeforeServerHello(c.state) {
        EarlyUnmarked(cfg, c);
        HelloIsQuiet(k, cfg, c, m);
      } else {
        MessageIsQuiet(k, cfg, c, m);
        ContinuesGrown(c.core, OnMessage(k, cfg, c, m).0.core, m);
      }
      hide Genuine, OnMessage, Inv, Grown;
      QuietGenuine(k, false, c.core, OnMessage(k, cfg, c, m).0.core);
    }
  }

  lemma HelloIsQuiet(k: Crypto, cfg: Config, c: Client, m: Msg)
    requires Reads(c) && BeforeServerHello(c.state)
    ensures var c' := OnMessage(k, cfg, c, m).0; c'.core.marks == c.core.marks && c'.core.kinds == c.core.kinds
  {
    if c.state.ReadServerHello? {
      assert OnMessage(k, cfg, c, m) == ReadServerHelloStep(c, m);
    }
  }

  lemma MessageIsQuiet(k: Crypto, cfg: Config, c: Client, m: Msg)
    requires Reads(c) && !c.state.ReadServerFinished? && !BeforeServerHello(c.state)
    ensures Continues(c.core, OnMessage(k, cfg, c, m).0.core, m)
  {
    var r := OnMessage(k, cfg, c, m);
    if c.state.ReadServerKeyExchange? {
      assert r == ReadServerKeyExchangeStep(c, m);
    } else if c.state.ReadCertificateRequest? {
      assert r == ReadCertificateRequestStep(c, m);
    }
  }

  lemma KeyExchangeGenuine(k: Crypto, cfg: Config, c: Client, v: Verdict)
    requires Inv(cfg, c) && c.state.SendClientKeyExchange? && Genuine(k, false, c.core)
    ensures Genuine(k, false, OnOwn(k, cfg, c, v).0.core)
  {
    EarlyUnmarked(cfg, c);
    DerivedGenuine(k, false, AddMessage(c.core, ClientKeyExchange(cfg.premaster)), cfg.premaster);
  }

  lemma VerifyGenuine(k: Crypto, cfg: Config, c: Client, v: Verdict)
    requires Inv(cfg, c) && c.state.SendClientCertificateVerify? && Genuine(k, false, c.core)
    ensures Genuine(k, false, SendCertificateVerifyStep(k, cfg, c, v).0.core)
  {
    var c' := SendCertificateVerifyStep(k, cfg, c, v).0;
    if c'.core.marks == c.core.marks {
      QuietGenuine(k, false, c.core, c'.core);
    } else {
      NoteLabelled(c.core, VerifySigned(c.core.all));
      GenuineGrows(k, false, c.core, c'.core, [VerifySigned(c.core.all)]);
    }
  }

  lemma FlightGenuine(k: Crypto, cfg: Config, c: Client, v: Verdict)
    requires Inv(cfg, c) && c.state.SendClientFinished? && Genuine(k, false, c.core)
    ensures Genuine(k, false, SendFinishedStep(k, c, v).0.core)
  {
    if !(c.core.channelId && v.Pend?) {
      var core := ChangeWriteCipher(c.core);
      WriteChangeGenuine(k, false, c.core);
      ExtrasKeep(core);
      QuietGenuine(k, false, core, WithExtras(core));
      SentGenuine(k, false, WithExtras(core));
    }
  }

  lemma OwnIsQuiet(k: Crypto, cfg: Config, c: Client, v: Verdict)
    requires !Reads(c) && !c.state.SendClientKeyExchange? && !c.state.SendClientCertificateVerify?
    requires !c.state.SendClientFinished? && !c.state.ProcessChangeCipherSpec?
    ensures var c' := OnOwn(k, cfg, c, v).0;
            Grown(c.core, c'.core) && c'.core.marks == c.core.marks && c'.core.kinds == c.core.kinds
  {
  }

  lemma OwnGenuine(k: Crypto, cfg: Config, c: Client, v: Verdict)
    requires Inv(cfg, c) && !Reads(c) && Genuine(k, false, c.core)
    ensures Genuine(k, false, OnOwn(k, cfg, c, v).0.core)
  {
    hide Genuine, Backed, Labelled;
    if c.state.SendClientKeyExchange? {
      KeyExchangeGenuine(k, cfg, c, v);
    } else if c.state.SendClientCertificateVerify? {
      VerifyGenuine(k, cfg, c, v);
    } else if c.state.SendClientFinished? {
      FlightGenuine(k, cfg, c, v);
    } else if c.state.ProcessChangeCipherSpec? {
      ReadChangeGenuine(k, false, c.core);
    } else {
      OwnIsQuiet(k, cfg, c, v);
      hide OnOwn, Inv, Grown;
      QuietGenuine(k, false, c.core, OnOwn(k, cfg, c, v).0.core);
    }
  }

  lemma StepGenuine(k: Crypto, cfg: Config, c: Client, front: Option<Msg>, v: Verdict)
    requires Inv(cfg, c) && Genuine(k, false, c.core)
    ensures Genuine(k, false, Step(k, cfg, c, front, v).0.core)
  {
    hide Genuine, OnOwn, OnMessage;
    if !v.Reject? {
      if !Reads(c) {
        OwnGenuine(k, cfg, c, v);
      } else if front.Some? {
        MessageGenuine(k, cfg, c, front.value);
      }
    }
  }

  lemma {:induction false} RunGenuine(
      k: Crypto, cfg: Config, session: bool, secret: nat, inbox: seq<Msg>, turns: seq<Turn>)
    ensures Genuine(k, false, Run(k, cfg, session, secret, inbox, turns).0.core)
    decreases |turns|
  {
    hide Step;
    if turns != [] {
      var (c, wait) := Run(k, cfg, session, secret, inbox, turns[..|turns| - 1]);
      RunGenuine(k, cfg, session, secret, inbox, turns[..|turns| - 1]);
      hide Genuine;
      if wait != WaitError {
        var turn := turns[|turns| - 1];
        StepGenuine(k, cfg, c, Front(inbox, c.core, turn.available), turn.verdict);
      }
    }
  }

  lemma {:induction false} DrivenGenuine(k: Crypto, cfg: Config, c: Client, inbox: seq<Msg>, verdicts: State -> Verdict)
    requires Inv(cfg, c) && Genuine(k, false, c.core)
    ensures Genuine(k, false, Driven(k, cfg, c, inbox, verdicts).0.core)
    decreases Rank(c)
  {
    hide Inv, Step, Rank, Genuine;
    if !c.state.Done? {
      var front := Front(inbox, c.core, true);
      StepKeepsInv(k, cfg, c, front, verdicts(c.state));
      StepGenuine(k, cfg, c, front, verdicts(c.state));
      var (c', wait) := Step(k, cfg, c, front, verdicts(c.state));
      if wait == WaitOk {
        DrivenGenuine(k, cfg, c', inbox, verdicts);
      }
    }
  }

  lemma ResolvedGenuine(k: Crypto, c: Client, wait: Wait)
    requires Genuine(k, false, c.core)
    ensures Genuine(k, false, Resolved(c, wait).core)
  {
    QuietGenuine(k, false, c.core, Resolved(c, wait).core);
  }

  lemma {:induction false} RanGenuine(
      k: Crypto, cfg: Config, c: Client, wait: Wait, inbox: seq<Msg>, verdicts: State -> Verdict, io: seq<bool>)
    requires (wait != WaitError ==> Inv(cfg, c)) && Genuine(k, false, c.core)
    ensures Genuine(k, false, Ran(k, cfg, c, wait, inbox, verdicts, io).c.core)
    decreases |io|, if wait == WaitOk then 1 else 0
  {
    hide Inv, Driven, Genuine;
    if wait != WaitError && wait != WaitPending && (wait == WaitOk || (io != [] && io[0])) {
      var from, left := if wait == WaitOk then c else Resolved(c, wait), if wait == WaitOk then io else io[1..];
      ResolvedInv(cfg, c, wait);
      ResolvedGenuine(k, c, wait);
      DrivenGenuine(k, cfg, from, inbox, verdicts);
      var (c', wait') := Driven(k, cfg, from, inbox, verdicts);
      if wait' != WaitError && wait' != WaitOk {
        RanGenuine(k, cfg, c', wait', inbox, verdicts, left);
      }
    }
  }

  /** Whatever comes in, and however often the handshake is called: every mark is backed by messages. */
  lemma {:induction false} CalledGenuine(
      k: Crypto, cfg: Config, session: bool, secret: nat, inbox: seq<Msg>, calls: seq<Call>)
    ensures Genuine(k, false, Called(k, cfg, session, secret, inbox, calls).c.core)
    decreases |calls|
  {
    hide Inv, Ran;
    if calls != [] {
      CalledGenuine(k, cfg, session, secret, inbox, calls[..|calls| - 1]);
      hide Genuine;
      var before := Called(k, cfg, session, secret, inbox, calls[..|calls| - 1]);
      var call := calls[|calls| - 1];
      RanGenuine(k, cfg, before.c, before.wait, inbox[..Min(call.arrived, |inbox|)], call.verdicts, call.io);
    }
  }

  /** A call returns 1 only if the peer sent the Finished that the secret demands over everything said before it. */
  lemma CompletedIsAuthentic(
      k: Crypto, cfg: Config, session: bool, secret: nat, inbox: seq<Msg>, calls: seq<Call>) returns (t: seq<Msg>)
    requires Called(k, cfg, session, secret, inbox, calls).ret > 0
    ensures var c := Called(k, cfg, session, secret, inbox, calls).c.core;
            var m := Finished((k.mac)(c.secret, t, true));
            FinishedVerified(t) in c.marks && t + [m] <= c.all && m in c.released && c.released <= inbox
  {
    hide Called, Genuine, EachHashedOnce;
    CompletedCalls(k, cfg, session, secret, inbox, calls);
    CalledGenuine(k, cfg, session, secret, inbox, calls);
    t := VerifiedIsReceived(k, false, Called(k, cfg, session, secret, inbox, calls).c.core);
  }

  /** What the model does not interpret is not passed over: a run in which it was rejected once has failed. */
  lemma {:induction false} RejectionFails(
      k: Crypto, cfg: Config, session: bool, secret: nat, inbox: seq<Msg>, turns: seq<Turn>, i: nat)
    requires i < |turns| && turns[i].verdict.Reject?
    ensures Run(k, cfg, session, secret, inbox, turns).1 == WaitError
    decreases |turns|
  {
    hide Inv, OnOwn, OnMessage;
    if i < |turns| - 1 {
      RejectionFails(k, cfg, session, secret, inbox, turns[..|turns| - 1], i);
    }
  }

  /** The places where a callback or a private key operation may have to be waited for. */
  predicate MayPend(cfg: Config, c: Client) {
    || (c.state.VerifyServerCertificate? && UsesCertificateAuth(c.core.cipher))
    || (c.state.SendClientCertificate? && c.core.certRequest)
    || (c.state.SendClientCertificateVerify? && c.core.certRequest && cfg.hasCertificate)
    || (c.state.SendClientFinished? && c.core.channelId)
  }

  lemma PendsExactly(k: Crypto, cfg: Config, c: Client, front: Option<Msg>, v: Verdict)
    requires Inv(cfg, c)
    ensures Step(k, cfg, c, front, v).1 == WaitPending <==> v.Pend? && MayPend(cfg, c)
  {
    hide Trace, EachHashedOnce, WithExtras, SendFinished, AddMessage;
  }
}
