/**
 Agreement of an honest client and an honest server (sections 7.3, 7.4.8 and 7.4.9 of RFC 5246). Under every
 schedule of turns, pending operations and delayed flushes neither side reports an error, both can always
 finish, and both then have signed, hashed and derived over the same transcripts.
 */
module TlsAgreement {
  import opened Basics
  import opened TlsHandshake
  import opened TlsScript
  import C = TlsClient
  import S = TlsServer
  import HC = TlsHonestClient
  import HS = TlsHonestServer
  import opened TlsJoint
  import JC = TlsJointClient
  import JS = TlsJointServer

  /** A turn: whose it is, and whether an asynchronous operation is still pending. */
  datatype Turn = Turn(client: bool, pending: bool)

  function VerdictOf(t: Turn): Verdict {
    if t.pending then Pend else Proceed
  }

  /** The client offers a session if the server is going to resume it. */
  function Start(session: bool, secret: nat): Joint {
    Joint(C.Begin(session, secret), WaitOk, S.Begin(), WaitOk, [], [])
  }

  lemma StartGood(k: Crypto, d: Deal, ccfg: C.Config, scfg: S.Config, session: bool, secret: nat)
    requires SetUp(d, ccfg, scfg) && (d.p.resumed ==> session && secret == d.oldSecret)
    ensures Good(k, d, ccfg, scfg, Start(session, secret))
  {
    assert Items(k, d, true, 0, 0) == [] && Items(k, d, false, 0, 0) == [];
    hide Items;
  }

  lemma GoodInv(k: Crypto, d: Deal, ccfg: C.Config, scfg: S.Config, j: Joint)
    requires Good(k, d, ccfg, scfg, j)
    ensures C.Inv(ccfg, j.client) && S.Inv(j.server) && j.cwait != WaitError && j.swait != WaitError
  {
    hide C.Inv, S.Inv, HC.Stands, HS.Stands, QueuesOk;
  }

  /** The connection after any number of turns. */
  function Play(
      k: Crypto, d: Deal, ccfg: C.Config, scfg: S.Config, j: Joint, turns: seq<Turn>): (r: Joint)
    requires SetUp(d, ccfg, scfg) && Good(k, d, ccfg, scfg, j)
    ensures Good(k, d, ccfg, scfg, r)
    decreases |turns|
  {
    if turns == [] then j
    else
      var before := Play(k, d, ccfg, scfg, j, turns[..|turns| - 1]);
      var t := turns[|turns| - 1];
      Taken(k, d, ccfg, scfg, before, t)
  }

  function Taken(k: Crypto, d: Deal, ccfg: C.Config, scfg: S.Config, j: Joint, t: Turn): (r: Joint)
    requires SetUp(d, ccfg, scfg) && Good(k, d, ccfg, scfg, j)
    ensures Good(k, d, ccfg, scfg, r)
  {
    GoodInv(k, d, ccfg, scfg, j);
    if t.client then
      JC.ClientTurnGood(k, d, ccfg, scfg, j, VerdictOf(t));
      ClientTurn(k, ccfg, j, VerdictOf(t))
    else
      JS.ServerTurnGood(k, d, ccfg, scfg, j, VerdictOf(t));
      ServerTurn(k, scfg, j, VerdictOf(t))
  }

  predicate BothDone(j: Joint) {
    j.client.state.Done? && j.server.state.Done?
  }

  // ---------- agreement ----------

  /** What one side did, the other did over the same transcript. */
  ghost predicate Agree(client: seq<Mark>, server: seq<Mark>) {
    forall t: seq<Msg> ::
      && (FinishedSent(t) in client <==> FinishedVerified(t) in server)
      && (FinishedSent(t) in server <==> FinishedVerified(t) in client)
      && (SecretDerived(t) in client <==> SecretDerived(t) in server)
      && (VerifySigned(t) in client <==> VerifyChecked(t) in server)
  }

  lemma MarksAgree(k: Crypto, d: Deal)
    ensures Agree(HC.Marks(k, d, C.Done), HS.Marks(k, d, S.Done))
  {
    hide Transcript;
  }

  /** A connection from its start. */
  function Played(
      k: Crypto, d: Deal, ccfg: C.Config, scfg: S.Config, session: bool, secret: nat, turns: seq<Turn>): (r: Joint)
    requires SetUp(d, ccfg, scfg) && (d.p.resumed ==> session && secret == d.oldSecret)
    ensures Good(k, d, ccfg, scfg, r)
  {
    StartGood(k, d, ccfg, scfg, session, secret);
    Play(k, d, ccfg, scfg, Start(session, secret), turns)
  }

  /**
   Whatever the schedule, no side ever reports an error; and when both are done, they hold the same hashed
   messages and agree on the transcript of each Finished, of CertificateVerify and of the master secret.
   */
  lemma TranscriptAgreement(
      k: Crypto, d: Deal, ccfg: C.Config, scfg: S.Config, session: bool, secret: nat, turns: seq<Turn>)
    requires SetUp(d, ccfg, scfg) && (d.p.resumed ==> session && secret == d.oldSecret)
    ensures var j := Played(k, d, ccfg, scfg, session, secret, turns);
            && j.cwait != WaitError && j.swait != WaitError
            && (BothDone(j) ==>
                  && j.client.core.all == j.server.core.all == Transcript(k, d, End(d))
                  && j.client.core.secret == j.server.core.secret
                  && j.client.core.marks == HC.Marks(k, d, C.Done) && j.server.core.marks == HS.Marks(k, d, S.Done)
                  && Agree(j.client.core.marks, j.server.core.marks))
  {
    hide C.Inv, S.Inv, Transcript, HC.Marks, HS.Marks, QueuesOk, Agree, ClientTurn, ServerTurn, Played;
    MarksAgree(k, d);
  }

  // ---------- both can always finish ----------

  /** Distance to the end of the connection, in turns. */
  function Measure(j: Joint): nat {
    2 * (C.Rank(j.client) + S.Rank(j.server))
    + (if j.cwait == WaitOk then 0 else 1) + (if j.swait == WaitOk then 0 else 1)
  }

  /** The client has something to do now. */
  predicate ClientEnabled(j: Joint) {
    match j.cwait
    case WaitError => false
    case WaitFlush => true
    case WaitPending => true
    case WaitMessage => j.toClient != []
    case WaitCcs => j.toClient != []
    case WaitOk => !j.client.state.Done? && (C.Reads(j.client) ==> j.toClient != [])
  }

  predicate ServerEnabled(j: Joint) {
    match j.swait
    case WaitError => false
    case WaitFlush => true
    case WaitPending => true
    case WaitMessage => j.toServer != []
    case WaitCcs => j.toServer != []
    case WaitOk => !j.server.state.Done? && (S.Reads(j.server) ==> j.toServer != [])
  }

  lemma ClientNeverPends(k: Crypto, cfg: C.Config, c: C.Client, front: Option<Msg>)
    requires C.Inv(cfg, c) && (C.Reads(c) ==> front.Some?)
    ensures C.Step(k, cfg, c, front, Proceed).1 != WaitPending && C.Step(k, cfg, c, front, Proceed).1 != WaitMessage
  {
    hide C.Trace, C.EachHashedOnce, TranscriptOk, C.WithExtras;
  }

  lemma ServerNeverPends(k: Crypto, cfg: S.Config, s: S.Server, front: Option<Msg>)
    requires S.Inv(s) && (S.Reads(s) ==> front.Some?)
    ensures S.Step(k, cfg, s, front, Proceed).1 != WaitPending && S.Step(k, cfg, s, front, Proceed).1 != WaitMessage
  {
    hide S.Trace, TranscriptOk;
  }

  lemma ClientProgress(k: Crypto, d: Deal, ccfg: C.Config, scfg: S.Config, j: Joint)
    requires SetUp(d, ccfg, scfg) && Good(k, d, ccfg, scfg, j) && C.Inv(ccfg, j.client)
    requires ClientEnabled(j)
    ensures Measure(ClientTurn(k, ccfg, j, Proceed)) < Measure(j)
  {
    hide C.Inv, C.Step, C.Reads, Items, ClientOk, ServerOk, HC.Place, HS.Place, Between;
    JC.ClientTurnGood(k, d, ccfg, scfg, j, Proceed);
    GoodInv(k, d, ccfg, scfg, ClientTurn(k, ccfg, j, Proceed));
    if j.cwait == WaitOk {
      if C.Reads(j.client) {
        BetweenIncoming(k, d, true, HC.Place(d, j.client.state, j.cwait), HS.Place(d, j.server.state, j.swait),
                        j.toServer + j.client.core.flight, j.toClient + j.server.core.flight);
        JC.ClientGets(k, d, ccfg, scfg, j.client, j.cwait, j.toClient, j.server.core.flight,
                      HS.Place(d, j.server.state, j.swait));
      }
      C.StepKeepsInv(k, ccfg, j.client, Front(j.toClient), Proceed);
      ClientNeverPends(k, ccfg, j.client, Front(j.toClient));
    }
  }

  lemma ServerProgress(k: Crypto, d: Deal, ccfg: C.Config, scfg: S.Config, j: Joint)
    requires SetUp(d, ccfg, scfg) && Good(k, d, ccfg, scfg, j) && S.Inv(j.server)
    requires ServerEnabled(j)
    ensures Measure(ServerTurn(k, scfg, j, Proceed)) < Measure(j)
  {
    hide S.Inv, S.Step, S.Reads, Items, ClientOk, ServerOk, HC.Place, HS.Place, Between;
    JS.ServerTurnGood(k, d, ccfg, scfg, j, Proceed);
    GoodInv(k, d, ccfg, scfg, ServerTurn(k, scfg, j, Proceed));
    if j.swait == WaitOk {
      if S.Reads(j.server) {
        BetweenIncoming(k, d, true, HC.Place(d, j.client.state, j.cwait), HS.Place(d, j.server.state, j.swait),
                        j.toServer + j.client.core.flight, j.toClient + j.server.core.flight);
        JS.ServerGets(k, d, ccfg, scfg, j.server, j.swait, j.toServer, j.client.core.flight,
                      HC.Place(d, j.client.state, j.cwait));
      }
      S.StepKeepsInv(k, scfg, j.server, Front(j.toServer), Proceed);
      ServerNeverPends(k, scfg, j.server, Front(j.toServer));
    }
  }

  // ---------- no deadlock ----------

  /** An item that is due and has not been taken lies between the two places. */
  lemma {:induction false} Due(k: Crypto, d: Deal, client: bool, a: nat, e: nat, hi: nat)
    requires a <= e < hi && Present(d, e) && FromClient(d, e) == client
    ensures Items(k, d, client, a, hi) != []
    decreases hi
  {
    hide ItemAt;
    if e < hi - 1 {
      Due(k, d, client, a, e, hi - 1);
    }
  }

  /** A side that is not done and cannot move waits for the other, and has sent everything. */
  lemma StuckClient(k: Crypto, d: Deal, ccfg: C.Config, scfg: S.Config, j: Joint)
    requires SetUp(d, ccfg, scfg) && Good(k, d, ccfg, scfg, j) && !ClientEnabled(j)
    ensures j.client.core.flight == []
    ensures j.client.state.Done? || (j.toClient == [] &&
              SpeaksNext(d, false, HC.Place(d, j.client.state, j.cwait), JC.ClientExpects(d, j.client.state)))
    ensures j.client.state.Done? ==> HC.Place(d, j.client.state, j.cwait) == End(d)
  {
    StuckClientFlushed(k, d, ccfg, j.client, j.cwait);
    hide C.Inv, HC.Stands, HS.Stands, S.Inv, QueuesOk, ItemAt;
    if !j.client.state.Done? {
      JC.ClientWaitsFor(k, d, ccfg, scfg, j.client, j.cwait);
    }
  }

  lemma StuckClientFlushed(k: Crypto, d: Deal, ccfg: C.Config, c: C.Client, wait: Wait)
    requires ClientOk(k, d, ccfg, c, wait) && wait != WaitFlush && wait != WaitPending
    requires wait == WaitOk ==> c.state.Done? || C.Reads(c)
    ensures c.core.flight == []
  {
    hide C.Inv, HC.Stands;
  }

  lemma StuckServer(k: Crypto, d: Deal, ccfg: C.Config, scfg: S.Config, j: Joint)
    requires SetUp(d, ccfg, scfg) && Good(k, d, ccfg, scfg, j) && !ServerEnabled(j)
    ensures j.server.core.flight == []
    ensures j.server.state.Done? || (j.toServer == [] &&
              SpeaksNext(d, true, HS.Place(d, j.server.state, j.swait), JS.ServerExpects(d, j.server.state)))
    ensures j.server.state.Done? ==> HS.Place(d, j.server.state, j.swait) == End(d)
  {
    StuckServerFlushed(k, d, scfg, j.server, j.swait);
    hide C.Inv, HC.Stands, HS.Stands, S.Inv, QueuesOk, ItemAt;
    if !j.server.state.Done? {
      JS.ServerWaitsFor(k, d, ccfg, scfg, j.server, j.swait);
    }
  }

  lemma StuckServerFlushed(k: Crypto, d: Deal, scfg: S.Config, s: S.Server, wait: Wait)
    requires ServerOk(k, d, scfg, s, wait) && wait != WaitFlush && wait != WaitPending
    requires wait == WaitOk ==> s.state.Done? || S.Reads(s)
    ensures s.core.flight == []
  {
    hide S.Inv, HS.Stands;
  }

  /** As long as one side is not done, one side can move. */
  lemma NoDeadlock(k: Crypto, d: Deal, ccfg: C.Config, scfg: S.Config, j: Joint)
    requires SetUp(d, ccfg, scfg) && Good(k, d, ccfg, scfg, j) && !BothDone(j)
    ensures ClientEnabled(j) || ServerEnabled(j)
  {
    hide C.Inv, S.Inv, ClientOk, ServerOk, Items, HC.Place, HS.Place, JC.ClientExpects, JS.ServerExpects;
    if !ClientEnabled(j) && !ServerEnabled(j) {
      StuckClient(k, d, ccfg, scfg, j);
      StuckServer(k, d, ccfg, scfg, j);
      var a, b := HC.Place(d, j.client.state, j.cwait), HS.Place(d, j.server.state, j.swait);
      BetweenIncoming(k, d, true, a, b, j.toServer + j.client.core.flight, j.toClient + j.server.core.flight);
      var e, g := JC.ClientExpects(d, j.client.state), JS.ServerExpects(d, j.server.state);
      if !j.client.state.Done? && e < b {
        Due(k, d, false, a, e, b);
      }
      if !j.server.state.Done? && g < a {
        Due(k, d, true, b, g, a);
      }
    }
  }

  lemma {:induction false} PlayOn(
      k: Crypto, d: Deal, ccfg: C.Config, scfg: S.Config, j: Joint, a: seq<Turn>, b: seq<Turn>)
    requires SetUp(d, ccfg, scfg) && Good(k, d, ccfg, scfg, j)
    ensures Play(k, d, ccfg, scfg, j, a + b) == Play(k, d, ccfg, scfg, Play(k, d, ccfg, scfg, j, a), b)
    decreases |b|
  {
    hide Good, SetUp, Taken;
    if b == [] {
      assert a + b == a;
    } else {
      var init := b[..|b| - 1];
      PlayOn(k, d, ccfg, scfg, j, a, init);
      assert (a + b)[..|a + b| - 1] == a + init;
    }
  }

  /** From every state that can be reached, some schedule finishes the handshake on both sides. */
  lemma {:induction false} CanFinish(k: Crypto, d: Deal, ccfg: C.Config, scfg: S.Config, j: Joint)
    returns (turns: seq<Turn>)
    requires SetUp(d, ccfg, scfg) && Good(k, d, ccfg, scfg, j)
    ensures BothDone(Play(k, d, ccfg, scfg, j, turns))
    decreases Measure(j)
  {
    if BothDone(j) {
      turns := [];
    } else {
      var t := Helpful(k, d, ccfg, scfg, j);
      hide Good, SetUp, Taken, Measure, BothDone;
      var rest := CanFinish(k, d, ccfg, scfg, Taken(k, d, ccfg, scfg, j, t));
      turns := [t] + rest;
      PlayOn(k, d, ccfg, scfg, j, [t], rest);
      PlayOne(k, d, ccfg, scfg, j, t);
    }
  }

  lemma PlayOne(k: Crypto, d: Deal, ccfg: C.Config, scfg: S.Config, j: Joint, t: Turn)
    requires SetUp(d, ccfg, scfg) && Good(k, d, ccfg, scfg, j)
    ensures Play(k, d, ccfg, scfg, j, [t]) == Taken(k, d, ccfg, scfg, j, t)
  {
    hide Good, SetUp, Taken;
    assert [t][..0] == [];
  }

  lemma Helpful(k: Crypto, d: Deal, ccfg: C.Config, scfg: S.Config, j: Joint) returns (t: Turn)
    requires SetUp(d, ccfg, scfg) && Good(k, d, ccfg, scfg, j) && !BothDone(j)
    ensures Measure(Taken(k, d, ccfg, scfg, j, t)) < Measure(j)
  {
    hide Good, SetUp, ClientTurn, ServerTurn, ClientEnabled, ServerEnabled, Measure, BothDone;
    NoDeadlock(k, d, ccfg, scfg, j);
    GoodInv(k, d, ccfg, scfg, j);
    if ClientEnabled(j) {
      ClientProgress(k, d, ccfg, scfg, j);
      t := Turn(true, false);
    } else {
      ServerProgress(k, d, ccfg, scfg, j);
      t := Turn(false, false);
    }
  }
}
