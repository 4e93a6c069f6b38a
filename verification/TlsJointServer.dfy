/** A turn of the server keeps the joint invariant: it never meets a message it does not expect. */
module TlsJointServer {
  import opened Basics
  import opened TlsHandshake
  import opened TlsScript
  import C = TlsClient
  import S = TlsServer
  import HC = TlsHonestClient
  import HS = TlsHonestServer
  import opened TlsJoint

  lemma ServerReady(k: Crypto, d: Deal, ccfg: C.Config, scfg: S.Config, s: S.Server)
    requires SetUp(d, ccfg, scfg) && ServerOk(k, d, scfg, s, WaitOk)
    ensures HS.Ready(k, d, scfg, s)
  {
    hide HS.Stands, S.Trace;
  }

  /** A step of the server, seen from outside. */
  lemma ServerStepMoves(
      k: Crypto, d: Deal, ccfg: C.Config, scfg: S.Config, s: S.Server, q: seq<Item>, more: seq<Item>, other: nat,
      v: Verdict)
    requires SetUp(d, ccfg, scfg) && ServerOk(k, d, scfg, s, WaitOk) && !v.Reject?
    requires q + more == Items(k, d, true, HS.Place(d, s.state, WaitOk), other)
    ensures var r := S.Step(k, scfg, s, Front(q), v);
            HS.Moves(k, d, scfg, s, Front(q), r) && S.Good(s, r) && S.Inv(r.0)
  {
    hide HS.Moves, S.OnOwn, S.OnMessage, HS.Stands, HS.Ready, S.Inv;
    ServerReady(k, d, ccfg, scfg, s);
    S.StepKeepsInv(k, scfg, s, Front(q), v);
    if !S.Reads(s) {
      HS.OwnMoves(k, d, scfg, s, v);
      OwnMovesWith(k, d, scfg, s, Front(q), S.Step(k, scfg, s, Front(q), v));
    } else if Front(q).Some? {
      FrontIsNext(k, d, true, HS.Place(d, s.state, WaitOk), other, q, more);
      HS.MessageMoves(k, d, scfg, s, q[0].msg, v);
    } else {
      WaitingMoves(k, d, scfg, s);
    }
    MovesNotError(k, d, scfg, s, Front(q), S.Step(k, scfg, s, Front(q), v));
  }

  lemma MovesNotError(k: Crypto, d: Deal, scfg: S.Config, s: S.Server, m: Option<Msg>, r: (S.Server, Wait))
    requires HS.Moves(k, d, scfg, s, m, r)
    ensures r.1 != WaitError
  {
  }

  /** A move that takes nothing does so whatever is waiting. */
  lemma OwnMovesWith(k: Crypto, d: Deal, scfg: S.Config, s: S.Server, m: Option<Msg>, r: (S.Server, Wait))
    requires HS.Moves(k, d, scfg, s, None, r)
    ensures HS.Moves(k, d, scfg, s, m, r)
  {
    hide HS.Stands, Items;
  }

  lemma WaitingMoves(k: Crypto, d: Deal, scfg: S.Config, s: S.Server)
    requires ServerOk(k, d, scfg, s, WaitOk) && S.Reads(s)
    ensures HS.Moves(k, d, scfg, s, None, (s, WaitMessage))
  {
    hide S.Inv, HS.Marks, Transcript;
  }

  lemma StepKeepsServerOk(k: Crypto, d: Deal, scfg: S.Config, s: S.Server, front: Option<Msg>, v: Verdict)
    requires ServerOk(k, d, scfg, s, WaitOk)
    requires HS.Moves(k, d, scfg, s, front, S.Step(k, scfg, s, front, v)) && S.Inv(S.Step(k, scfg, s, front, v).0)
    ensures ServerOk(k, d, scfg, S.Step(k, scfg, s, front, v).0, S.Step(k, scfg, s, front, v).1)
  {
    hide HS.Stands, Items, S.Trace;
    StepFlushes(k, scfg, s, front, v);
  }

  lemma StepFlushes(k: Crypto, scfg: S.Config, s: S.Server, front: Option<Msg>, v: Verdict)
    requires S.Inv(s) && ServerFlushed(s, WaitOk)
    ensures Leaves(s, S.Step(k, scfg, s, front, v))
  {
    hide ServerFlushed, Leaves, S.Reads;
    if v.Reject? {
      FlushesTrivially(s, (s, WaitError));
    } else if !S.Reads(s) {
      OwnFlushes(k, scfg, s, v);
    } else if front.None? {
      FlushesTrivially(s, (s, WaitMessage));
    } else {
      MessageFlushes(k, scfg, s, front.value, v);
    }
  }

  predicate Leaves(s: S.Server, r: (S.Server, Wait)) {
    && (r.1 == WaitError || ServerFlushed(r.0, r.1))
    && (r.1 == WaitCcs ==> r.0.state.ProcessChangeCipherSpec?)
    && (r.1 == WaitMessage ==> S.Reads(r.0))
  }

  lemma FlushesTrivially(s: S.Server, r: (S.Server, Wait))
    requires ServerFlushed(s, WaitOk) && r.0 == s
    requires r.1 == WaitError || (r.1 == WaitMessage && S.Reads(s))
    ensures Leaves(s, r)
  {
  }

  lemma OwnFlushes(k: Crypto, scfg: S.Config, s: S.Server, v: Verdict)
    requires S.Inv(s) && ServerFlushed(s, WaitOk) && !S.Reads(s)
    ensures Leaves(s, S.OnOwn(k, scfg, s, v))
  {
    hide S.Trace, TranscriptOk;
  }

  lemma MessageFlushes(k: Crypto, scfg: S.Config, s: S.Server, m: Msg, v: Verdict)
    requires S.Inv(s) && ServerFlushed(s, WaitOk) && S.Reads(s)
    ensures Leaves(s, S.OnMessage(k, scfg, s, m, v))
  {
    ReadsSayNothing(k, scfg, s, m, v);
    hide S.OnMessage, S.Trace, TranscriptOk;
  }

  /** Neither said anything nor waits for anything. */
  predicate Silent(s: S.Server, r: (S.Server, Wait)) {
    r.0.core.flight == s.core.flight && r.1 != WaitCcs && r.1 != WaitMessage
  }

  lemma HelloIsSilent(scfg: S.Config, s: S.Server, m: Msg)
    ensures Silent(s, S.SelectParametersStep(scfg, s, m)) && Silent(s, S.ReadClientCertificateStep(scfg, s, m))
  {
  }

  lemma KeyExchangeIsSilent(k: Crypto, s: S.Server, m: Msg, v: Verdict)
    requires s.core.hash.Some?
    ensures Silent(s, S.ReadClientKeyExchangeStep(k, s, m, v))
  {
    if m.ClientKeyExchange? {
      assert DeriveSecret(k, HashMessage(s.core, m), m.premaster).flight == HashMessage(s.core, m).flight;
      hide DeriveSecret;
    }
  }

  lemma VerifyIsSilent(k: Crypto, s: S.Server, m: Msg)
    requires s.core.buffer.Some?
    ensures Silent(s, S.ReadCertificateVerifyStep(k, s, m))
  {
  }

  lemma FinishedIsSilent(k: Crypto, c: Core, m: Msg)
    requires CanFinish(c) && m.Finished?
    ensures var r := GetFinished(k, c, m, false); r.Some? ==> r.value.flight == c.flight
  {
  }

  lemma ReadsSayNothing(k: Crypto, scfg: S.Config, s: S.Server, m: Msg, v: Verdict)
    requires S.Inv(s) && S.Reads(s)
    ensures Silent(s, S.OnMessage(k, scfg, s, m, v))
  {
    hide S.SelectParametersStep, S.ReadClientCertificateStep, S.ReadClientKeyExchangeStep,
         S.ReadCertificateVerifyStep, GetFinished, S.Trace, TranscriptOk;
    match s.state {
      case ReadClientKeyExchange => KeyExchangeIsSilent(k, s, m, v);
      case ReadClientCertificateVerify => VerifyIsSilent(k, s, m);
      case ReadClientFinished => if m.Finished? { FinishedIsSilent(k, s.core, m); }
      case _ => HelloIsSilent(scfg, s, m);
    }
  }

  /** The place of the item a waiting server is waiting for. */
  function ServerExpects(d: Deal, s: S.State): nat {
    match s
    case ReadClientCertificate => 7
    case ReadClientKeyExchange => 8
    case ReadClientCertificateVerify => 9
    case ProcessChangeCipherSpec => if d.p.resumed then 5 else 10
    case ReadNextProto => if d.p.resumed then 6 else 11
    case ReadChannelId => if d.p.resumed then 7 else 12
    case ReadClientFinished => if d.p.resumed then 8 else 13
    case _ => 0
  }

  lemma ServerWaitsFor(k: Crypto, d: Deal, ccfg: C.Config, scfg: S.Config, s: S.Server, wait: Wait)
    requires SetUp(d, ccfg, scfg) && ServerOk(k, d, scfg, s, wait)
    requires wait == WaitCcs || (S.Reads(s) && wait != WaitCcs)
    ensures SpeaksNext(d, true, HS.Place(d, s.state, wait), ServerExpects(d, s.state))
    ensures ItemAt(k, d, ServerExpects(d, s.state)).Ccs? <==> wait == WaitCcs
  {
    hide S.Inv, HS.Marks, Transcript, S.Trace;
  }

  /** A waiting server gets what it is waiting for, or nothing. */
  lemma ServerGets(
      k: Crypto, d: Deal, ccfg: C.Config, scfg: S.Config, s: S.Server, wait: Wait, q: seq<Item>, more: seq<Item>,
      other: nat)
    requires SetUp(d, ccfg, scfg) && ServerOk(k, d, scfg, s, wait)
    requires wait == WaitCcs || (S.Reads(s) && wait != WaitCcs)
    requires q + more == Items(k, d, true, HS.Place(d, s.state, wait), other)
    ensures q != [] ==> (q[0].Ccs? <==> wait == WaitCcs)
    ensures q + more == [] <==> other <= ServerExpects(d, s.state)
  {
    hide ServerOk, ItemAt, Items, S.Reads;
    ServerWaitsFor(k, d, ccfg, scfg, s, wait);
    FirstItem(k, d, true, HS.Place(d, s.state, wait), ServerExpects(d, s.state), other);
    if q != [] {
      assert (q + more)[0] == q[0];
    }
  }

  lemma ServerResolves(k: Crypto, d: Deal, scfg: S.Config, s: S.Server, wait: Wait)
    requires ServerOk(k, d, scfg, s, wait)
    ensures wait == WaitFlush ==> ServerOk(k, d, scfg, s.(core := s.core.(flight := [])), WaitOk)
    ensures wait == WaitPending || wait == WaitMessage ==> ServerOk(k, d, scfg, s, WaitOk)
    ensures wait == WaitFlush || wait == WaitPending || wait == WaitMessage ==>
              HS.Place(d, s.state, WaitOk) == HS.Place(d, s.state, wait)
  {
    hide Transcript, HS.Marks, S.Inv, S.Trace;
    if wait == WaitFlush {
      InvWithoutFlight(s);
    }
  }

  lemma InvWithoutFlight(s: S.Server)
    requires S.Inv(s)
    ensures S.Inv(s.(core := s.core.(flight := [])))
  {
  }

  /** The ChangeCipherSpec has been taken. */
  lemma ServerTakesCcs(k: Crypto, d: Deal, scfg: S.Config, s: S.Server)
    requires ServerOk(k, d, scfg, s, WaitCcs)
    requires var a := HS.Place(d, s.state, WaitCcs);
             Transcript(k, d, a + 1) == Transcript(k, d, a)
    ensures ServerOk(k, d, scfg, s, WaitOk) && HS.Place(d, s.state, WaitOk) == HS.Place(d, s.state, WaitCcs) + 1
  {
    hide S.Trace;
  }

  lemma ServerStepGood(k: Crypto, d: Deal, ccfg: C.Config, scfg: S.Config, j: Joint, v: Verdict)
    requires SetUp(d, ccfg, scfg) && Good(k, d, ccfg, scfg, j) && !v.Reject?
    requires j.swait == WaitOk && !j.server.state.Done?
    ensures Good(k, d, ccfg, scfg, ServerTurn(k, scfg, j, v))
  {
    hide ServerOk, ClientOk, S.Step, S.Inv, Items;
    var a, b := HS.Place(d, j.server.state, WaitOk), HC.Place(d, j.client.state, j.cwait);
    ServerOkInv(k, d, scfg, j.server, WaitOk);
    BetweenOther(k, d, true, b, a, j.toServer + j.client.core.flight, j.toClient + j.server.core.flight);
    BetweenIncoming(k, d, false, a, b, j.toClient + j.server.core.flight, j.toServer + j.client.core.flight);
    ServerStepMoves(k, d, ccfg, scfg, j.server, j.toServer, j.client.core.flight, b, v);
    var front := Front(j.toServer);
    StepKeepsServerOk(k, d, scfg, j.server, front, v);
    var (s', wait) := S.Step(k, scfg, j.server, front, v);
    var a' := HS.Place(d, s'.state, wait);
    MovesShape(k, d, scfg, j.server, j.toServer, (s', wait));
    var q' := Rest(j.toServer, j.server.core, s'.core);
    PartsMove(k, d, false, a, a', b, j.toClient, j.server.core.flight, j.toServer, q', j.client.core.flight);
    var flight' := j.server.core.flight + Items(k, d, false, a, a');
    BetweenOther(k, d, false, a', b, j.toClient + flight', q' + j.client.core.flight);
    hide Between, Rest, HS.Place, HC.Place, Front;
  }

  lemma ServerOkInv(k: Crypto, d: Deal, scfg: S.Config, s: S.Server, wait: Wait)
    requires ServerOk(k, d, scfg, s, wait)
    ensures S.Inv(s) && wait != WaitError
  {
    hide S.Inv;
  }

  /** In terms of the queue: the step takes its part of the script off the front. */
  lemma MovesShape(k: Crypto, d: Deal, scfg: S.Config, s: S.Server, q: seq<Item>, r: (S.Server, Wait))
    requires HS.Moves(k, d, scfg, s, Front(q), r)
    ensures var a, a' := HS.Place(d, s.state, WaitOk), HS.Place(d, r.0.state, r.1);
            && a <= a'
            && q == Items(k, d, true, a, a') + Rest(q, s.core, r.0.core)
            && r.0.core.flight == s.core.flight + Items(k, d, false, a, a')
  {
    var a, a' := HS.Place(d, s.state, WaitOk), HS.Place(d, r.0.state, r.1);
    if r.1 == WaitPending || r.1 == WaitMessage {
      assert Items(k, d, false, a, a) == [] && Items(k, d, true, a, a) == [];
      assert a' == a;
    } else if Items(k, d, true, a, a') != [] {
      assert q == [q[0]] + q[1..];
      assert r.0.core.released != s.core.released;
    }
    hide HS.Stands, Items;
  }

  lemma ServerTurnGood(k: Crypto, d: Deal, ccfg: C.Config, scfg: S.Config, j: Joint, v: Verdict)
    requires SetUp(d, ccfg, scfg) && Good(k, d, ccfg, scfg, j) && !v.Reject?
    requires S.Inv(j.server)
    ensures Good(k, d, ccfg, scfg, ServerTurn(k, scfg, j, v))
  {
    hide ServerOk, ClientOk, S.Inv, S.Step, Items, HS.Place, HC.Place, ItemAt;
    var a, b := HS.Place(d, j.server.state, j.swait), HC.Place(d, j.client.state, j.cwait);
    ServerOkInv(k, d, scfg, j.server, j.swait);
    match j.swait {
      case WaitFlush =>
        ServerResolves(k, d, scfg, j.server, j.swait);
        assert j.toClient + j.server.core.flight + [] == j.toClient + j.server.core.flight;
      case WaitPending => ServerResolves(k, d, scfg, j.server, j.swait);
      case WaitMessage =>
        ServerResolves(k, d, scfg, j.server, j.swait);
        ServerReads(k, d, scfg, j.server);
        ServerGets(k, d, ccfg, scfg, j.server, j.swait, j.toServer, j.client.core.flight, b);
      case WaitCcs =>
        ServerGets(k, d, ccfg, scfg, j.server, j.swait, j.toServer, j.client.core.flight, b);
        if j.toServer != [] {
          ServerCcsGood(k, d, ccfg, scfg, j);
        }
      case WaitOk =>
        if !j.server.state.Done? {
          ServerStepGood(k, d, ccfg, scfg, j, v);
        }
    }
  }

  lemma ServerReads(k: Crypto, d: Deal, scfg: S.Config, s: S.Server)
    requires ServerOk(k, d, scfg, s, WaitMessage)
    ensures S.Reads(s)
  {
    hide S.Inv, HC.Stands;
  }

  lemma ServerCcsGood(k: Crypto, d: Deal, ccfg: C.Config, scfg: S.Config, j: Joint)
    requires SetUp(d, ccfg, scfg) && Good(k, d, ccfg, scfg, j)
    requires j.swait == WaitCcs && j.toServer != [] && j.toServer[0].Ccs?
    ensures Good(k, d, ccfg, scfg, j.(swait := WaitOk, toServer := j.toServer[1..]))
  {
    var a, b := HS.Place(d, j.server.state, WaitCcs), HC.Place(d, j.client.state, j.cwait);
    ServerWaitsInCcs(k, d, scfg, j.server);
    hide ServerOk, ClientOk, S.Inv, Items, HS.Place, HC.Place, ItemAt, Transcript, Between;
    CcsPlace(k, d, true, a);
    ServerTakesCcs(k, d, scfg, j.server);
    CcsLeavesQueue(k, d, a, b, j.toServer, j.client.core.flight, j.toClient, j.server.core.flight);
  }

  lemma CcsLeavesQueue(
      k: Crypto, d: Deal, a: nat, b: nat, q: seq<Item>, more: seq<Item>, sent: seq<Item>, flight: seq<Item>)
    requires q != [] && q[0].Ccs?
    requires Items(k, d, true, a, a + 1) == [Ccs] && Items(k, d, false, a, a + 1) == []
    requires Between(k, d, true, b, a, q + more, sent + flight)
    ensures Between(k, d, true, b, a + 1, q[1..] + more, sent + flight)
  {
    hide Items, Between;
    assert q == [Ccs] + q[1..];
    assert flight + [] == flight;
    BetweenOther(k, d, true, b, a, q + more, sent + flight);
    PartsMove(k, d, false, a, a + 1, b, sent, flight, q, q[1..], more);
    BetweenOther(k, d, false, a + 1, b, sent + flight, q[1..] + more);
  }

  lemma ServerWaitsInCcs(k: Crypto, d: Deal, scfg: S.Config, s: S.Server)
    requires ServerOk(k, d, scfg, s, WaitCcs)
    ensures HS.Place(d, s.state, WaitCcs) == if d.p.resumed then 5 else 10
  {
    hide S.Inv, HC.Stands;
  }
}
