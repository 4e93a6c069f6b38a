/** A turn of the client keeps the joint invariant: it never meets a message it does not expect. */
module TlsJointClient {
  import opened Basics
  import opened TlsHandshake
  import opened TlsScript
  import C = TlsClient
  import S = TlsServer
  import HC = TlsHonestClient
  import HS = TlsHonestServer
  import opened TlsJoint

  lemma ClientReady(k: Crypto, d: Deal, ccfg: C.Config, scfg: S.Config, c: C.Client)
    requires SetUp(d, ccfg, scfg) && ClientOk(k, d, ccfg, c, WaitOk)
    ensures HC.Ready(k, d, ccfg, c)
  {
    hide HC.Stands, C.Trace, C.EachHashedOnce;
  }

  /** A step of the client, seen from outside. */
  lemma ClientStepMoves(
      k: Crypto, d: Deal, ccfg: C.Config, scfg: S.Config, c: C.Client, q: seq<Item>, more: seq<Item>, other: nat,
      v: Verdict)
    requires SetUp(d, ccfg, scfg) && ClientOk(k, d, ccfg, c, WaitOk) && !v.Reject?
    requires q + more == Items(k, d, false, HC.Place(d, c.state, WaitOk), other)
    ensures var r := C.Step(k, ccfg, c, Front(q), v);
            HC.Moves(k, d, c, Front(q), r) && C.Good(ccfg, c, r) && C.Inv(ccfg, r.0)
  {
    hide HC.Moves, C.OnOwn, C.OnMessage, HC.Stands, HC.Ready, C.Inv;
    ClientReady(k, d, ccfg, scfg, c);
    C.StepKeepsInv(k, ccfg, c, Front(q), v);
    if !C.Reads(c) {
      HC.OwnMoves(k, d, ccfg, c, v);
      OwnMovesWith(k, d, c, Front(q), C.Step(k, ccfg, c, Front(q), v));
    } else if Front(q).Some? {
      FrontIsNext(k, d, false, HC.Place(d, c.state, WaitOk), other, q, more);
      HC.MessageMoves(k, d, ccfg, c, q[0].msg);
    } else {
      WaitingMoves(k, d, ccfg, c);
    }
    MovesNotError(k, d, c, Front(q), C.Step(k, ccfg, c, Front(q), v));
  }

  lemma MovesNotError(k: Crypto, d: Deal, c: C.Client, m: Option<Msg>, r: (C.Client, Wait))
    requires HC.Moves(k, d, c, m, r)
    ensures r.1 != WaitError
  {
  }

  /** A move that takes nothing does so whatever is waiting. */
  lemma OwnMovesWith(k: Crypto, d: Deal, c: C.Client, m: Option<Msg>, r: (C.Client, Wait))
    requires HC.Moves(k, d, c, None, r)
    ensures HC.Moves(k, d, c, m, r)
  {
    hide HC.Stands, Items;
  }

  lemma WaitingMoves(k: Crypto, d: Deal, ccfg: C.Config, c: C.Client)
    requires ClientOk(k, d, ccfg, c, WaitOk) && C.Reads(c)
    ensures HC.Moves(k, d, c, None, (c, WaitMessage))
  {
    hide C.Inv, HC.Marks, Transcript;
  }

  lemma StepKeepsClientOk(k: Crypto, d: Deal, ccfg: C.Config, c: C.Client, front: Option<Msg>, v: Verdict)
    requires ClientOk(k, d, ccfg, c, WaitOk)
    requires HC.Moves(k, d, c, front, C.Step(k, ccfg, c, front, v)) && C.Inv(ccfg, C.Step(k, ccfg, c, front, v).0)
    ensures ClientOk(k, d, ccfg, C.Step(k, ccfg, c, front, v).0, C.Step(k, ccfg, c, front, v).1)
  {
    hide HC.Stands, Items, C.Trace, C.EachHashedOnce;
    StepFlushes(k, ccfg, c, front, v);
  }

  lemma StepFlushes(k: Crypto, ccfg: C.Config, c: C.Client, front: Option<Msg>, v: Verdict)
    requires C.Inv(ccfg, c) && ClientFlushed(c, WaitOk)
    ensures Leaves(c, C.Step(k, ccfg, c, front, v))
  {
    hide ClientFlushed, Leaves, C.Reads;
    if v.Reject? {
      FlushesTrivially(c, (c, WaitError));
    } else if !C.Reads(c) {
      OwnFlushes(k, ccfg, c, v);
    } else if front.None? {
      FlushesTrivially(c, (c, WaitMessage));
    } else {
      MessageFlushes(k, ccfg, c, front.value);
    }
  }

  predicate Leaves(c: C.Client, r: (C.Client, Wait)) {
    && (r.1 == WaitError || ClientFlushed(r.0, r.1))
    && (r.1 == WaitCcs ==> r.0.state.ProcessChangeCipherSpec?)
    && (r.1 == WaitMessage ==> C.Reads(r.0))
  }

  lemma FlushesTrivially(c: C.Client, r: (C.Client, Wait))
    requires ClientFlushed(c, WaitOk) && r.0 == c
    requires r.1 == WaitError || (r.1 == WaitMessage && C.Reads(c))
    ensures Leaves(c, r)
  {
  }

  lemma OwnFlushes(k: Crypto, ccfg: C.Config, c: C.Client, v: Verdict)
    requires C.Inv(ccfg, c) && ClientFlushed(c, WaitOk) && !C.Reads(c)
    ensures Leaves(c, C.OnOwn(k, ccfg, c, v))
  {
    hide C.Trace, C.EachHashedOnce, C.WithExtras, TranscriptOk;
  }

  lemma MessageFlushes(k: Crypto, ccfg: C.Config, c: C.Client, m: Msg)
    requires C.Inv(ccfg, c) && ClientFlushed(c, WaitOk) && C.Reads(c)
    ensures Leaves(c, C.OnMessage(k, ccfg, c, m))
  {
    hide C.Trace, C.EachHashedOnce, TranscriptOk;
  }

  /** The place of the item a waiting client is waiting for. */
  function ClientExpects(d: Deal, s: C.State): nat {
    match s
    case ReadServerCertificate => 2
    case ReadCertificateStatus => 3
    case ReadServerKeyExchange => if d.serverKeyExchange then 4 else if d.certRequest then 5 else 6
    case ReadCertificateRequest => if d.certRequest then 5 else 6
    case ReadServerHelloDone => 6
    case ReadSessionTicket => if d.p.resumed then 2 else 14
    case ProcessChangeCipherSpec => if d.p.resumed then 3 else 15
    case ReadServerFinished => if d.p.resumed then 4 else 16
    case _ => 1
  }

  lemma ClientWaitsFor(k: Crypto, d: Deal, ccfg: C.Config, scfg: S.Config, c: C.Client, wait: Wait)
    requires SetUp(d, ccfg, scfg) && ClientOk(k, d, ccfg, c, wait)
    requires wait == WaitCcs || (C.Reads(c) && wait != WaitCcs)
    ensures SpeaksNext(d, false, HC.Place(d, c.state, wait), ClientExpects(d, c.state))
    ensures ItemAt(k, d, ClientExpects(d, c.state)).Ccs? <==> wait == WaitCcs
  {
    hide C.Inv, HC.Marks, Transcript, C.Trace;
  }

  /** A waiting client gets what it is waiting for, or nothing. */
  lemma ClientGets(
      k: Crypto, d: Deal, ccfg: C.Config, scfg: S.Config, c: C.Client, wait: Wait, q: seq<Item>, more: seq<Item>,
      other: nat)
    requires SetUp(d, ccfg, scfg) && ClientOk(k, d, ccfg, c, wait)
    requires wait == WaitCcs || (C.Reads(c) && wait != WaitCcs)
    requires q + more == Items(k, d, false, HC.Place(d, c.state, wait), other)
    ensures q != [] ==> (q[0].Ccs? <==> wait == WaitCcs)
    ensures q + more == [] <==> other <= ClientExpects(d, c.state)
  {
    hide ClientOk, ItemAt, Items, C.Reads;
    ClientWaitsFor(k, d, ccfg, scfg, c, wait);
    FirstItem(k, d, false, HC.Place(d, c.state, wait), ClientExpects(d, c.state), other);
    if q != [] {
      assert (q + more)[0] == q[0];
    }
  }

  lemma ClientResolves(k: Crypto, d: Deal, ccfg: C.Config, c: C.Client, wait: Wait)
    requires ClientOk(k, d, ccfg, c, wait)
    ensures wait == WaitFlush ==> ClientOk(k, d, ccfg, c.(core := c.core.(flight := [])), WaitOk)
    ensures wait == WaitPending || wait == WaitMessage ==> ClientOk(k, d, ccfg, c, WaitOk)
    ensures wait == WaitFlush || wait == WaitPending || wait == WaitMessage ==>
              HC.Place(d, c.state, WaitOk) == HC.Place(d, c.state, wait)
  {
    hide Transcript, HC.Marks;
  }

  /** The ChangeCipherSpec has been taken. */
  lemma ClientTakesCcs(k: Crypto, d: Deal, ccfg: C.Config, c: C.Client)
    requires ClientOk(k, d, ccfg, c, WaitCcs)
    requires var a := HC.Place(d, c.state, WaitCcs);
             Transcript(k, d, a + 1) == Transcript(k, d, a)
    ensures ClientOk(k, d, ccfg, c, WaitOk) && HC.Place(d, c.state, WaitOk) == HC.Place(d, c.state, WaitCcs) + 1
  {
    hide C.Trace, C.EachHashedOnce;
  }

  lemma ClientStepGood(k: Crypto, d: Deal, ccfg: C.Config, scfg: S.Config, j: Joint, v: Verdict)
    requires SetUp(d, ccfg, scfg) && Good(k, d, ccfg, scfg, j) && !v.Reject?
    requires j.cwait == WaitOk && !j.client.state.Done?
    ensures Good(k, d, ccfg, scfg, ClientTurn(k, ccfg, j, v))
  {
    hide ClientOk, ServerOk, C.Step, C.Inv, Items;
    var a, b := HC.Place(d, j.client.state, WaitOk), HS.Place(d, j.server.state, j.swait);
    ClientOkInv(k, d, ccfg, j.client, WaitOk);
    BetweenIncoming(k, d, true, a, b, j.toServer + j.client.core.flight, j.toClient + j.server.core.flight);
    ClientStepMoves(k, d, ccfg, scfg, j.client, j.toClient, j.server.core.flight, b, v);
    var front := Front(j.toClient);
    StepKeepsClientOk(k, d, ccfg, j.client, front, v);
    var (c', wait) := C.Step(k, ccfg, j.client, front, v);
    var a' := HC.Place(d, c'.state, wait);
    MovesShape(k, d, j.client, j.toClient, (c', wait));
    var q' := Rest(j.toClient, j.client.core, c'.core);
    PartsMove(k, d, true, a, a', b, j.toServer, j.client.core.flight, j.toClient, q', j.server.core.flight);
    hide Between, Rest, HC.Place, HS.Place, Front;
  }

  lemma ClientOkInv(k: Crypto, d: Deal, ccfg: C.Config, c: C.Client, wait: Wait)
    requires ClientOk(k, d, ccfg, c, wait)
    ensures C.Inv(ccfg, c) && wait != WaitError
  {
    hide C.Inv;
  }

  /** In terms of the queue: the step takes its part of the script off the front. */
  lemma MovesShape(k: Crypto, d: Deal, c: C.Client, q: seq<Item>, r: (C.Client, Wait))
    requires HC.Moves(k, d, c, Front(q), r)
    ensures var a, a' := HC.Place(d, c.state, WaitOk), HC.Place(d, r.0.state, r.1);
            && a <= a'
            && q == Items(k, d, false, a, a') + Rest(q, c.core, r.0.core)
            && r.0.core.flight == c.core.flight + Items(k, d, true, a, a')
  {
    var a, a' := HC.Place(d, c.state, WaitOk), HC.Place(d, r.0.state, r.1);
    if r.1 == WaitPending || r.1 == WaitMessage {
      assert Items(k, d, false, a, a) == [] && Items(k, d, true, a, a) == [];
      assert a' == a;
    } else if Items(k, d, false, a, a') != [] {
      assert q == [q[0]] + q[1..];
      assert r.0.core.released != c.core.released;
    }
    hide HC.Stands, Items;
  }

  lemma ClientTurnGood(k: Crypto, d: Deal, ccfg: C.Config, scfg: S.Config, j: Joint, v: Verdict)
    requires SetUp(d, ccfg, scfg) && Good(k, d, ccfg, scfg, j) && !v.Reject?
    requires C.Inv(ccfg, j.client)
    ensures Good(k, d, ccfg, scfg, ClientTurn(k, ccfg, j, v))
  {
    hide ClientOk, ServerOk, C.Inv, C.Step, Items, HC.Place, HS.Place, ItemAt;
    var a, b := HC.Place(d, j.client.state, j.cwait), HS.Place(d, j.server.state, j.swait);
    ClientOkInv(k, d, ccfg, j.client, j.cwait);
    match j.cwait {
      case WaitFlush =>
        ClientResolves(k, d, ccfg, j.client, j.cwait);
        assert j.toServer + j.client.core.flight + [] == j.toServer + j.client.core.flight;
      case WaitPending => ClientResolves(k, d, ccfg, j.client, j.cwait);
      case WaitMessage =>
        ClientResolves(k, d, ccfg, j.client, j.cwait);
        ClientReads(k, d, ccfg, j.client);
        ClientGets(k, d, ccfg, scfg, j.client, j.cwait, j.toClient, j.server.core.flight, b);
      case WaitCcs =>
        ClientGets(k, d, ccfg, scfg, j.client, j.cwait, j.toClient, j.server.core.flight, b);
        if j.toClient != [] {
          ClientCcsGood(k, d, ccfg, scfg, j);
        }
      case WaitOk =>
        if !j.client.state.Done? {
          ClientStepGood(k, d, ccfg, scfg, j, v);
        }
    }
  }

  lemma ClientReads(k: Crypto, d: Deal, ccfg: C.Config, c: C.Client)
    requires ClientOk(k, d, ccfg, c, WaitMessage)
    ensures C.Reads(c)
  {
    hide C.Inv, HC.Stands;
  }

  lemma ClientCcsGood(k: Crypto, d: Deal, ccfg: C.Config, scfg: S.Config, j: Joint)
    requires SetUp(d, ccfg, scfg) && Good(k, d, ccfg, scfg, j)
    requires j.cwait == WaitCcs && j.toClient != [] && j.toClient[0].Ccs?
    ensures Good(k, d, ccfg, scfg, j.(cwait := WaitOk, toClient := j.toClient[1..]))
  {
    var a, b := HC.Place(d, j.client.state, WaitCcs), HS.Place(d, j.server.state, j.swait);
    ClientWaitsInCcs(k, d, ccfg, j.client);
    hide ClientOk, ServerOk, C.Inv, Items, HC.Place, HS.Place, ItemAt, Transcript, Between;
    CcsPlace(k, d, false, a);
    ClientTakesCcs(k, d, ccfg, j.client);
    CcsLeavesQueue(k, d, a, b, j.toServer, j.client.core.flight, j.toClient, j.server.core.flight);
  }

  lemma CcsLeavesQueue(
      k: Crypto, d: Deal, a: nat, b: nat, sent: seq<Item>, flight: seq<Item>, q: seq<Item>, more: seq<Item>)
    requires q != [] && q[0].Ccs?
    requires Items(k, d, false, a, a + 1) == [Ccs] && Items(k, d, true, a, a + 1) == []
    requires Between(k, d, true, a, b, sent + flight, q + more)
    ensures Between(k, d, true, a + 1, b, sent + flight, q[1..] + more)
  {
    hide Items, Between;
    assert q == [Ccs] + q[1..];
    assert flight + [] == flight;
    PartsMove(k, d, true, a, a + 1, b, sent, flight, q, q[1..], more);
  }

  lemma ClientWaitsInCcs(k: Crypto, d: Deal, ccfg: C.Config, c: C.Client)
    requires ClientOk(k, d, ccfg, c, WaitCcs)
    ensures HC.Place(d, c.state, WaitCcs) == if d.p.resumed then 3 else 15
  {
    hide C.Inv, HC.Stands;
  }
}
