/**
 An honest client and an honest server, joined by two queues. What is in the queues is exactly what lies between
 the places of the script where the two sides stand.
 */
module TlsJoint {
  import opened Basics
  import opened TlsHandshake
  import opened TlsScript
  import C = TlsClient
  import S = TlsServer
  import HC = TlsHonestClient
  import HS = TlsHonestServer

  datatype Joint = Joint(
    client: C.Client, cwait: Wait, server: S.Server, swait: Wait, toServer: seq<Item>, toClient: seq<Item>)

  /** What get_message returns. */
  function Front(q: seq<Item>): Option<Msg> {
    if q != [] && q[0].Hs? then Some(q[0].msg) else None
  }

  /** The queue behind a call that may have released its first message. */
  function Rest(q: seq<Item>, before: Core, after: Core): seq<Item> {
    if q != [] && after.released != before.released then q[1..] else q
  }

  /** One turn of the client in ssl_run_handshake: it resolves what it waits for, or calls a state function. */
  function ClientTurn(k: Crypto, cfg: C.Config, j: Joint, v: Verdict): Joint
    requires j.cwait != WaitError ==> C.Inv(cfg, j.client)
  {
    match j.cwait
    case WaitError => j
    case WaitFlush =>
      j.(toServer := j.toServer + j.client.core.flight,
         client := j.client.(core := j.client.core.(flight := [])), cwait := WaitOk)
    case WaitPending => j.(cwait := WaitOk)
    case WaitMessage => if j.toClient == [] then j else j.(cwait := if j.toClient[0].Hs? then WaitOk else WaitError)
    case WaitCcs =>
      if j.toClient == [] then j
      else if j.toClient[0].Ccs? then j.(cwait := WaitOk, toClient := j.toClient[1..]) else j.(cwait := WaitError)
    case WaitOk =>
      if j.client.state.Done? then j
      else
        var (c', wait) := C.Step(k, cfg, j.client, Front(j.toClient), v);
        j.(client := c', cwait := wait, toClient := Rest(j.toClient, j.client.core, c'.core))
  }

  function ServerTurn(k: Crypto, cfg: S.Config, j: Joint, v: Verdict): Joint
    requires j.swait != WaitError ==> S.Inv(j.server)
  {
    match j.swait
    case WaitError => j
    case WaitFlush =>
      j.(toClient := j.toClient + j.server.core.flight,
         server := j.server.(core := j.server.core.(flight := [])), swait := WaitOk)
    case WaitPending => j.(swait := WaitOk)
    case WaitMessage => if j.toServer == [] then j else j.(swait := if j.toServer[0].Hs? then WaitOk else WaitError)
    case WaitCcs =>
      if j.toServer == [] then j
      else if j.toServer[0].Ccs? then j.(swait := WaitOk, toServer := j.toServer[1..]) else j.(swait := WaitError)
    case WaitOk =>
      if j.server.state.Done? then j
      else
        var (s', wait) := S.Step(k, cfg, j.server, Front(j.toServer), v);
        j.(server := s', swait := wait, toServer := Rest(j.toServer, j.server.core, s'.core))
  }

  // ---------- the queues hold what lies between the two sides ----------

  /** `out` is what this side has said and the other has not taken; `incoming` is the reverse. */
  ghost predicate Between(k: Crypto, d: Deal, client: bool, mine: nat, other: nat, out: seq<Item>, incoming: seq<Item>) {
    && out == Items(k, d, client, other, mine) && incoming == Items(k, d, !client, mine, other)
    && Items(k, d, client, mine, other) == [] && Items(k, d, !client, other, mine) == []
  }

  lemma BetweenOther(k: Crypto, d: Deal, client: bool, mine: nat, other: nat, out: seq<Item>, incoming: seq<Item>)
    requires Between(k, d, client, mine, other, out, incoming)
    ensures Between(k, d, !client, other, mine, incoming, out)
  {
  }

  /** One side moves from `mine` to `next`, says its part, and takes the other's from the front of its queue. */
  lemma QueueMoves(
      k: Crypto, d: Deal, client: bool, mine: nat, next: nat, other: nat,
      out: seq<Item>, incoming: seq<Item>, incoming': seq<Item>)
    requires Between(k, d, client, mine, other, out, incoming) && mine <= next
    requires incoming == Items(k, d, !client, mine, next) + incoming'
    ensures Between(k, d, client, next, other, out + Items(k, d, client, mine, next), incoming')
  {
    if other <= mine {
      ItemsSplit(k, d, client, other, mine, next);
      ItemsSplit(k, d, !client, other, mine, next);
    } else if other <= next {
      ItemsSplit(k, d, client, mine, other, next);
      ItemsSplit(k, d, !client, mine, other, next);
    } else {
      ItemsSplit(k, d, client, mine, next, other);
      ItemsSplit(k, d, !client, mine, next, other);
      Cancel(Items(k, d, !client, mine, next), incoming', Items(k, d, !client, next, other));
    }
  }

  /** The same for a queue in two parts: what has been flushed, and what has not. */
  lemma PartsMove(
      k: Crypto, d: Deal, client: bool, mine: nat, next: nat, other: nat,
      sent: seq<Item>, flight: seq<Item>, q: seq<Item>, q': seq<Item>, more: seq<Item>)
    requires Between(k, d, client, mine, other, sent + flight, q + more) && mine <= next
    requires q == Items(k, d, !client, mine, next) + q'
    ensures Between(k, d, client, next, other, sent + (flight + Items(k, d, client, mine, next)), q' + more)
  {
    var said, taken := Items(k, d, client, mine, next), Items(k, d, !client, mine, next);
    hide Items, Between;
    assert q + more == taken + (q' + more);
    assert sent + (flight + said) == sent + flight + said;
    BetweenIncoming(k, d, client, mine, other, sent + flight, q + more);
    QueueMoves(k, d, client, mine, next, other, sent + flight, q + more, q' + more);
  }

  lemma BetweenIncoming(k: Crypto, d: Deal, client: bool, mine: nat, other: nat, out: seq<Item>, incoming: seq<Item>)
    requires Between(k, d, client, mine, other, out, incoming)
    ensures incoming == Items(k, d, !client, mine, other) && out == Items(k, d, client, other, mine)
  {
  }

  lemma Cancel(a: seq<Item>, b: seq<Item>, c: seq<Item>)
    requires a + b == a + c
    ensures b == c
  {
    assert b == (a + b)[|a|..] && c == (a + c)[|a|..];
  }

  lemma FrontIsNext(k: Crypto, d: Deal, client: bool, mine: nat, other: nat, q: seq<Item>, more: seq<Item>)
    requires q + more == Items(k, d, client, mine, other) && q != [] && q[0].Hs?
    ensures NextFrom(k, d, client, mine, q[0].msg)
  {
    assert (q + more)[0] == q[0];
  }

  // ---------- the joint invariant ----------

  /** A side that is not about to send has flushed what it said. */
  predicate ClientFlushed(c: C.Client, wait: Wait) {
    || wait == WaitFlush || c.core.flight == []
    || c.state.SendClientKeyExchange? || c.state.SendClientCertificateVerify? || c.state.SendClientFinished?
  }

  predicate ServerFlushed(s: S.Server, wait: Wait) {
    || wait == WaitFlush || s.core.flight == []
    || s.state.SendServerCertificate? || s.state.SendServerKeyExchange? || s.state.SendServerHelloDone?
    || s.state.SendServerFinished?
  }

  predicate ClientOk(k: Crypto, d: Deal, cfg: C.Config, c: C.Client, wait: Wait) {
    && wait != WaitError && C.Inv(cfg, c) && HC.Stands(k, d, c, wait) && ClientFlushed(c, wait)
    && (wait == WaitCcs ==> c.state.ProcessChangeCipherSpec?) && (wait == WaitMessage ==> C.Reads(c))
  }

  predicate ServerOk(k: Crypto, d: Deal, cfg: S.Config, s: S.Server, wait: Wait) {
    && wait != WaitError && S.Inv(s) && HS.Stands(k, d, cfg, s, wait) && ServerFlushed(s, wait)
    && (wait == WaitCcs ==> s.state.ProcessChangeCipherSpec?) && (wait == WaitMessage ==> S.Reads(s))
  }

  predicate SetUp(d: Deal, ccfg: C.Config, scfg: S.Config) {
    DealOk(d) && HC.SetUp(d, ccfg) && HS.SetUp(d, scfg)
  }

  ghost predicate QueuesOk(k: Crypto, d: Deal, j: Joint) {
    Between(k, d, true, HC.Place(d, j.client.state, j.cwait), HS.Place(d, j.server.state, j.swait),
            j.toServer + j.client.core.flight, j.toClient + j.server.core.flight)
  }

  ghost predicate Good(k: Crypto, d: Deal, ccfg: C.Config, scfg: S.Config, j: Joint) {
    ClientOk(k, d, ccfg, j.client, j.cwait) && ServerOk(k, d, scfg, j.server, j.swait) && QueuesOk(k, d, j)
  }

  /** The item of a ChangeCipherSpec place. */
  lemma CcsPlace(k: Crypto, d: Deal, client: bool, a: nat)
    requires a == if client then (if d.p.resumed then 5 else 10) else (if d.p.resumed then 3 else 15)
    ensures Transcript(k, d, a + 1) == Transcript(k, d, a)
    ensures Items(k, d, client, a, a + 1) == [Ccs] && Items(k, d, !client, a, a + 1) == []
  {
    CcsHere(k, d, a);
    hide Transcript, ItemAt, One;
    ItemsOne(k, d, client, a);
    ItemsOne(k, d, !client, a);
  }
}
