/**
 What an honest client and an honest server say to each other, once everything is negotiated: a numbered list
 of places, each with the side that speaks there, and whether there is anything to say.
 */
module TlsScript {
  import opened TlsHandshake

  /** Everything the messages of a handshake depend on. */
  datatype Deal = Deal(
    p: Params, certRequest: bool, serverKeyExchange: bool, clientCertificate: bool,
    clientRandom: nat, serverRandom: nat, premaster: nat, oldSecret: nat)

  predicate DealOk(d: Deal) {
    && (d.p.status || d.certRequest ==> !d.p.resumed && UsesCertificateAuth(d.p.cipher))
    && (RequiresServerKeyExchange(d.p.cipher) ==> d.serverKeyExchange)
    && (d.p.cipher.RSA? ==> !d.serverKeyExchange)
  }

  /** The number of places (sections 7.3 and 7.4 of RFC 5246). */
  function End(d: Deal): nat {
    if d.p.resumed then 9 else 17
  }

  predicate FromClient(d: Deal, i: nat) {
    if d.p.resumed then i == 0 || i >= 5 else i == 0 || 7 <= i <= 13
  }

  predicate Present(d: Deal, i: nat) {
    if d.p.resumed then
      match i
      case 2 => d.p.ticket
      case 6 => d.p.nextProto
      case 7 => d.p.channelId
      case _ => i < 9
    else
      match i
      case 2 => UsesCertificateAuth(d.p.cipher)
      case 3 => d.p.status
      case 4 => d.serverKeyExchange
      case 5 => d.certRequest
      case 7 => d.certRequest
      case 9 => d.certRequest && d.clientCertificate
      case 11 => d.p.nextProto
      case 12 => d.p.channelId
      case 14 => d.p.ticket
      case _ => i < 17
  }

  /** The messages of the first `i` places. */
  function Transcript(k: Crypto, d: Deal, i: nat): seq<Msg>
    decreases i, 0
  {
    if i == 0 then []
    else Transcript(k, d, i - 1) + Said(k, d, i - 1)
  }

  function Said(k: Crypto, d: Deal, i: nat): seq<Msg>
    decreases i, 2
  {
    if Present(d, i) && ItemAt(k, d, i).Hs? then [ItemAt(k, d, i).msg] else []
  }

  /** The item of place `i`. A full handshake derives its secret behind the ClientKeyExchange, at place 9. */
  function ItemAt(k: Crypto, d: Deal, i: nat): Item
    decreases i, 1
  {
    if i == 0 then Hs(ClientHello(d.clientRandom))
    else if i == 1 then Hs(ServerHello(d.serverRandom, d.p))
    else if d.p.resumed then
      match i
      case 2 => Hs(NewSessionTicket(false))
      case 6 => Hs(NextProto)
      case 7 => Hs(ChannelId)
      case 4 => Hs(Finished((k.mac)(d.oldSecret, Transcript(k, d, 4), true)))
      case 8 => Hs(Finished((k.mac)(d.oldSecret, Transcript(k, d, 8), false)))
      case _ => Ccs
    else
      match i
      case 2 => Hs(Certificate(true))
      case 3 => Hs(CertificateStatus)
      case 4 => Hs(ServerKeyExchange(d.serverRandom))
      case 5 => Hs(CertificateRequest)
      case 6 => Hs(ServerHelloDone)
      case 7 => Hs(Certificate(d.clientCertificate))
      case 8 => Hs(ClientKeyExchange(d.premaster))
      case 9 => Hs(CertificateVerify((k.sign)(Transcript(k, d, 9))))
      case 11 => Hs(NextProto)
      case 12 => Hs(ChannelId)
      case 13 => Hs(Finished((k.mac)(Master(k, d, Transcript(k, d, 9)), Transcript(k, d, 13), false)))
      case 14 => Hs(NewSessionTicket(false))
      case 16 => Hs(Finished((k.mac)(Master(k, d, Transcript(k, d, 9)), Transcript(k, d, 16), true)))
      case _ => Ccs
  }

  function Master(k: Crypto, d: Deal, t: seq<Msg>): nat {
    (k.master)(d.premaster, if d.p.ems then t else [], d.p.ems)
  }

  /** What one side says from place `lo` up to place `hi`. */
  function Items(k: Crypto, d: Deal, client: bool, lo: nat, hi: nat): seq<Item>
    decreases hi
  {
    if hi <= lo then [] else Items(k, d, client, lo, hi - 1) + One(k, d, client, hi - 1)
  }

  function One(k: Crypto, d: Deal, client: bool, i: nat): seq<Item> {
    if Present(d, i) && FromClient(d, i) == client then [ItemAt(k, d, i)] else []
  }

  /** `m` is what the other side says next, at or behind place `a`. */
  ghost predicate NextFrom(k: Crypto, d: Deal, client: bool, a: nat, m: Msg) {
    exists hi: nat :: Items(k, d, client, a, hi) != [] && Items(k, d, client, a, hi)[0] == Hs(m)
  }

  lemma NextIsHere(k: Crypto, d: Deal, client: bool, a: nat, m: Msg)
    requires NextFrom(k, d, client, a, m)
    ensures if Present(d, a) && FromClient(d, a) == client then ItemAt(k, d, a) == Hs(m)
            else NextFrom(k, d, client, a + 1, m)
  {
    var hi: nat :| Items(k, d, client, a, hi) != [] && Items(k, d, client, a, hi)[0] == Hs(m);
    ItemsHead(k, d, client, a, hi);
  }

  lemma {:induction false} ItemsSplit(k: Crypto, d: Deal, client: bool, lo: nat, mid: nat, hi: nat)
    requires lo <= mid <= hi
    ensures Items(k, d, client, lo, hi) == Items(k, d, client, lo, mid) + Items(k, d, client, mid, hi)
    decreases hi
  {
    if mid < hi {
      ItemsSplit(k, d, client, lo, mid, hi - 1);
    }
  }

  /** The first place counts first. */
  lemma ItemsHead(k: Crypto, d: Deal, client: bool, lo: nat, hi: nat)
    requires lo < hi
    ensures Items(k, d, client, lo, hi) == One(k, d, client, lo) + Items(k, d, client, lo + 1, hi)
  {
    ItemsSplit(k, d, client, lo, lo + 1, hi);
    assert Items(k, d, client, lo, lo + 1) == [] + One(k, d, client, lo);
  }

  lemma ItemsOne(k: Crypto, d: Deal, client: bool, a: nat)
    ensures Items(k, d, client, a, a + 1) == One(k, d, client, a)
  {
    assert [] + One(k, d, client, a) == One(k, d, client, a);
  }

  lemma ItemsTwo(k: Crypto, d: Deal, client: bool, a: nat)
    ensures Items(k, d, client, a, a + 2) == One(k, d, client, a) + One(k, d, client, a + 1)
  {
    ItemsOne(k, d, client, a);
  }

  lemma ItemsThree(k: Crypto, d: Deal, client: bool, a: nat)
    ensures Items(k, d, client, a, a + 3)
         == One(k, d, client, a) + One(k, d, client, a + 1) + One(k, d, client, a + 2)
  {
    ItemsTwo(k, d, client, a);
  }

  lemma ItemsFour(k: Crypto, d: Deal, client: bool, a: nat)
    ensures Items(k, d, client, a, a + 4)
         == One(k, d, client, a) + One(k, d, client, a + 1) + One(k, d, client, a + 2) + One(k, d, client, a + 3)
  {
    ItemsThree(k, d, client, a);
  }

  /** A place where `m` is said. */
  lemma MessageHere(k: Crypto, d: Deal, i: nat, m: Msg)
    requires Present(d, i) && ItemAt(k, d, i) == Hs(m)
    ensures Transcript(k, d, i + 1) == Transcript(k, d, i) + [m]
    ensures One(k, d, FromClient(d, i), i) == [Hs(m)] && One(k, d, !FromClient(d, i), i) == []
  {
    hide ItemAt;
  }

  lemma CcsHere(k: Crypto, d: Deal, i: nat)
    requires Present(d, i) && ItemAt(k, d, i) == Ccs
    ensures Transcript(k, d, i + 1) == Transcript(k, d, i)
    ensures One(k, d, FromClient(d, i), i) == [Ccs] && One(k, d, !FromClient(d, i), i) == []
  {
    hide ItemAt;
  }

  lemma NothingHere(k: Crypto, d: Deal, i: nat)
    requires !Present(d, i)
    ensures Transcript(k, d, i + 1) == Transcript(k, d, i)
    ensures One(k, d, true, i) == [] && One(k, d, false, i) == []
  {
    hide ItemAt;
  }

  /** A place that is used only if something was negotiated. */
  lemma PerhapsHere(k: Crypto, d: Deal, i: nat, m: Msg)
    requires Present(d, i) ==> ItemAt(k, d, i) == Hs(m)
    ensures Transcript(k, d, i + 1) == Transcript(k, d, i) + if Present(d, i) then [m] else []
    ensures One(k, d, FromClient(d, i), i) == if Present(d, i) then [Hs(m)] else []
    ensures One(k, d, !FromClient(d, i), i) == []
  {
    if Present(d, i) {
      MessageHere(k, d, i, m);
    } else {
      NothingHere(k, d, i);
    }
    hide ItemAt;
  }

  /** The other side's message at this place has arrived. */
  lemma Heard(k: Crypto, d: Deal, client: bool, a: nat, m: Msg)
    requires Present(d, a) && FromClient(d, a) == client && NextFrom(k, d, client, a, m)
    ensures ItemAt(k, d, a) == Hs(m) && Transcript(k, d, a + 1) == Transcript(k, d, a) + [m]
    ensures Items(k, d, client, a, a + 1) == [Hs(m)] && Items(k, d, !client, a, a + 1) == []
  {
    hide ItemAt;
    NextIsHere(k, d, client, a, m);
    MessageHere(k, d, a, m);
    ItemsOne(k, d, true, a);
    ItemsOne(k, d, false, a);
  }

  /** Nothing is said at this place. */
  lemma Skipped(k: Crypto, d: Deal, a: nat)
    requires !Present(d, a)
    ensures Transcript(k, d, a + 1) == Transcript(k, d, a)
    ensures Items(k, d, true, a, a + 1) == [] && Items(k, d, false, a, a + 1) == []
  {
    hide ItemAt;
    NothingHere(k, d, a);
    ItemsOne(k, d, true, a);
    ItemsOne(k, d, false, a);
  }

  /** What one side may have to say at this place. */
  lemma Spoken(k: Crypto, d: Deal, a: nat, m: Msg)
    requires Present(d, a) ==> ItemAt(k, d, a) == Hs(m)
    ensures Transcript(k, d, a + 1) == Transcript(k, d, a) + if Present(d, a) then [m] else []
    ensures Items(k, d, FromClient(d, a), a, a + 1) == if Present(d, a) then [Hs(m)] else []
    ensures Items(k, d, !FromClient(d, a), a, a + 1) == []
  {
    hide ItemAt;
    PerhapsHere(k, d, a, m);
    ItemsOne(k, d, true, a);
    ItemsOne(k, d, false, a);
  }

  /** The items whose content matters, by place. */
  lemma FullItems(k: Crypto, d: Deal)
    requires !d.p.resumed
    ensures ItemAt(k, d, 2) == Hs(Certificate(true)) && ItemAt(k, d, 3) == Hs(CertificateStatus)
    ensures ItemAt(k, d, 4) == Hs(ServerKeyExchange(d.serverRandom)) && ItemAt(k, d, 5) == Hs(CertificateRequest)
    ensures ItemAt(k, d, 6) == Hs(ServerHelloDone) && ItemAt(k, d, 7) == Hs(Certificate(d.clientCertificate))
    ensures ItemAt(k, d, 8) == Hs(ClientKeyExchange(d.premaster))
    ensures ItemAt(k, d, 9) == Hs(CertificateVerify((k.sign)(Transcript(k, d, 9))))
  {
    hide Transcript;
  }

  /** The verify data of both Finished messages, with the secret that is in force. */
  lemma FinishedItem(k: Crypto, d: Deal, client: bool, a: nat, secret: nat)
    requires a == if client then (if d.p.resumed then 8 else 13) else (if d.p.resumed then 4 else 16)
    requires secret == if d.p.resumed then d.oldSecret else Master(k, d, Transcript(k, d, 9))
    ensures Present(d, a) && FromClient(d, a) == client
    ensures ItemAt(k, d, a) == Hs(Finished((k.mac)(secret, Transcript(k, d, a), !client)))
  {
    hide Transcript, Master;
  }

  /** The places of the client's NextProto and ChannelID messages. */
  lemma ExtraItem(k: Crypto, d: Deal, channelId: bool, a: nat)
    requires a == (if d.p.resumed then 6 else 11) + if channelId then 1 else 0
    ensures FromClient(d, a) && ItemAt(k, d, a) == Hs(if channelId then ChannelId else NextProto)
    ensures Present(d, a) <==> if channelId then d.p.channelId else d.p.nextProto
  {
    hide Transcript, Master;
  }

  /** Nobody speaks from `a` up to `e`, and at `e` one side does. */
  predicate SpeaksNext(d: Deal, client: bool, a: nat, e: nat) {
    && a <= e < End(d) && Present(d, e) && FromClient(d, e) == client
    && forall i: nat :: a <= i < e ==> !Present(d, i)
  }

  lemma {:induction false} FirstItem(k: Crypto, d: Deal, client: bool, a: nat, e: nat, hi: nat)
    requires SpeaksNext(d, client, a, e)
    ensures Items(k, d, client, a, hi) == [] <==> hi <= e
    ensures hi > e ==> Items(k, d, client, a, hi)[0] == ItemAt(k, d, e)
    decreases e - a
  {
    hide ItemAt;
    if hi > a {
      ItemsHead(k, d, client, a, hi);
      if a < e {
        assert SpeaksNext(d, client, a + 1, e);
        FirstItem(k, d, client, a + 1, e, hi);
      }
    }
  }
}
