/** The types of messages, as the grammar of a handshake speaks of them (section 7.3 of RFC 5246). */
module TlsGrammar {
  import opened TlsHandshake

  datatype MsgType =
    | TClientHello | THelloVerifyRequest | TServerHello | TCertificate | TCertificateStatus | TServerKeyExchange
    | TCertificateRequest | TServerHelloDone | TClientKeyExchange | TCertificateVerify | TNextProto | TChannelId
    | TFinished | TNewSessionTicket

  function TypeOf(m: Msg): MsgType {
    match m
    case ClientHello(_) => TClientHello
    case HelloVerifyRequest(_) => THelloVerifyRequest
    case ServerHello(_, _) => TServerHello
    case Certificate(_) => TCertificate
    case CertificateStatus => TCertificateStatus
    case ServerKeyExchange(_) => TServerKeyExchange
    case CertificateRequest => TCertificateRequest
    case ServerHelloDone => TServerHelloDone
    case ClientKeyExchange(_) => TClientKeyExchange
    case CertificateVerify(_) => TCertificateVerify
    case NextProto => TNextProto
    case ChannelId => TChannelId
    case Finished(_) => TFinished
    case NewSessionTicket(_) => TNewSessionTicket
  }

  function Types(ms: seq<Msg>): (ts: seq<MsgType>)
    ensures |ts| == |ms|
  {
    seq(|ms|, i requires 0 <= i < |ms| => TypeOf(ms[i]))
  }

  lemma TypesOne(ms: seq<Msg>, m: Msg)
    ensures Types(ms + [m]) == Types(ms) + [TypeOf(m)]
  {
  }

  /** A part of the grammar that is there or not. */
  function Opt(present: bool, t: MsgType): seq<MsgType> {
    if present then [t] else []
  }

  // ---------- what does not concern the peer's messages ----------

  /** Nothing was taken off the connection, and what was negotiated stands. */
  predicate Unheard(c: Core, c': Core) {
    && c'.released == c.released
    && c'.session == c.session && c'.cipher == c.cipher && c'.statusExpected == c.statusExpected
    && c'.ticketExpected == c.ticketExpected && c'.certRequest == c.certRequest && c'.nextProto == c.nextProto
    && c'.channelId == c.channelId && c'.ems == c.ems && c'.peerPubkey == c.peerPubkey
  }

  /** A message was taken off the connection. */
  predicate Took(c: Core, c': Core, m: Msg) {
    c'.released == c.released + [m] && Unheard(c, c'.(released := c.released))
  }

  lemma NothingHeard(c: Core)
    ensures Unheard(c, c) && Unheard(c, FreeBuffer(c)) && Unheard(c, ChangeReadCipher(c))
  {
  }

  lemma AddedUnheard(c: Core, m: Msg)
    ensures Unheard(c, AddMessage(c, m))
  {
  }

  lemma HelloHashed(c: Core, m: Msg)
    ensures Unheard(c, HashMessage(InitHash(c), m))
  {
  }

  lemma ReleasedTook(c: Core, m: Msg)
    ensures Took(c, NextMessage(c, m), m)
  {
  }

  lemma FreedTook(c: Core, m: Msg)
    ensures Took(c, NextMessage(FreeBuffer(c), m), m)
  {
  }

  lemma HashedTook(c: Core, m: Msg)
    ensures Took(c, HashAndRelease(c, m), m)
  {
  }

  lemma ChangedUnheard(c: Core)
    ensures Unheard(c, ChangeWriteCipher(c))
  {
  }

  lemma SentUnheard(k: Crypto, c: Core, server: bool)
    requires CanFinish(c)
    ensures Unheard(c, SendFinished(k, c, server))
  {
    AddedUnheard(Note(c, FinishedSent(c.hash.value)), Finished((k.mac)(c.secret, c.hash.value, server)));
    hide AddMessage;
  }

  lemma VerifiedTook(k: Crypto, c: Core, m: Msg, fromServer: bool)
    requires CanFinish(c) && m.Finished? && GetFinished(k, c, m, fromServer).Some?
    ensures Took(c, GetFinished(k, c, m, fromServer).value, m)
  {
  }
}
