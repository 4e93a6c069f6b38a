/**
 What the TLS 1.0 to 1.2 handshake machines share (handshake.cc, ssl_transcript.cc): messages, the transcript,
 Finished, and the effects of a state function. Cryptography is uninterpreted: a verify value or a signature is
 a function of the transcript it covers.
 */
module TlsHandshake {
  import opened Basics

  datatype Cipher = RSA | ECDHE | PSK | ECDHE_PSK

  /** ssl_cipher_uses_certificate_auth */
  predicate UsesCertificateAuth(c: Cipher) { c.RSA? || c.ECDHE? }

  /** ssl_cipher_requires_server_key_exchange */
  predicate RequiresServerKeyExchange(c: Cipher) { c.ECDHE? || c.ECDHE_PSK? }

  /** What a ServerHello settles: the session, the cipher, and the extensions that add messages. */
  datatype Params = Params(
    resumed: bool, cipher: Cipher, status: bool, ticket: bool, nextProto: bool, channelId: bool, ems: bool)

  datatype Msg =
    | ClientHello(random: nat)
    | HelloVerifyRequest(cookie: nat)
    | ServerHello(serverRandom: nat, params: Params)
    | Certificate(nonempty: bool)
    | CertificateStatus
    | ServerKeyExchange(share: nat)
    | CertificateRequest
    | ServerHelloDone
    | ClientKeyExchange(premaster: nat)
    | CertificateVerify(signature: nat)
    | NextProto
    | ChannelId
    | Finished(verifyData: nat)
    | NewSessionTicket(empty: bool)

  /** What goes over the wire, in order. */
  datatype Item = Hs(msg: Msg) | Ccs

  datatype Crypto = Crypto(
    mac: (nat, seq<Msg>, bool) -> nat,          // GetFinishedMAC: secret, transcript, from the server
    sign: seq<Msg> -> nat,                      // the client's key, over the handshake buffer
    master: (nat, seq<Msg>, bool) -> nat)       // premaster, transcript, extended master secret

  // ---------- effects ----------

  /** What a run does, besides exchanging messages, with the transcript it does it on. */
  datatype Mark =
    | SecretDerived(t: seq<Msg>)
    | VerifySigned(t: seq<Msg>)
    | VerifyChecked(t: seq<Msg>)
    | CcsSent
    | WriteChanged
    | FinishedSent(t: seq<Msg>)
    | ReadChanged
    | FinishedVerified(t: seq<Msg>)

  datatype Kind = KSecret | KSigned | KChecked | KCcs | KWrite | KSent | KRead | KVerified

  function KindOf(m: Mark): Kind {
    match m
    case SecretDerived(_) => KSecret
    case VerifySigned(_) => KSigned
    case VerifyChecked(_) => KChecked
    case CcsSent => KCcs
    case WriteChanged => KWrite
    case FinishedSent(_) => KSent
    case ReadChanged => KRead
    case FinishedVerified(_) => KVerified
  }

  /** The state both machines have: parts of `ssl` and `hs`, and a history. */
  datatype Core = Core(
    session: bool,                  // ssl->session != NULL
    cipher: Cipher,
    statusExpected: bool, ticketExpected: bool, certRequest: bool,
    nextProto: bool, channelId: bool, ems: bool,
    peerPubkey: bool,               // a nonempty chain was received
    secret: nat,                    // the master secret of SSL_get_session
    buffer: Option<seq<Msg>>,       // SSLTranscript: the handshake buffer
    hash: Option<seq<Msg>>,         // SSLTranscript: the rolling hash, as what went into it
    flight: seq<Item>,              // what was added since the last flush
    // history
    all: seq<Msg>,                  // what was hashed since the transcript was initialized
    hashed: seq<Msg>, released: seq<Msg>,
    marks: seq<Mark>, kinds: seq<Kind>)

  datatype Wait = WaitOk | WaitError | WaitFlush | WaitMessage | WaitCcs | WaitPending

  /** The verdict of everything the model does not interpret: parsing, callbacks, keys. */
  datatype Verdict = Proceed | Pend | Reject

  function Fresh(session: bool, secret: nat): Core {
    Core(session, RSA, false, false, false, false, false, false, false, secret, Some([]), None, [], [], [], [], [], [])
  }

  /** SSLTranscript::Update */
  function Update(c: Core, m: Msg): Core {
    c.(buffer := if c.buffer.Some? then Some(c.buffer.value + [m]) else None,
       hash := if c.hash.Some? then Some(c.hash.value + [m]) else None,
       all := c.all + [m])
  }

  /** SSLTranscript::InitHash */
  function InitHash(c: Core): Core {
    c.(hash := c.buffer)
  }

  function FreeBuffer(c: Core): Core {
    c.(buffer := None)
  }

  /** ssl_hash_message */
  function HashMessage(c: Core, m: Msg): Core {
    Update(c, m).(hashed := c.hashed + [m])
  }

  /** next_message */
  function NextMessage(c: Core, m: Msg): Core {
    c.(released := c.released + [m])
  }

  function HashAndRelease(c: Core, m: Msg): Core {
    NextMessage(HashMessage(c, m), m)
  }

  /** ssl_add_message_cbb */
  function AddMessage(c: Core, m: Msg): Core {
    Update(c, m).(flight := c.flight + [Hs(m)])
  }

  function Note(c: Core, mark: Mark): Core {
    c.(marks := c.marks + [mark], kinds := c.kinds + [KindOf(mark)])
  }

  /** add_change_cipher_spec and tls1_change_cipher_state for writing */
  function ChangeWriteCipher(c: Core): Core {
    Note(Note(c.(flight := c.flight + [Ccs]), CcsSent), WriteChanged)
  }

  /** tls1_change_cipher_state for reading */
  function ChangeReadCipher(c: Core): Core {
    Note(c, ReadChanged)
  }

  /** The transcript is hashed and its buffer is released: GetFinishedMAC asserts the one and needs the other. */
  predicate CanFinish(c: Core) {
    c.buffer.None? && c.hash.Some?
  }

  /** ssl_send_finished */
  function SendFinished(k: Crypto, c: Core, fromServer: bool): Core
    requires CanFinish(c)
  {
    AddMessage(Note(c, FinishedSent(c.hash.value)), Finished((k.mac)(c.secret, c.hash.value, fromServer)))
  }

  /** ssl_get_finished on a Finished message; None if it does not verify. */
  function GetFinished(k: Crypto, c: Core, m: Msg, fromServer: bool): Option<Core>
    requires CanFinish(c) && m.Finished?
  {
    if m.verifyData != (k.mac)(c.secret, c.hash.value, fromServer) then None
    else Some(HashAndRelease(Note(c, FinishedVerified(c.hash.value)), m))
  }

  /** tls1_generate_master_secret */
  function DeriveSecret(k: Crypto, c: Core, premaster: nat): Core
    requires c.hash.Some?
  {
    Note(c.(secret := (k.master)(premaster, if c.ems then c.hash.value else [], c.ems)), SecretDerived(c.hash.value))
  }

  /** Both views of the transcript, as far as they are kept, are the whole of it. */
  predicate TranscriptOk(c: Core) {
    && (c.buffer.Some? || c.hash.Some?)
    && (c.buffer.Some? ==> c.buffer.value == c.all)
    && (c.hash.Some? ==> c.hash.value == c.all)
  }

  function Count(ks: seq<Kind>, k: Kind): nat {
    if ks == [] then 0 else Count(ks[..|ks| - 1], k) + if ks[|ks| - 1] == k then 1 else 0
  }

  /** What the end of a flight says, and over which transcript. */
  lemma SendFinishedSays(k: Crypto, c: Core, fromServer: bool)
    requires TranscriptOk(c) && CanFinish(c)
    ensures var r, m := SendFinished(k, ChangeWriteCipher(c), fromServer), Finished((k.mac)(c.secret, c.all, fromServer));
            && r.all == c.all + [m] && r.flight == c.flight + [Ccs] + [Hs(m)]
            && r.marks == c.marks + [CcsSent, WriteChanged, FinishedSent(c.all)]
  {
    assert c.marks + [CcsSent] + [WriteChanged] + [FinishedSent(c.all)]
        == c.marks + [CcsSent, WriteChanged, FinishedSent(c.all)];
  }

  /** The end of a flight touches the transcript, the flight and the history only. */
  lemma SendFinishedEffect(k: Crypto, c: Core, fromServer: bool)
    requires TranscriptOk(c) && CanFinish(c)
    ensures var r := SendFinished(k, ChangeWriteCipher(c), fromServer);
            && TranscriptOk(r) && CanFinish(r)
            && r == c.(buffer := None, hash := r.hash, all := r.all, flight := r.flight, marks := r.marks,
                       kinds := c.kinds + [KCcs, KWrite, KSent])
  {
    assert c.kinds + [KCcs] + [KWrite] + [KSent] == c.kinds + [KCcs, KWrite, KSent];
  }

  /** A Finished message over the same transcript verifies, and is then hashed and released. */
  lemma GetFinishedEffect(k: Crypto, c: Core, m: Msg, fromServer: bool)
    requires TranscriptOk(c) && CanFinish(c) && m == Finished((k.mac)(c.secret, c.all, fromServer))
    ensures GetFinished(k, c, m, fromServer)
         == Some(c.(hash := Some(c.all + [m]), all := c.all + [m],
                    hashed := c.hashed + [m], released := c.released + [m],
                    marks := c.marks + [FinishedVerified(c.all)], kinds := c.kinds + [KVerified]))
  {
  }
}
