/** What the marks of a run stand for: messages of the transcript that anyone with the secret can check. */
module TlsEvidence {
  import opened TlsHandshake

  /** `t` is what had been said when `m` was, and `m` is part of the transcript. */
  predicate Followed(c: Core, t: seq<Msg>, m: Msg) {
    t + [m] <= c.all
  }

  /** A message of the peer that follows `t`, and that get_message handed out. */
  predicate Received(c: Core, t: seq<Msg>, m: Msg) {
    Followed(c, t, m) && m in c.released
  }

  predicate Backed(k: Crypto, server: bool, c: Core, mark: Mark) {
    match mark
    case SecretDerived(t) =>
      && t <= c.all && t != [] && t[|t| - 1].ClientKeyExchange?
      && c.secret == (k.master)(t[|t| - 1].premaster, if c.ems then t else [], c.ems)
    case VerifySigned(t) => Followed(c, t, CertificateVerify((k.sign)(t)))
    case VerifyChecked(t) => Received(c, t, CertificateVerify((k.sign)(t)))
    case FinishedSent(t) => Followed(c, t, Finished((k.mac)(c.secret, t, server)))
    case FinishedVerified(t) => Received(c, t, Finished((k.mac)(c.secret, t, !server)))
    case _ => true
  }

  /** Every mark carries its label. */
  predicate Labelled(c: Core) {
    |c.kinds| == |c.marks| && forall i :: 0 <= i < |c.marks| ==> c.kinds[i] == KindOf(c.marks[i])
  }

  /** Nothing is marked without a message that shows it, under the secret in force. */
  predicate Genuine(k: Crypto, server: bool, c: Core) {
    Labelled(c) && forall i :: 0 <= i < |c.marks| ==> Backed(k, server, c, c.marks[i])
  }

  /** The transcript and the messages taken off the connection have grown, or nothing was marked yet. */
  predicate Grown(c: Core, c': Core) {
    c.marks == [] || (c.all <= c'.all && c.released <= c'.released && c.secret == c'.secret && c.ems == c'.ems)
  }

  /** At most one message was hashed and released, and nothing was marked. */
  predicate Continues(c: Core, c': Core, m: Msg) {
    && c'.marks == c.marks && c'.kinds == c.kinds && c'.secret == c.secret && c'.ems == c.ems
    && (|| (c'.all == c.all && c'.released == c.released)
        || (c'.all == c.all + [m] && c'.released == c.released + [m]))
  }

  lemma ContinuesGrown(c: Core, c': Core, m: Msg)
    requires Continues(c, c', m)
    ensures Grown(c, c')
  {
  }

  /** A message may have been added, and nothing was marked. */
  predicate Speaks(c: Core, c': Core) {
    && c'.marks == c.marks && c'.kinds == c.kinds && c'.secret == c.secret && c'.ems == c.ems
    && c.all <= c'.all && c'.released == c.released
  }

  lemma SpeaksGrown(c: Core, c': Core)
    requires Speaks(c, c')
    ensures Grown(c, c') && c'.marks == c.marks && c'.kinds == c.kinds
  {
  }

  lemma SpokeOne(c: Core, m: Msg)
    ensures Speaks(c, AddMessage(c, m))
  {
  }

  lemma StillBacked(k: Crypto, server: bool, c: Core, c': Core, mark: Mark)
    requires Backed(k, server, c, mark) && c.all <= c'.all && c.released <= c'.released
    requires c.secret == c'.secret && c.ems == c'.ems
    ensures Backed(k, server, c', mark)
  {
  }

  /** What was backed stays so; what is new has to be shown. */
  lemma GenuineGrows(k: Crypto, server: bool, c: Core, c': Core, news: seq<Mark>)
    requires Genuine(k, server, c) && Grown(c, c') && c'.marks == c.marks + news && Labelled(c')
    requires forall i :: 0 <= i < |news| ==> Backed(k, server, c', news[i])
    ensures Genuine(k, server, c')
  {
    hide Backed;
    forall i | 0 <= i < |c'.marks|
      ensures Backed(k, server, c', c'.marks[i])
    {
      if i < |c.marks| {
        StillBacked(k, server, c, c', c.marks[i]);
      } else {
        assert c'.marks[i] == news[i - |c.marks|];
      }
    }
  }

  /** Most state functions mark nothing. */
  lemma QuietGenuine(k: Crypto, server: bool, c: Core, c': Core)
    requires Genuine(k, server, c) && Grown(c, c') && c'.marks == c.marks && c'.kinds == c.kinds
    ensures Genuine(k, server, c')
  {
    hide Backed;
    assert c'.marks == c.marks + [];
    GenuineGrows(k, server, c, c', []);
  }

  lemma NoteLabelled(c: Core, mark: Mark)
    requires Labelled(c)
    ensures Labelled(Note(c, mark))
  {
  }

  /** Changing the read cipher. */
  lemma ReadChangeGenuine(k: Crypto, server: bool, c: Core)
    requires Genuine(k, server, c)
    ensures Genuine(k, server, ChangeReadCipher(c))
  {
    NoteLabelled(c, ReadChanged);
    GenuineGrows(k, server, c, ChangeReadCipher(c), [ReadChanged]);
  }

  /** A secret is derived before anything else is marked. */
  lemma DerivedGenuine(k: Crypto, server: bool, c: Core, premaster: nat)
    requires Labelled(c) && c.marks == [] && c.hash.Some? && c.hash.value == c.all
    requires c.all != [] && c.all[|c.all| - 1] == ClientKeyExchange(premaster)
    ensures Genuine(k, server, DeriveSecret(k, c, premaster))
  {
  }

  /** Changing the write cipher. */
  lemma WriteChangeGenuine(k: Crypto, server: bool, c: Core)
    requires Genuine(k, server, c)
    ensures Genuine(k, server, ChangeWriteCipher(c))
  {
    NoteLabelled(c, CcsSent);
    NoteLabelled(Note(c, CcsSent), WriteChanged);
    GenuineGrows(k, server, c, ChangeWriteCipher(c), [CcsSent, WriteChanged]);
  }

  /** A Finished over all that was said. */
  lemma SentGenuine(k: Crypto, server: bool, c: Core)
    requires Genuine(k, server, c) && CanFinish(c) && TranscriptOk(c)
    ensures Genuine(k, server, SendFinished(k, c, server))
  {
    NoteLabelled(c, FinishedSent(c.all));
    GenuineGrows(k, server, c, SendFinished(k, c, server), [FinishedSent(c.all)]);
  }

  /** A Finished that is accepted was received, and is the one over all that was said. */
  lemma VerifiedGenuine(k: Crypto, server: bool, c: Core, m: Msg)
    requires Genuine(k, server, c) && CanFinish(c) && TranscriptOk(c) && m.Finished?
    ensures GetFinished(k, c, m, !server).Some? <==> m == Finished((k.mac)(c.secret, c.all, !server))
    ensures GetFinished(k, c, m, !server).Some? ==> Genuine(k, server, GetFinished(k, c, m, !server).value)
  {
    var r := GetFinished(k, c, m, !server);
    if r.Some? {
      NoteLabelled(c, FinishedVerified(c.all));
      GenuineGrows(k, server, c, r.value, [FinishedVerified(c.all)]);
    }
  }

  /** A run that has verified a Finished has received it, and it covers all that had been said. */
  lemma VerifiedIsReceived(k: Crypto, server: bool, c: Core) returns (t: seq<Msg>)
    requires Genuine(k, server, c) && KVerified in c.kinds
    ensures FinishedVerified(t) in c.marks && Received(c, t, Finished((k.mac)(c.secret, t, !server)))
  {
    var i :| 0 <= i < |c.kinds| && c.kinds[i] == KVerified;
    assert KindOf(c.marks[i]) == KVerified;
    t := c.marks[i].t;
    assert Backed(k, server, c, c.marks[i]);
  }

  /** The same for a client's CertificateVerify. */
  lemma CheckedIsReceived(k: Crypto, server: bool, c: Core) returns (t: seq<Msg>)
    requires Genuine(k, server, c) && KChecked in c.kinds
    ensures VerifyChecked(t) in c.marks && Received(c, t, CertificateVerify((k.sign)(t)))
  {
    var i :| 0 <= i < |c.kinds| && c.kinds[i] == KChecked;
    assert KindOf(c.marks[i]) == KChecked;
    t := c.marks[i].t;
    assert Backed(k, server, c, c.marks[i]);
  }
}
