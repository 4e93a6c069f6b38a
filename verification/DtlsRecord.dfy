/**
 The DTLS record layer (dtls_record.cc, and the epoch changes of dtls_method.cc): sealing with one sequence
 counter per epoch, and opening behind the replay window. Ciphers are uninterpreted functions.
 */
module DtlsRecord {
  import opened Basics
  import opened DtlsWire
  import opened DtlsReplay
  import Arith

  const RT_HEADER_LENGTH: nat := 13          // DTLS1_RT_HEADER_LENGTH
  const MAX_ENCRYPTED_LENGTH: nat := 16704   // SSL3_RT_MAX_ENCRYPTED_LENGTH
  const MAX_PLAIN_LENGTH: nat := 16384       // SSL3_RT_MAX_PLAIN_LENGTH
  const TWO_TO_48: nat := 0x1_0000_0000_0000

  // ================= sequence numbers =================

  /** A big-endian counter plus one; the flag tells that it did not wrap around. */
  function Increment(bs: Bytes): (r: (Bytes, bool))
    ensures |r.0| == |bs|
  {
    if bs == [] then ([], false)
    else if bs[|bs| - 1] == 0xff then (Increment(bs[..|bs| - 1]).0 + [0], Increment(bs[..|bs| - 1]).1)
    else (bs[..|bs| - 1] + [bs[|bs| - 1] + 1], true)
  }

  lemma {:induction false} IncrementValue(bs: Bytes)
    ensures Increment(bs).1 <==> FromBigEndian(bs) + 1 < Pow256(|bs|)
    ensures FromBigEndian(Increment(bs).0) == if Increment(bs).1 then FromBigEndian(bs) + 1 else 0
  {
    if bs != [] {
      var init := bs[..|bs| - 1];
      IncrementValue(init);
      FromBigEndianBound(init);
      var r := Increment(bs).0;
      assert r[..|r| - 1] == if bs[|bs| - 1] == 0xff then Increment(init).0 else init;
    }
  }

  /** Six bytes of a sequence number remain below the epoch. */
  lemma SixBytes()
    ensures Pow256(6) == TWO_TO_48
  {
    assert Pow256(3) == TWO_TO_24;
  }

  function Zeros(n: nat): (bs: Bytes)
    ensures |bs| == n
  {
    seq(n, _ => 0)
  }

  lemma {:induction false} ZeroCounter(n: nat)
    ensures FromBigEndian(Zeros(n)) == 0
  {
    if n > 0 {
      assert Zeros(n)[..n - 1] == Zeros(n - 1);
      ZeroCounter(n - 1);
    }
  }

  /** `r` is the result for `bs` if the bytes behind the first `k` have wrapped around to zero. */
  ghost predicate CarriesInto(bs: Bytes, k: nat, r: (Bytes, bool))
    requires k <= |bs|
  {
    r == (Increment(bs[..k]).0 + Zeros(|bs| - k), Increment(bs[..k]).1)
  }

  /** One more carry, or the end of the loop. */
  lemma CarryStep(bs: Bytes, k: nat, r: (Bytes, bool))
    requires k < |bs| && CarriesInto(bs, k + 1, r)
    ensures bs[k] == 0xff ==> CarriesInto(bs, k, r)
    ensures bs[k] != 0xff ==> r == (bs[..k] + [bs[k] + 1] + Zeros(|bs| - (k + 1)), true)
  {
    assert bs[..k + 1][..k] == bs[..k] && bs[..k + 1][k] == bs[k];
    var z := Zeros(|bs| - (k + 1));
    assert [0] + z == Zeros(|bs| - k);
    assert Increment(bs[..k]).0 + [0] + z == Increment(bs[..k]).0 + ([0] + z);
  }

  lemma CarryStart(bs: Bytes)
    ensures CarriesInto(bs, |bs|, Increment(bs))
    ensures CarriesInto(bs, 0, Increment(bs)) ==> Increment(bs) == (Zeros(|bs|), false)
  {
    assert bs[..|bs|] == bs && Increment(bs).0 + Zeros(0) == Increment(bs).0;
    assert [] + Zeros(|bs|) == Zeros(|bs|);
  }

  /** The bytes of the counter when those behind the first `k` have become zero. */
  function Zeroed(bs: Bytes, k: nat): (r: Bytes)
    requires k <= |bs|
    ensures |r| == |bs|
  {
    bs[..k] + Zeros(|bs| - k)
  }

  lemma ZeroedStep(bs: Bytes, k: nat, x: byte)
    requires k < |bs|
    ensures Zeroed(bs, k + 1)[k] == bs[k]
    ensures Zeroed(bs, k + 1)[k := 0] == Zeroed(bs, k)
    ensures Zeroed(bs, k + 1)[k := x] == bs[..k] + [x] + Zeros(|bs| - (k + 1))
  {
  }

  /** Byte `k` has wrapped around: on to the one before it. */
  lemma CarryOver(was: Bytes, k: nat)
    requires k < |was| && was[k] == 0xff && CarriesInto(was, k + 1, Increment(was))
    ensures Zeroed(was, k + 1)[k := 0] == Zeroed(was, k) && CarriesInto(was, k, Increment(was))
  {
    ZeroedStep(was, k, 0);
    CarryStep(was, k, Increment(was));
  }

  /** Byte `k` has not. */
  lemma CarryEnds(was: Bytes, k: nat)
    requires k < |was| && was[k] != 0xff && CarriesInto(was, k + 1, Increment(was))
    ensures (Zeroed(was, k + 1)[k := was[k] + 1], true) == Increment(was)
  {
    ZeroedStep(was, k, was[k] + 1);
    CarryStep(was, k, Increment(was));
  }

  lemma ZeroedEnds(bs: Bytes)
    ensures Zeroed(bs, |bs|) == bs && Zeroed(bs, 0) == Zeros(|bs|)
  {
  }

  /** ssl_record_sequence_update on the bytes of `counter` from `lo` on. */
  method SequenceUpdate(counter: array<byte>, lo: nat) returns (ok: bool)
    requires lo <= counter.Length
    modifies counter
    ensures (counter[lo..], ok) == Increment(old(counter[lo..]))
    ensures counter[..lo] == old(counter[..lo])
  {
    ghost var was := counter[lo..];
    hide Increment, Zeroed, Zeros, CarriesInto;
    CarryStart(was);
    ZeroedEnds(was);
    var i := counter.Length;
    while i > lo
      invariant lo <= i <= counter.Length
      invariant counter[..lo] == old(counter[..lo])
      invariant counter[lo..] == Zeroed(was, i - lo)
      invariant CarriesInto(was, i - lo, Increment(was))
    {
      i := i - 1;
      ghost var k, before := i - lo, counter[lo..];
      ZeroedStep(was, k, 0);
      assert counter[i] == before[k] == was[k];
      var b: int := counter[i];
      counter[i] := (b + 1) % 0x100;
      assert counter[lo..] == before[k := counter[i]];
      if counter[i] != 0 {
        CarryEnds(was, k);
        return true;
      }
      CarryOver(was, k);
    }
    ok := false;
  }

  // ================= sealing =================

  /**
   A write cipher: its overhead is bounded, and it may refuse to seal. It is given the record type, the
   version, the epoch and the number of the record, and the plaintext.
   */
  datatype Aead = Aead(
    recordVersion: nat, maxOverhead: nat, nonceLen: nat,
    seal: (byte, nat, nat, nat, Bytes) -> Option<Bytes>)

  ghost predicate AeadOk(a: Aead) {
    && a.recordVersion < TWO_TO_16 && a.nonceLen <= a.maxOverhead
    && forall t, v, e, n, bs ::
         a.seal(t, v, e, n, bs).Some? ==> |a.seal(t, v, e, n, bs).value| <= |bs| + a.maxOverhead
  }

  /** A sealed record: what it says in the clear, what it protects, and how. */
  datatype Record = Record(rtype: byte, version: nat, epoch: nat, seqno: nat, plaintext: Bytes, ciphertext: Bytes)

  function Length(r: Record): nat {
    RT_HEADER_LENGTH + |r.ciphertext|
  }

  /** The bytes of a record. */
  function Wire(r: Record): (bs: Bytes)
    ensures |bs| == Length(r)
  {
    [r.rtype] + BigEndian(r.version, 2) + BigEndian(r.epoch, 2) + BigEndian(r.seqno, 6)
    + BigEndian(|r.ciphertext|, 2) + r.ciphertext
  }

  /** The write side: the current epoch and its counter, and the counter of the epoch before. */
  datatype WriteState = WriteState(epoch: nat, aead: Aead, lastAead: Aead, counter: nat, lastCounter: nat)

  /** dtls_seal_record: the record, or None where it fails. */
  function Sealed(w: WriteState, maxOut: nat, rtype: byte, input: Bytes, previous: bool): (WriteState, Option<Record>)
    requires previous ==> w.epoch >= 1
  {
    var epoch := if previous then w.epoch - 1 else w.epoch;
    var cipher := if previous then w.lastAead else w.aead;
    var n := if previous then w.lastCounter else w.counter;
    var ciphertext := cipher.seal(rtype, w.aead.recordVersion, epoch, n, input);
    if maxOut < RT_HEADER_LENGTH || ciphertext.None? || RT_HEADER_LENGTH + |ciphertext.value| > maxOut then (w, None)
    else
      var n' := if n + 1 < TWO_TO_48 then n + 1 else 0;
      var w' := if previous then w.(lastCounter := n') else w.(counter := n');
      if n' == 0 || |ciphertext.value| >= TWO_TO_16 then (w', None)
      else (w', Some(Record(rtype, w.aead.recordVersion, epoch, n, input, ciphertext.value)))
  }

  function NextWriteEpoch(w: WriteState, newAead: Aead): WriteState {
    WriteState((w.epoch + 1) % TWO_TO_16, newAead, w.aead, 0, w.counter)
  }

  ghost predicate WriteOk(w: WriteState) {
    && w.epoch < TWO_TO_16 && w.counter < TWO_TO_48 && w.lastCounter < TWO_TO_48
    && AeadOk(w.aead) && AeadOk(w.lastAead)
  }

  class RecordWriter {
    var wEpoch: nat
    var aead: Aead                          // aead_write_ctx
    var lastAead: Aead                      // last_aead_write_ctx
    const writeSequence: array<byte>
    const lastWriteSequence: array<byte>

    ghost predicate Valid()
      reads this, writeSequence, lastWriteSequence
    {
      && writeSequence != lastWriteSequence
      && writeSequence.Length == 8 && lastWriteSequence.Length == 8
      && writeSequence[..2] == [0, 0] && lastWriteSequence[..2] == [0, 0]
      && wEpoch < TWO_TO_16 && AeadOk(aead) && AeadOk(lastAead)
    }

    ghost function View(): WriteState
      requires Valid()
      reads this, writeSequence, lastWriteSequence
    {
      WriteState(wEpoch, aead, lastAead, FromBigEndian(writeSequence[2..]), FromBigEndian(lastWriteSequence[2..]))
    }

    constructor (nullCipher: Aead)
      requires AeadOk(nullCipher)
      ensures Valid() && fresh(writeSequence) && fresh(lastWriteSequence)
      ensures View() == WriteState(0, nullCipher, nullCipher, 0, 0)
    {
      wEpoch, aead, lastAead := 0, nullCipher, nullCipher;
      writeSequence := new byte[8](_ => 0);
      lastWriteSequence := new byte[8](_ => 0);
      new;
      ZeroCounter(6);
      assert writeSequence[2..] == Zeros(6) && lastWriteSequence[2..] == Zeros(6);
    }

    /** dtls_max_seal_overhead and dtls_seal_prefix_len */
    function MaxSealOverhead(previous: bool): nat
      reads this
    {
      RT_HEADER_LENGTH + (if previous then lastAead else aead).maxOverhead
    }

    function SealPrefixLen(previous: bool): nat
      reads this
    {
      RT_HEADER_LENGTH + (if previous then lastAead else aead).nonceLen
    }

    /** dtls_seal_record. On a wrap-around of the counter and on an oversized record the number is spent, too. */
    method Seal(maxOut: nat, rtype: byte, input: Bytes, previous: bool) returns (record: Option<Record>)
      requires Valid() && (previous ==> wEpoch >= 1)
      modifies writeSequence, lastWriteSequence
      ensures Valid()
      ensures (View(), record) == Sealed(old(View()), maxOut, rtype, input, previous)
    {
      hide Increment, FromBigEndian, Pow256;
      var epoch := if previous then wEpoch - 1 else wEpoch;
      var cipher := if previous then lastAead else aead;
      var counter := if previous then lastWriteSequence else writeSequence;
      if maxOut < RT_HEADER_LENGTH {
        return None;
      }
      var seqno: nat := FromBigEndian(counter[2..]);
      var ciphertext := cipher.seal(rtype, aead.recordVersion, epoch, seqno, input);
      if ciphertext.None? || RT_HEADER_LENGTH + |ciphertext.value| > maxOut {
        return None;
      }
      var ok := SequenceUpdate(counter, 2);
      IncrementValue(old(counter[2..]));
      SixBytes();
      if !ok {
        return None;
      }
      if |ciphertext.value| >= TWO_TO_16 {
        return None;
      }
      record := Some(Record(rtype, aead.recordVersion, epoch, seqno, input, ciphertext.value));
    }

    /** dtls1_set_write_state */
    method SetWriteState(newAead: Aead)
      requires Valid() && AeadOk(newAead)
      modifies this, writeSequence, lastWriteSequence
      ensures Valid()
      ensures View() == NextWriteEpoch(old(View()), newAead)
    {
      wEpoch := (wEpoch + 1) % TWO_TO_16;
      for i := 0 to 8
        modifies lastWriteSequence
        invariant forall j :: 0 <= j < i ==> lastWriteSequence[j] == writeSequence[j]
      {
        lastWriteSequence[i] := writeSequence[i];
      }
      assert lastWriteSequence[..2] == [0, 0] by {
        assert lastWriteSequence[..2] == writeSequence[..2];
      }
      assert lastWriteSequence[2..] == old(writeSequence[2..]);
      for i := 0 to 8
        modifies writeSequence
        invariant forall j :: 0 <= j < i ==> writeSequence[j] == 0
      {
        writeSequence[i] := 0;
      }
      ZeroCounter(6);
      assert writeSequence[2..] == Zeros(6) && writeSequence[..2] == [0, 0];
      assert lastWriteSequence[2..] == old(writeSequence[2..]);
      lastAead := aead;
      aead := newAead;
    }
  }

  // ---------- no two records share a number ----------

  datatype WriteEvent = SealRecord(maxOut: nat, rtype: byte, input: Bytes, previous: bool) | NewWriteEpoch(aead: Aead)

  /** The assertion in dtls_seal_record: there is a previous epoch to seal in. */
  predicate MayHappen(w: WriteState, e: WriteEvent) {
    e.SealRecord? && e.previous ==> w.epoch >= 1
  }

  function WriteStep(w: WriteState, e: WriteEvent): (WriteState, seq<Record>)
    requires MayHappen(w, e)
  {
    match e
    case SealRecord(maxOut, rtype, input, previous) =>
      var (w', record) := Sealed(w, maxOut, rtype, input, previous);
      (w', if record.Some? then [record.value] else [])
    case NewWriteEpoch(aead) => (NextWriteEpoch(w, aead), [])
  }

  predicate AllMayHappen(w: WriteState, es: seq<WriteEvent>)
    decreases |es|
  {
    es == [] || (MayHappen(w, es[0]) && AllMayHappen(WriteStep(w, es[0]).0, es[1..]))
  }

  /** All records of a run. */
  function Emitted(w: WriteState, es: seq<WriteEvent>): seq<Record>
    requires AllMayHappen(w, es)
    decreases |es|
  {
    if es == [] then []
    else
      var (w', rs) := WriteStep(w, es[0]);
      rs + Emitted(w', es[1..])
  }

  /** No counter and no epoch number is at its last value when it is used up. */
  predicate NoWrap(w: WriteState, es: seq<WriteEvent>)
    requires AllMayHappen(w, es)
    decreases |es|
  {
    es == [] ||
    ((match es[0]
      case SealRecord(_, _, _, previous) => (if previous then w.lastCounter else w.counter) + 1 < TWO_TO_48
      case NewWriteEpoch(_) => w.epoch + 1 < TWO_TO_16)
     && NoWrap(WriteStep(w, es[0]).0, es[1..]))
  }

  /** The number of `r` lies ahead of what the counters have reached. */
  predicate Ahead(w: WriteState, r: Record) {
    || r.epoch > w.epoch
    || (r.epoch == w.epoch && r.seqno >= w.counter)
    || (r.epoch + 1 == w.epoch && r.seqno >= w.lastCounter)
  }

  /** Numbers are only used up: what is emitted later was ahead before. */
  lemma {:induction false} EmittedAhead(w: WriteState, es: seq<WriteEvent>)
    requires AllMayHappen(w, es) && NoWrap(w, es)
    ensures forall i :: 0 <= i < |Emitted(w, es)| ==> Ahead(w, Emitted(w, es)[i])
    decreases |es|
  {
    if es != [] {
      var (w', rs) := WriteStep(w, es[0]);
      EmittedAhead(w', es[1..]);
      var later := Emitted(w', es[1..]);
      forall i | 0 <= i < |later|
        ensures Ahead(w, later[i])
      {
        assert Ahead(w', later[i]);
      }
    }
  }

  /** Over every run of sealings and epoch changes, retransmission in the previous epoch included. */
  lemma {:induction false} RecordNumbersUnique(w: WriteState, es: seq<WriteEvent>, i: nat, j: nat)
    requires AllMayHappen(w, es) && NoWrap(w, es) && i < j < |Emitted(w, es)|
    ensures var rs := Emitted(w, es); (rs[i].epoch, rs[i].seqno) != (rs[j].epoch, rs[j].seqno)
    decreases |es|
  {
    var (w', rs) := WriteStep(w, es[0]);
    var later := Emitted(w', es[1..]);
    if i < |rs| {
      EmittedAhead(w', es[1..]);
      assert Ahead(w', later[j - 1]) && !Ahead(w', rs[i]);
    } else {
      RecordNumbersUnique(w', es[1..], i - |rs|, j - |rs|);
    }
  }

  /** The ciphers of the epochs from `w.epoch` on: the current one, and those that are installed. */
  function Ciphers(w: WriteState, es: seq<WriteEvent>): (cs: seq<Aead>)
    ensures cs != [] && cs[0] == w.aead
    decreases |es|
  {
    [w.aead] + Installed(es)
  }

  function Installed(es: seq<WriteEvent>): seq<Aead> {
    if es == [] then [] else (if es[0].NewWriteEpoch? then [es[0].aead] else []) + Installed(es[1..])
  }

  /**
   The record was sealed by the cipher of its epoch. Its version is the one of that cipher, or, when it is sent again
   in the epoch after it, of the next.
   */
  predicate InItsEpoch(w: WriteState, cs: seq<Aead>, r: Record)
    requires cs != []
  {
    if r.epoch < w.epoch then
      r.epoch + 1 == w.epoch && SealedBy(r, w.lastAead) && r.version == cs[0].recordVersion
    else
      var i := r.epoch - w.epoch;
      && i < |cs| && SealedBy(r, cs[i])
      && (r.version == cs[i].recordVersion || (i + 1 < |cs| && r.version == cs[i + 1].recordVersion))
  }

  lemma StepInEpoch(w: WriteState, e: WriteEvent, cs: seq<Aead>)
    requires MayHappen(w, e) && cs != [] && cs[0] == w.aead
    ensures forall r :: r in WriteStep(w, e).1 ==> InItsEpoch(w, cs, r)
  {
  }

  lemma LaterInEpoch(w: WriteState, e: WriteEvent, cs: seq<Aead>, r: Record)
    requires MayHappen(w, e) && (e.NewWriteEpoch? ==> w.epoch + 1 < TWO_TO_16)
    requires cs != [] && cs[0] == WriteStep(w, e).0.aead && InItsEpoch(WriteStep(w, e).0, cs, r)
    ensures InItsEpoch(w, if e.NewWriteEpoch? then [w.aead] + cs else cs, r)
  {
    hide SealedBy;
  }

  /** Over every run, retransmission included, each record is sealed by the cipher of its own epoch. */
  lemma {:induction false} EpochsKeepCiphers(w: WriteState, es: seq<WriteEvent>, r: Record)
    requires AllMayHappen(w, es) && NoWrap(w, es) && r in Emitted(w, es)
    ensures InItsEpoch(w, Ciphers(w, es), r)
    decreases |es|
  {
    hide InItsEpoch;
    var (w', rs) := WriteStep(w, es[0]);
    if r in rs {
      StepInEpoch(w, es[0], Ciphers(w, es));
    } else {
      EpochsKeepCiphers(w', es[1..], r);
      LaterInEpoch(w, es[0], Ciphers(w', es[1..]), r);
      assert Ciphers(w, es) == if es[0].NewWriteEpoch? then [w.aead] + Ciphers(w', es[1..]) else Ciphers(w', es[1..]);
    }
  }

  function Epochs(es: seq<WriteEvent>): nat {
    if es == [] then 0 else (if es[0].NewWriteEpoch? then 1 else 0) + Epochs(es[1..])
  }

  /** Fewer than 2^48 records and fewer than 2^16 epochs never wrap a counter. */
  lemma {:induction false} FewRecordsNeverWrap(w: WriteState, es: seq<WriteEvent>)
    requires AllMayHappen(w, es)
    requires w.counter + |es| < TWO_TO_48 && w.lastCounter + |es| < TWO_TO_48 && w.epoch + Epochs(es) < TWO_TO_16
    ensures NoWrap(w, es)
    decreases |es|
  {
    if es != [] {
      FewRecordsNeverWrap(WriteStep(w, es[0]).0, es[1..]);
    }
  }

  /** The last number of an epoch is never sent, and the counter then starts over: the bound is needed. */
  lemma WrappedCounterStartsOver(w: WriteState, maxOut: nat, rtype: byte, input: Bytes)
    requires w.counter == TWO_TO_48 - 1
    ensures Sealed(w, maxOut, rtype, input, false).1.None?
    ensures var w' := Sealed(w, maxOut, rtype, input, false).0;
            var r := Sealed(w', maxOut, rtype, input, false).1;
            w' != w && r.Some? ==> r.value.seqno == 0 && r.value.epoch == w.epoch
  {
  }

  function Again(e: WriteEvent, n: nat): seq<WriteEvent> {
    if n == 0 then [] else [e] + Again(e, n - 1)
  }

  /** The cipher never refuses this record. */
  ghost predicate AlwaysSeals(w: WriteState, e: WriteEvent) {
    && e.SealRecord? && !e.previous && RT_HEADER_LENGTH <= e.maxOut
    && forall n: nat ::
         var sealed := w.aead.seal(e.rtype, w.aead.recordVersion, w.epoch, n, e.input);
         sealed.Some? && |sealed.value| < TWO_TO_16 && RT_HEADER_LENGTH + |sealed.value| <= e.maxOut
  }

  /** A run past the last number of an epoch ends with number 0. */
  lemma {:induction false} RunPastTheEnd(w: WriteState, e: WriteEvent, left: nat)
    requires AlwaysSeals(w, e) && w.counter + left == TWO_TO_48 - 1
    ensures AllMayHappen(w, Again(e, left + 2)) && |Emitted(w, Again(e, left + 2))| == left + 1
    ensures var rs := Emitted(w, Again(e, left + 2));
            && rs[left].epoch == w.epoch && rs[left].seqno == 0
            && (left > 0 ==> rs[0].epoch == w.epoch && rs[0].seqno == w.counter)
    decreases left
  {
    var (w', rs) := WriteStep(w, e);
    AgainUnfolds(w, e, left + 2);
    if left > 0 {
      RunPastTheEnd(w', e, left - 1);
    } else {
      WrappedCounterStartsOver(w, e.maxOut, e.rtype, e.input);
      AgainUnfolds(w', e, 1);
      assert Again(e, 0) == [];
    }
    hide Again, Emitted, AllMayHappen;
  }

  lemma AgainUnfolds(w: WriteState, e: WriteEvent, n: nat)
    requires MayHappen(w, e) && n > 0
    ensures AllMayHappen(w, Again(e, n)) <==> AllMayHappen(WriteStep(w, e).0, Again(e, n - 1))
    ensures AllMayHappen(w, Again(e, n)) ==>
              Emitted(w, Again(e, n)) == WriteStep(w, e).1 + Emitted(WriteStep(w, e).0, Again(e, n - 1))
  {
    assert Again(e, n)[0] == e && Again(e, n)[1..] == Again(e, n - 1);
    hide Sealed;
  }

  /** 2^48 + 1 records in one epoch: the last one has the number of the first. */
  lemma WrappedCounterRepeats(w: WriteState, e: WriteEvent)
    requires AlwaysSeals(w, e) && w.counter == 0
    ensures AllMayHappen(w, Again(e, TWO_TO_48 + 1)) && |Emitted(w, Again(e, TWO_TO_48 + 1))| == TWO_TO_48
    ensures var rs := Emitted(w, Again(e, TWO_TO_48 + 1));
            (rs[0].epoch, rs[0].seqno) == (rs[TWO_TO_48 - 1].epoch, rs[TWO_TO_48 - 1].seqno)
  {
    hide Emitted, AllMayHappen, Again, AlwaysSeals;
    RunPastTheEnd(w, e, TWO_TO_48 - 1);
  }

  // ================= opening =================

  /** A read cipher: `open` is None for a record that was not sealed with its key. */
  datatype ReadCipher = ReadCipher(isNull: bool, recordVersion: nat, open: (byte, nat, nat, nat, Bytes) -> Option<Bytes>)

  datatype Verdict = OpenSuccess | OpenDiscard | OpenPartial | OpenAlert | OpenOverflow

  datatype Opening = Opening(verdict: Verdict, rtype: byte, plaintext: Bytes, consumed: nat)

  datatype RawRecord = RawRecord(rtype: byte, version: nat, sequence: Bytes, body: Bytes)

  function Unsealed(cipher: ReadCipher, raw: RawRecord): Option<Bytes>
    requires |raw.sequence| == 8
  {
    cipher.open(raw.rtype, raw.version, FromBigEndian(raw.sequence[..2]), FromBigEndian(raw.sequence[2..]), raw.body)
  }

  /** The record header and body at the front of a datagram. */
  function ParseRecord(bs: Bytes): (r: Option<RawRecord>)
    ensures r.Some? ==> |r.value.sequence| == 8 && RT_HEADER_LENGTH + |r.value.body| <= |bs|
  {
    if |bs| < RT_HEADER_LENGTH then None
    else
      var len := FromBigEndian(bs[11..13]);
      if |bs| - RT_HEADER_LENGTH < len || len > MAX_ENCRYPTED_LENGTH then None
      else
        Some(RawRecord(bs[0], FromBigEndian(bs[1..3]), bs[3..11], bs[RT_HEADER_LENGTH..RT_HEADER_LENGTH + len]))
  }

  predicate VersionOk(cipher: ReadCipher, version: nat) {
    if cipher.isNull then version / 0x100 == 0xfe else version == cipher.recordVersion
  }

  /** The replay filter: the current epoch and every number recorded in it. Numbers include the epoch on top. */
  datatype ReadState = ReadState(epoch: nat, max: nat, seen: set<nat>)

  predicate Filtered(st: ReadState, sequence: Bytes)
    requires |sequence| == 8
  {
    var n := FromBigEndian(sequence);
    FromBigEndian(sequence[..2]) != st.epoch || n in st.seen || n + WINDOW_SIZE <= st.max
  }

  function Recorded(st: ReadState, n: nat): ReadState {
    st.(max := if n > st.max then n else st.max, seen := st.seen + {n})
  }

  /** dtls_open_record while the read side is open */
  function Opened(st: ReadState, cipher: ReadCipher, bs: Bytes): (ReadState, Opening) {
    if bs == [] then (st, Opening(OpenPartial, 0, [], 0))
    else
      match ParseRecord(bs)
      case None => (st, Opening(OpenDiscard, 0, [], |bs|))
      case Some(raw) =>
        var consumed := RT_HEADER_LENGTH + |raw.body|;
        if !VersionOk(cipher, raw.version) then (st, Opening(OpenDiscard, 0, [], |bs|))
        else if Filtered(st, raw.sequence) then (st, Opening(OpenDiscard, 0, [], consumed))
        else
          match Unsealed(cipher, raw)
          case None => (st, Opening(OpenDiscard, 0, [], consumed))
          case Some(plaintext) =>
            if |plaintext| > MAX_PLAIN_LENGTH then (st, Opening(OpenOverflow, 0, [], consumed))
            else
              (Recorded(st, FromBigEndian(raw.sequence)),
               Opening(if raw.rtype == RT_ALERT then OpenAlert else OpenSuccess, raw.rtype, plaintext, consumed))
  }

  function NextReadEpoch(st: ReadState): ReadState {
    ReadState((st.epoch + 1) % TWO_TO_16, 0, {})
  }

  class RecordReader {
    var rEpoch: nat
    const bitmap: Bitmap

    ghost predicate Valid()
      reads this, bitmap
    {
      rEpoch < TWO_TO_16 && bitmap.Valid()
    }

    ghost function View(): ReadState
      reads this, bitmap
    {
      ReadState(rEpoch, bitmap.maxSeqNum, bitmap.seen)
    }

    constructor ()
      ensures Valid() && fresh(bitmap) && View() == ReadState(0, 0, {})
    {
      rEpoch := 0;
      bitmap := new Bitmap();
    }

    /** dtls_open_record */
    method Open(cipher: ReadCipher, bs: Bytes) returns (out: Opening)
      requires Valid()
      modifies bitmap
      ensures Valid() && (View(), out) == Opened(old(View()), cipher, bs)
    {
      if bs == [] {
        return Opening(OpenPartial, 0, [], 0);
      }
      var record := ParseRecord(bs);
      if record.None? || !VersionOk(cipher, record.value.version) {
        return Opening(OpenDiscard, 0, [], |bs|);
      }
      var raw := record.value;
      var consumed := RT_HEADER_LENGTH + |raw.body|;
      var discard := bitmap.ShouldDiscard(raw.sequence);
      if FromBigEndian(raw.sequence[..2]) != rEpoch || discard {
        return Opening(OpenDiscard, 0, [], consumed);
      }
      var plaintext := Unsealed(cipher, raw);
      if plaintext.None? {
        return Opening(OpenDiscard, 0, [], consumed);
      }
      if |plaintext.value| > MAX_PLAIN_LENGTH {
        return Opening(OpenOverflow, 0, [], consumed);
      }
      bitmap.Record(raw.sequence);
      out := Opening(if raw.rtype == RT_ALERT then OpenAlert else OpenSuccess, raw.rtype, plaintext.value, consumed);
    }

    /** dtls1_set_read_state, the part that concerns the record layer */
    method SetReadState()
      requires Valid()
      modifies this, bitmap
      ensures Valid() && View() == NextReadEpoch(old(View()))
    {
      rEpoch := (rEpoch + 1) % TWO_TO_16;
      bitmap.Clear();
    }
  }

  // ---------- which bytes are accepted ----------

  /** The two bytes at `i` as a number. */
  function Word(bs: Bytes, i: nat): nat
    requires i + 2 <= |bs|
  {
    var high: int := bs[i];
    0x100 * high + bs[i + 1]
  }

  /** A record of the current epoch and of a version the connection speaks is at the front of the datagram. */
  predicate HasRecord(st: ReadState, cipher: ReadCipher, bs: Bytes) {
    && |bs| >= 13 && Word(bs, 11) <= 16704 && 13 + Word(bs, 11) <= |bs|
    && (if cipher.isNull then bs[1] == 0xfe else Word(bs, 1) == cipher.recordVersion)
    && Word(bs, 3) == st.epoch
  }

  /** What the cipher makes of it, given its type, version, epoch and number. */
  function Content(cipher: ReadCipher, bs: Bytes): Option<Bytes>
    requires |bs| >= 13 && 13 + Word(bs, 11) <= |bs|
  {
    cipher.open(bs[0], Word(bs, 1), Word(bs, 3), FromBigEndian(bs[5..11]), bs[13..13 + Word(bs, 11)])
  }

  /** The number has neither been used nor fallen out of the window of 64. */
  predicate IsNew(st: ReadState, n: nat) {
    n !in st.seen && st.max < n + 64
  }

  lemma {:induction false} WordIsBigEndian(bs: Bytes, i: nat)
    requires i + 2 <= |bs|
    ensures FromBigEndian(bs[i..i + 2]) == Word(bs, i)
  {
    var w := bs[i..i + 2];
    assert w[..1] == [bs[i]] && w[1] == bs[i + 1];
    assert w[..1][..0] == [];
    assert FromBigEndian(w[..1]) == bs[i];
  }

  lemma SequenceWords(bs: Bytes)
    requires |bs| >= 13
    ensures FromBigEndian(bs[3..11][..2]) == Word(bs, 3) && bs[3..11][2..] == bs[5..11]
  {
    assert bs[3..11][..2] == bs[3..5];
    WordIsBigEndian(bs, 3);
  }

  /** The major version byte. */
  lemma VersionWord(cipher: ReadCipher, bs: Bytes)
    requires |bs| >= 13
    ensures VersionOk(cipher, Word(bs, 1)) <==>
              if cipher.isNull then bs[1] == 0xfe else Word(bs, 1) == cipher.recordVersion
  {
  }

  /** Whatever the bytes are: a record gets through exactly like this, and no other bytes leave a trace. */
  lemma AcceptsExactly(st: ReadState, cipher: ReadCipher, bs: Bytes)
    ensures var (st', out) := Opened(st, cipher, bs);
            if HasRecord(st, cipher, bs) && IsNew(st, FromBigEndian(bs[3..11]))
               && Content(cipher, bs).Some? && |Content(cipher, bs).value| <= 16384
            then
              && st' == Recorded(st, FromBigEndian(bs[3..11]))
              && out == Opening(if bs[0] == 21 then OpenAlert else OpenSuccess, bs[0], Content(cipher, bs).value,
                                13 + Word(bs, 11))
            else st' == st && out.verdict != OpenSuccess && out.verdict != OpenAlert
  {
    hide FromBigEndian;
    if |bs| >= 13 {
      WordIsBigEndian(bs, 11);
      WordIsBigEndian(bs, 1);
      SequenceWords(bs);
      VersionWord(cipher, bs);
      hide Word, VersionOk;
    }
  }

  // ---------- no record is accepted twice ----------

  datatype ReadEvent = Arrive(cipher: ReadCipher, bytes: Bytes) | NewReadEpoch

  predicate Accepts(st: ReadState, cipher: ReadCipher, bs: Bytes) {
    Opened(st, cipher, bs).1.verdict in {OpenSuccess, OpenAlert}
  }

  /** The number, epoch included, of the record at the front of a datagram. */
  function Number(bs: Bytes): nat
    requires ParseRecord(bs).Some?
  {
    FromBigEndian(ParseRecord(bs).value.sequence)
  }

  function ReadStep(st: ReadState, e: ReadEvent): (ReadState, seq<nat>) {
    match e
    case Arrive(cipher, bs) => (Opened(st, cipher, bs).0, if Accepts(st, cipher, bs) then [Number(bs)] else [])
    case NewReadEpoch => (NextReadEpoch(st), [])
  }

  /** The numbers of the records a run accepts. */
  function AcceptedNumbers(st: ReadState, es: seq<ReadEvent>): seq<nat>
    decreases |es|
  {
    if es == [] then []
    else
      var (st', ns) := ReadStep(st, es[0]);
      ns + AcceptedNumbers(st', es[1..])
  }

  function ReadEpochs(es: seq<ReadEvent>): nat {
    if es == [] then 0 else (if es[0].NewReadEpoch? then 1 else 0) + ReadEpochs(es[1..])
  }

  /** A big-endian number is its upper bytes, then its lower ones. */
  lemma {:induction false} BigEndianSplit(bs: Bytes, k: nat)
    requires k <= |bs|
    ensures FromBigEndian(bs) / Pow256(|bs| - k) == FromBigEndian(bs[..k])
    decreases |bs|
  {
    if k == |bs| {
      assert bs[..k] == bs;
    } else {
      var init := bs[..|bs| - 1];
      BigEndianSplit(init, k);
      assert init[..k] == bs[..k];
      Arith.DivideTwice(FromBigEndian(init), bs[|bs| - 1], Pow256(|init| - k));
    }
  }

  lemma EpochOnTop(sequence: Bytes)
    requires |sequence| == 8
    ensures FromBigEndian(sequence) / TWO_TO_48 == FromBigEndian(sequence[..2])
  {
    BigEndianSplit(sequence, 2);
    SixBytes();
  }

  /** What is accepted later belongs to a later epoch or has not been recorded in this one. */
  lemma {:induction false} AcceptedLater(st: ReadState, es: seq<ReadEvent>)
    requires st.epoch + ReadEpochs(es) < TWO_TO_16
    ensures forall n :: n in AcceptedNumbers(st, es) ==>
              n / TWO_TO_48 >= st.epoch && n !in st.seen
    requires forall n :: n in st.seen ==> n / TWO_TO_48 == st.epoch
    decreases |es|
  {
    if es != [] {
      AcceptedStep(st, es[0]);
      AcceptedLater(ReadStep(st, es[0]).0, es[1..]);
    }
  }

  lemma AcceptedStep(st: ReadState, e: ReadEvent)
    requires forall n :: n in st.seen ==> n / TWO_TO_48 == st.epoch
    requires e.NewReadEpoch? ==> st.epoch + 1 < TWO_TO_16
    ensures var (st', ns) := ReadStep(st, e);
            && (forall n :: n in st'.seen ==> n / TWO_TO_48 == st'.epoch)
            && (if e.NewReadEpoch? then st'.epoch == st.epoch + 1 && ns == []
                else st'.epoch == st.epoch && st.seen <= st'.seen && |ns| <= 1
                     && forall n :: n in ns ==> n / TWO_TO_48 == st.epoch && n !in st.seen && n in st'.seen)
  {
    if e.Arrive? && Accepts(st, e.cipher, e.bytes) {
      EpochOnTop(ParseRecord(e.bytes).value.sequence);
    }
  }

  /** Over the whole connection, whatever arrives, no number is accepted twice. */
  lemma {:induction false} AcceptedOnce(st: ReadState, es: seq<ReadEvent>, i: nat, j: nat)
    requires st.epoch + ReadEpochs(es) < TWO_TO_16
    requires forall n :: n in st.seen ==> n / TWO_TO_48 == st.epoch
    requires i < j < |AcceptedNumbers(st, es)|
    ensures AcceptedNumbers(st, es)[i] != AcceptedNumbers(st, es)[j]
    decreases |es|
  {
    var (st', ns) := ReadStep(st, es[0]);
    AcceptedStep(st, es[0]);
    var later := AcceptedNumbers(st', es[1..]);
    if i < |ns| {
      AcceptedLater(st', es[1..]);
      assert ns[i] in ns && later[j - |ns|] in later;
    } else {
      AcceptedOnce(st', es[1..], i - |ns|, j - |ns|);
    }
  }

  // ---------- the two sides fit together ----------

  /** The read cipher undoes the write cipher. */
  ghost predicate Undoes(cipher: ReadCipher, a: Aead) {
    && (if cipher.isNull then a.recordVersion / 0x100 == 0xfe else a.recordVersion == cipher.recordVersion)
    && forall t, v, e, n, bs ::
         a.seal(t, v, e, n, bs).Some? ==> cipher.open(t, v, e, n, a.seal(t, v, e, n, bs).value) == Some(bs)
  }

  /** The number of a record as the replay filter sees it. */
  function FullNumber(r: Record): nat {
    FromBigEndian(BigEndian(r.epoch, 2) + BigEndian(r.seqno, 6))
  }

  /** The fields of the header are as wide as they are on the wire. */
  predicate RecordOk(r: Record) {
    r.version < TWO_TO_16 && r.epoch < TWO_TO_16 && r.seqno < TWO_TO_48 && |r.ciphertext| < TWO_TO_16
  }

  lemma Middle(a: Bytes, b: Bytes, c: Bytes)
    ensures (a + b + c)[|a|..|a| + |b|] == b
  {
  }

  lemma VersionSlice(r: Record, rest: Bytes)
    ensures (Wire(r) + rest)[0] == r.rtype && (Wire(r) + rest)[1..3] == BigEndian(r.version, 2)
  {
    var behind := BigEndian(r.epoch, 2) + BigEndian(r.seqno, 6) + BigEndian(|r.ciphertext|, 2) + r.ciphertext + rest;
    assert Wire(r) + rest == [r.rtype] + BigEndian(r.version, 2) + behind;
    Middle([r.rtype], BigEndian(r.version, 2), behind);
  }

  lemma SequenceSlice(r: Record, rest: Bytes)
    ensures (Wire(r) + rest)[3..11] == BigEndian(r.epoch, 2) + BigEndian(r.seqno, 6)
  {
    var before, sequence := [r.rtype] + BigEndian(r.version, 2), BigEndian(r.epoch, 2) + BigEndian(r.seqno, 6);
    var behind := BigEndian(|r.ciphertext|, 2) + r.ciphertext + rest;
    assert Wire(r) + rest == before + sequence + behind;
    Middle(before, sequence, behind);
  }

  lemma BodySlice(r: Record, rest: Bytes)
    ensures (Wire(r) + rest)[11..13] == BigEndian(|r.ciphertext|, 2)
    ensures (Wire(r) + rest)[RT_HEADER_LENGTH..RT_HEADER_LENGTH + |r.ciphertext|] == r.ciphertext
  {
    var before := [r.rtype] + BigEndian(r.version, 2) + BigEndian(r.epoch, 2) + BigEndian(r.seqno, 6);
    var len := BigEndian(|r.ciphertext|, 2);
    assert Wire(r) + rest == before + len + (r.ciphertext + rest);
    Middle(before, len, r.ciphertext + rest);
    assert Wire(r) + rest == before + len + r.ciphertext + rest;
    Middle(before + len, r.ciphertext, rest);
  }

  /** The header of a record reads back; only a body that is too long is refused. */
  lemma RecordParses(r: Record, rest: Bytes)
    requires RecordOk(r)
    ensures ParseRecord(Wire(r) + rest)
         == if |r.ciphertext| > MAX_ENCRYPTED_LENGTH then None
            else Some(RawRecord(r.rtype, r.version, BigEndian(r.epoch, 2) + BigEndian(r.seqno, 6), r.ciphertext))
  {
    hide Wire, BigEndian, FromBigEndian;
    VersionSlice(r, rest);
    SequenceSlice(r, rest);
    BodySlice(r, rest);
    assert Pow256(2) == TWO_TO_16;
    BigEndianRoundTrip(r.version, 2);
    BigEndianRoundTrip(|r.ciphertext|, 2);
  }

  /** Where each byte of a record header stands (section 4.1 of RFC 6347). */
  lemma RecordLayout(r: Record, i: nat)
    requires i < 13
    ensures Wire(r)[i] ==
      if i == 0 then r.rtype
      else if i < 3 then r.version / Pow256(2 - i) % 0x100
      else if i < 5 then r.epoch / Pow256(4 - i) % 0x100
      else if i < 11 then r.seqno / Pow256(10 - i) % 0x100
      else |r.ciphertext| / Pow256(12 - i) % 0x100
  {
    hide BigEndian, Pow256;
    if 0 < i < 3 {
      BigEndianByte(r.version, 2, 2 - i);
    } else if 3 <= i < 5 {
      BigEndianByte(r.epoch, 2, 4 - i);
    } else if 5 <= i < 11 {
      BigEndianByte(r.seqno, 6, 10 - i);
    } else if 11 <= i {
      BigEndianByte(|r.ciphertext|, 2, 12 - i);
    }
  }

  lemma SequenceParses(r: Record)
    requires RecordOk(r)
    ensures var sequence := BigEndian(r.epoch, 2) + BigEndian(r.seqno, 6);
            FromBigEndian(sequence[..2]) == r.epoch && FromBigEndian(sequence[2..]) == r.seqno
  {
    var sequence := BigEndian(r.epoch, 2) + BigEndian(r.seqno, 6);
    Pow256Values();
    SixBytes();
    BigEndianRoundTrip(r.epoch, 2);
    BigEndianRoundTrip(r.seqno, 6);
    assert sequence[..2] == BigEndian(r.epoch, 2) && sequence[2..] == BigEndian(r.seqno, 6);
  }

  predicate SealedBy(r: Record, a: Aead) {
    a.seal(r.rtype, r.version, r.epoch, r.seqno, r.plaintext) == Some(r.ciphertext)
  }

  /** Sealing keeps the ciphers, and one of them sealed the record. */
  lemma SealedByWriter(w: WriteState, maxOut: nat, rtype: byte, input: Bytes, previous: bool)
    requires WriteOk(w) && (previous ==> w.epoch >= 1)
    ensures var (w', r) := Sealed(w, maxOut, rtype, input, previous);
            && WriteOk(w') && w'.aead == w.aead && w'.lastAead == w.lastAead && w'.epoch == w.epoch
            && (r.Some? ==> RecordOk(r.value) && SealedBy(r.value, if previous then w.lastAead else w.aead))
  {
  }

  /** A sealed record is dropped, or it opens to what was sealed. */
  lemma OpensToPlaintext(r: Record, a: Aead, st: ReadState, cipher: ReadCipher, rest: Bytes)
    requires RecordOk(r) && SealedBy(r, a) && Undoes(cipher, a)
    ensures var out := Opened(st, cipher, Wire(r) + rest).1;
            out.verdict.OpenSuccess? ==> out.rtype == r.rtype && out.plaintext == r.plaintext
  {
    RecordParses(r, rest);
    SequenceParses(r);
    hide Wire, ParseRecord, BigEndian, FromBigEndian;
  }

  /** What was sealed opens to its plaintext, unless its epoch is over or its number is used up or too old. */
  lemma SealedOpens(r: Record, a: Aead, st: ReadState, cipher: ReadCipher, rest: Bytes)
    requires RecordOk(r) && SealedBy(r, a) && Undoes(cipher, a) && r.version == a.recordVersion
    requires |r.plaintext| <= MAX_PLAIN_LENGTH && |r.ciphertext| <= MAX_ENCRYPTED_LENGTH && r.rtype != RT_ALERT
    ensures Opened(st, cipher, Wire(r) + rest)
         == if r.epoch != st.epoch || FullNumber(r) in st.seen || FullNumber(r) + WINDOW_SIZE <= st.max
            then (st, Opening(OpenDiscard, 0, [], Length(r)))
            else (Recorded(st, FullNumber(r)), Opening(OpenSuccess, r.rtype, r.plaintext, Length(r)))
  {
    RecordParses(r, rest);
    SequenceParses(r);
    hide Wire, ParseRecord, BigEndian, FromBigEndian;
  }
}
