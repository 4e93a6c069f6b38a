/**
 Resumable writes of application data (s3_pkt.cc): a write that blocks is repeated by the caller, and goes on
 where it stopped, without sealing a byte twice or skipping one.
 */
module AppData {
  import opened Basics

  type Bytes = seq<byte>

  const MAX_PLAIN_LENGTH: nat := 16384    // SSL3_RT_MAX_PLAIN_LENGTH

  /** How sealing and flushing turn out. */
  datatype Io = SealFails | Blocks | Flushes

  function Joined(records: seq<Bytes>): Bytes {
    if records == [] then [] else Joined(records[..|records| - 1]) + records[|records| - 1]
  }

  lemma JoinedOne(records: seq<Bytes>, r: Bytes)
    ensures Joined(records + [r]) == Joined(records) + r
  {
    assert (records + [r])[..|records|] == records;
  }

  /** The records sealed since `from` are the first bytes of `data`: `tot` of them, and `waiting` more. */
  predicate Placed(data: Bytes, from: nat, sealed: seq<Bytes>, tot: nat, waiting: nat) {
    from <= |sealed| && tot + waiting <= |data| && Joined(sealed[from..]) == data[..tot + waiting]
  }

  /** No record is empty or longer than allowed. */
  predicate Within(sealed: seq<Bytes>, max: nat) {
    forall i :: 0 <= i < |sealed| ==> 0 < |sealed[i]| <= max
  }

  /** Record `i` was cut by the fragment size, by the end of the data, or by the cap on early data. */
  predicate Full(data: Bytes, from: nat, sealed: seq<Bytes>, i: nat, max: nat, limit: Option<nat>) {
    && from <= i < |sealed|
    && (|sealed[i]| == max || Joined(sealed[from..i + 1]) == data || limit == Some(|Joined(sealed[..i + 1])|))
  }

  /** So was every record after the first `before`. */
  predicate AllFull(data: Bytes, from: nat, before: nat, sealed: seq<Bytes>, max: nat, limit: Option<nat>) {
    forall i: nat :: before <= i < |sealed| ==> Full(data, from, sealed, i, max, limit)
  }

  lemma NoneYet(data: Bytes, from: nat, sealed: seq<Bytes>, max: nat, limit: Option<nat>)
    ensures AllFull(data, from, |sealed|, sealed, max, limit)
  {
  }

  lemma AllFullMore(data: Bytes, from: nat, before: nat, sealed: seq<Bytes>, r: Bytes, max: nat, limit: Option<nat>)
    requires AllFull(data, from, before, sealed, max, limit) && Full(data, from, sealed + [r], |sealed|, max, limit)
    ensures AllFull(data, from, before, sealed + [r], max, limit)
  {
    forall i: nat | before <= i < |sealed|
      ensures Full(data, from, sealed + [r], i, max, limit)
    {
      assert Full(data, from, sealed, i, max, limit);
      assert (sealed + [r])[from..i + 1] == sealed[from..i + 1] && (sealed + [r])[..i + 1] == sealed[..i + 1];
    }
  }

  class Writer {
    const maxSendFragment: nat
    const partialWrite: bool              // SSL_MODE_ENABLE_PARTIAL_WRITE
    const movingBuffer: bool              // SSL_MODE_ACCEPT_MOVING_WRITE_BUFFER
    const earlyLimit: nat                 // ticket_max_early_data
    var wnum: nat
    var pending: bool                     // wpend_pending
    var pendTot: nat                      // wpend_tot, and wpend_ret
    var pendBuf: nat                      // wpend_buf, as an address
    var early: bool                       // in early data, and can_early_write
    var earlyWritten: nat                 // early_data_written
    var sealed: seq<Bytes>                // the plaintexts sealed so far, a history

    /** What is sealed and not flushed yet. */
    ghost function Waiting(): nat
      reads this`pending, this`pendTot
    {
      if pending then pendTot else 0
    }

    /** As long as early data is on, everything sealed is early data: it is counted once flushed, and capped. */
    ghost predicate Valid()
      reads this`pending, this`pendTot, this`early, this`earlyWritten, this`sealed
    {
      && 0 < maxSendFragment <= MAX_PLAIN_LENGTH
      && Within(sealed, maxSendFragment)
      && earlyWritten <= earlyLimit
      && (early ==> |Joined(sealed)| == earlyWritten + Waiting() <= earlyLimit)
      && (pending ==> 0 < pendTot <= maxSendFragment)
    }

    /** `tot` bytes are flushed; the records sealed since `from` are those bytes of `data` and what is pending. */
    ghost predicate At(ptr: nat, data: Bytes, from: nat, tot: nat)
      reads this`pending, this`pendTot, this`pendBuf, this`sealed
    {
      Placed(data, from, sealed, tot, Waiting()) && (pending ==> pendBuf == ptr + tot)
    }

    /** A write of `data` is under way, and may be called again. */
    ghost predicate Writing(ptr: nat, data: Bytes, from: nat)
      reads this
    {
      At(ptr, data, from, wnum)
    }

    constructor (fragment: nat, partialWrites: bool, moving: bool, inEarlyData: bool, limit: nat)
      requires 0 < fragment <= MAX_PLAIN_LENGTH
      ensures Valid() && sealed == [] && wnum == 0 && !pending
      ensures forall ptr: nat, data: Bytes :: Writing(ptr, data, 0)
    {
      maxSendFragment, partialWrite, movingBuffer, earlyLimit := fragment, partialWrites, moving, limit;
      wnum, pending, pendTot, pendBuf, early, earlyWritten, sealed := 0, false, 0, 0, inEarlyData, 0, [];
    }

    /** ssl3_write_pending; -1 and 0 are errors and retries alike. */
    method WritePending(ptr: nat, len: nat, flushes: bool) returns (ret: int)
      requires pending && 0 < pendTot
      modifies this`pending
      ensures ret > 0 <==> pendTot <= len && (movingBuffer || pendBuf == ptr) && flushes
      ensures pending == (ret <= 0) && (ret > 0 ==> ret == pendTot)
    {
      if pendTot > len || (!movingBuffer && pendBuf != ptr) {
        return -1;
      }
      if !flushes {
        return -1;
      }
      pending := false;
      ret := pendTot;
    }

    /** do_ssl3_write: flushes what is pending, or seals one record and flushes that. */
    method DoWrite(ptr: nat, piece: Bytes, io: Io) returns (ret: int)
      requires pending ==> 0 < pendTot
      modifies this`pending, this`pendTot, this`pendBuf, this`sealed
      ensures old(pending) ==> sealed == old(sealed) && pendTot == old(pendTot) && pendBuf == old(pendBuf)
                               && pending == (ret <= 0) && (ret > 0 ==> ret == pendTot <= |piece|)
      ensures old(pending) && pendTot <= |piece| && pendBuf == ptr && io.Flushes? ==> ret > 0
      ensures !old(pending) && (piece == [] || |piece| > MAX_PLAIN_LENGTH || io.SealFails?) ==>
                ret <= 0 && !pending && sealed == old(sealed)
      ensures !old(pending) && 0 < |piece| <= MAX_PLAIN_LENGTH && !io.SealFails? ==>
                && sealed == old(sealed) + [piece]
                && pendTot == |piece| && pendBuf == ptr && pending == (ret <= 0) && (ret > 0 ==> ret == |piece|)
                && (ret > 0 <==> io.Flushes?)
    {
      if pending {
        ret := WritePending(ptr, |piece|, io.Flushes?);
        return;
      }
      if |piece| > MAX_PLAIN_LENGTH {
        return -1;
      }
      if piece == [] {
        return 0;
      }
      if io.SealFails? {
        return -1;
      }
      sealed := sealed + [piece];
      pendTot, pendBuf, pending := |piece|, ptr, true;
      ret := WritePending(ptr, |piece|, io.Flushes?);
    }

    /** The largest piece that may be sealed now, cut short by the early data limit. */
    function Max(): (max: nat)
      requires early ==> earlyWritten <= earlyLimit
      reads this
      ensures max <= maxSendFragment && (early ==> earlyWritten + max <= earlyLimit)
    {
      if early && maxSendFragment > earlyLimit - earlyWritten then earlyLimit - earlyWritten else maxSendFragment
    }

    ghost function Cap(): Option<nat>
      reads this`early
    {
      if early then Some(earlyLimit) else None
    }

    /** One round of the loop of ssl3_write_app_data: the piece behind the first `tot` bytes. */
    method WritePiece(ptr: nat, data: Bytes, tot: nat, io: Io, ghost from: nat) returns (ret: int)
      requires Valid() && tot <= |data| && Max() > 0
      modifies this`pending, this`pendTot, this`pendBuf, this`sealed, this`earlyWritten
      ensures Valid() && |sealed| >= |old(sealed)| && sealed[..|old(sealed)|] == old(sealed)
      ensures ret > 0 ==> tot + ret <= |data| && !pending
      ensures old(At(ptr, data, from, tot)) ==> At(ptr, data, from, if ret > 0 then tot + ret else tot)
      ensures old(At(ptr, data, from, tot)) && tot < |data| && io.Flushes? ==> ret > 0
      ensures !early ==> earlyWritten == old(earlyWritten)
      ensures |sealed| > |old(sealed)| ==> |sealed| == |old(sealed)| + 1
      ensures |sealed| > |old(sealed)| && old(At(ptr, data, from, tot)) ==>
                Full(data, from, sealed, |old(sealed)|, maxSendFragment, Cap())
    {
      hide Joined, Placed, Within;
      var n := |data| - tot;
      var nw := if n > Max() then Max() else n;
      var piece := data[tot..tot + nw];
      ret := DoWrite(ptr + tot, piece, io);
      if |sealed| > |old(sealed)| {
        SealedOne(old(sealed), sealed, piece, maxSendFragment);
        if old(At(ptr, data, from, tot)) {
          SealedMore(data, from, old(sealed), sealed, tot, nw);
          assert sealed[from..|sealed|] == sealed[from..] && sealed[..|sealed|] == sealed;
        }
      }
      if old(At(ptr, data, from, tot)) && (ret > 0 || old(pending)) {
        FlushedMore(data, from, sealed, tot, pendTot);
      }
      if ret > 0 && early {
        earlyWritten := earlyWritten + ret;
      }
    }

    static lemma SealedOne(before: seq<Bytes>, after: seq<Bytes>, piece: Bytes, max: nat)
      requires Within(before, max) && 0 < |piece| <= max && after == before + [piece]
      ensures Within(after, max) && after[..|before|] == before && |Joined(after)| == |Joined(before)| + |piece|
    {
      JoinedOne(before, piece);
    }

    static lemma SealedMore(data: Bytes, from: nat, before: seq<Bytes>, after: seq<Bytes>, tot: nat, len: nat)
      requires Placed(data, from, before, tot, 0) && tot + len <= |data|
      requires after == before + [data[tot..tot + len]]
      ensures Placed(data, from, after, tot, len) && from < |after|
      ensures tot + len == |data| ==> Joined(after[from..]) == data
    {
      assert after[from..] == before[from..] + [data[tot..tot + len]];
      JoinedOne(before[from..], data[tot..tot + len]);
      assert data[..tot] + data[tot..tot + len] == data[..tot + len];
    }

    static lemma FlushedMore(data: Bytes, from: nat, sealed: seq<Bytes>, tot: nat, len: nat)
      requires Placed(data, from, sealed, tot, len)
      ensures Placed(data, from, sealed, tot + len, 0) && tot + len <= |data|
    {
    }

    /**
     ssl3_write_app_data. `schedule` says how each attempt to seal and flush turns out, and nothing is flushed
     when it ends. A caller that gets no positive count repeats the call with the same data.
     */
    method WriteAppData(ptr: nat, data: Bytes, schedule: seq<Io>, ghost from: nat)
      returns (ret: int, needsHandshake: bool)
      requires Valid()
      modifies this
      ensures Valid() && needsHandshake == (old(early) && !early) && (early ==> old(early))
      ensures |sealed| >= |old(sealed)| && sealed[..|old(sealed)|] == old(sealed)
      ensures ret > 0 ==> ret <= |data| && wnum == 0 && !pending && (partialWrite || ret == |data|)
      ensures old(Writing(ptr, data, from)) ==>
                if ret > 0 then At(ptr, data, from, ret) else Writing(ptr, data, from)
      // all that is ever sealed in early data is capped, and is counted once it is flushed
      ensures old(early) ==> |Joined(sealed)| == earlyWritten + Waiting() <= earlyLimit
      ensures needsHandshake ==> ret == -1 && earlyWritten == earlyLimit && !pending
      ensures !old(early) ==> earlyWritten == old(earlyWritten)
      // if every attempt succeeds, so does the call, up to the cap
      ensures old(Writing(ptr, data, from)) && old(wnum) < |data| <= |schedule| && AllFlush(schedule) ==>
                ret > 0 || needsHandshake
      ensures ret <= 0 && old(wnum) < |data| ==> wnum < |data|
      // and no record is shorter than it has to be
      ensures old(Writing(ptr, data, from)) ==>
                AllFull(data, from, |old(sealed)|, sealed, maxSendFragment, old(Cap()))
      // a retry that is too short is refused, and the place in the data is forgotten
      ensures |data| < old(wnum) ==> ret == -1 && wnum == 0 && sealed == old(sealed)
    {
      hide Joined, Full, AllFull, Within, Placed;
      NoneYet(data, from, sealed, maxSendFragment, Cap());
      ghost var resumes := At(ptr, data, from, wnum);
      ghost var short := wnum < |data|;
      if resumes {
        FlushedMore(data, from, sealed, wnum, Waiting());
      }
      needsHandshake := false;
      var tot := wnum;
      wnum := 0;
      if |data| < tot {
        return -1, false;
      }
      var turn := 0;
      while true
        invariant Valid() && early == old(early) && wnum == 0 && tot <= |data| && turn <= |schedule|
        invariant |sealed| >= |old(sealed)| && sealed[..|old(sealed)|] == old(sealed)
        invariant resumes ==> At(ptr, data, from, tot)
        invariant resumes ==> AllFull(data, from, |old(sealed)|, sealed, maxSendFragment, old(Cap()))
        invariant short ==> tot < |data|
        invariant |schedule| - turn >= |data| - tot || |schedule| < |data|
        invariant early ==> old(early)
        invariant !early ==> earlyWritten == old(earlyWritten)
        decreases |data| - tot
      {
        if Max() == 0 {
          wnum := tot;
          early := false;
          return -1, true;
        }
        var io := if turn < |schedule| then schedule[turn] else Blocks;
        turn := if turn < |schedule| then turn + 1 else turn;
        ghost var before := sealed;
        ret := WritePiece(ptr, data, tot, io, from);
        if |sealed| == |before| {
          assert sealed == before;
        } else if resumes {
          assert sealed == before + [sealed[|before|]];
          AllFullMore(data, from, |old(sealed)|, before, sealed[|before|], maxSendFragment, Cap());
        }
        if ret <= 0 {
          wnum := tot;
          return;
        }
        if ret == |data| - tot || partialWrite {
          ret := tot + ret;
          return;
        }
        tot := tot + ret;
      }
    }
  }

  /** Nothing blocks, and nothing fails. */
  predicate AllFlush(schedule: seq<Io>) {
    forall i :: 0 <= i < |schedule| ==> schedule[i].Flushes?
  }

  /**
   The caller's side: a write that did not succeed is repeated with the same buffer and length. However often it
   blocks, the records sealed in all are consecutive pieces of the data, and a count is of bytes flushed.
   */
  method RepeatedWrite(w: Writer, ptr: nat, data: Bytes, schedules: seq<seq<Io>>) returns (ret: int)
    requires w.Valid() && w.wnum == 0 && !w.pending
    modifies w
    ensures w.Valid() && |w.sealed| >= |old(w.sealed)| && w.sealed[..|old(w.sealed)|] == old(w.sealed)
    ensures old(w.early) ==> |Joined(w.sealed)| == w.earlyWritten + w.Waiting() <= w.earlyLimit
    ensures w.early ==> old(w.early)
    ensures data != [] && (exists i :: 0 <= i < |schedules| && |schedules[i]| >= |data| && AllFlush(schedules[i])) ==>
              ret > 0 || (old(w.early) && !w.early && w.earlyWritten == w.earlyLimit)
    ensures Joined(w.sealed[|old(w.sealed)|..]) <= data
    ensures ret > 0 ==> ret <= |data| && Joined(w.sealed[|old(w.sealed)|..]) == data[..ret]
    ensures ret > 0 ==> w.partialWrite || ret == |data|
  {
    ghost var from := |w.sealed|;
    ret := -1;
    for i := 0 to |schedules|
      invariant w.Valid() && |w.sealed| >= from && w.sealed[..from] == old(w.sealed)
      invariant w.Writing(ptr, data, from) && (data != [] ==> w.wnum < |data|)
      invariant w.early == old(w.early)
      invariant data != [] ==> forall j :: 0 <= j < i ==> !(|schedules[j]| >= |data| && AllFlush(schedules[j]))
    {
      var needsHandshake;
      ret, needsHandshake := w.WriteAppData(ptr, data, schedules[i], from);
      if ret > 0 || needsHandshake {
        return;
      }
    }
    ret := -1;
  }
}
