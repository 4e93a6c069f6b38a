/**
 The saturating reference count as compare-and-swap loops (refcount_c11.c), run by any number of threads in any
 interleaving. Each completed loop is one locked operation of refcount_lock.c, and nothing else changes the count.
 */
module RefCount {

  const MAX: nat := 0xffff_ffff    // CRYPTO_REFCOUNT_MAX

  // ---------- the locked operations ----------

  function LockedInc(count: nat): nat {
    if count < MAX then count + 1 else count
  }

  /** The new count, and whether it is zero; a count of zero aborts. */
  function LockedDec(count: nat): (nat, bool)
    requires count > 0
  {
    var after := if count < MAX then count - 1 else count;
    (after, after == 0)
  }

  // ---------- the lock-free operations, one atomic access at a time ----------

  /** Where a thread is: between operations, or in a loop with the value it saw last. */
  datatype Op = Idle | Inc(expected: nat) | Dec(expected: nat)

  /** A thread and the references it holds. */
  datatype Thread = Thread(refs: nat, op: Op)

  /** The shared word, the threads, and a history: whether the count was ever full, and how often zero was reported. */
  datatype State = State(count: nat, threads: seq<Thread>, saturated: bool, zeros: nat)

  datatype Event =
    | BeginInc(t: nat)              // atomic_load
    | BeginDec(t: nat)
    | Try(t: nat, spurious: bool)   // the test of the loop and atomic_compare_exchange_weak
    | Pass(t: nat, to: nat)         // a reference changes hands

  /** Threads work on the count only while they hold a reference. */
  predicate Enabled(s: State, e: Event) {
    match e
    case BeginInc(t) => t < |s.threads| && s.threads[t].op.Idle? && s.threads[t].refs > 0
    case BeginDec(t) => t < |s.threads| && s.threads[t].op.Idle? && s.threads[t].refs > 0
    case Try(t, _) => t < |s.threads| && !s.threads[t].op.Idle?
    case Pass(t, to) => t < |s.threads| && to < |s.threads| && t != to && s.threads[t].op.Idle? && s.threads[t].refs > 0
  }

  function With(s: State, t: nat, thread: Thread): State
    requires t < |s.threads|
  {
    s.(threads := s.threads[t := thread])
  }

  /** The compare-and-swap fails if the count has changed, and may fail without a reason. */
  predicate Swaps(s: State, expected: nat, spurious: bool) {
    s.count == expected && !spurious
  }

  function Store(s: State, count: nat): State {
    s.(count := count, saturated := s.saturated || count == MAX)
  }

  /** The loop of CRYPTO_refcount_inc: left when full, or once a swap succeeds. */
  function TryInc(s: State, t: nat, expected: nat, spurious: bool): State
    requires t < |s.threads|
  {
    var refs := s.threads[t].refs;
    if expected == MAX then With(s, t, Thread(refs + 1, Idle))
    else if Swaps(s, expected, spurious) then With(Store(s, expected + 1), t, Thread(refs + 1, Idle))
    else With(s, t, Thread(refs, Inc(s.count)))
  }

  /** The loop of CRYPTO_refcount_dec_and_test_zero; `expected == 0` aborts and is shown not to happen. */
  function TryDec(s: State, t: nat, expected: nat, spurious: bool): State
    requires t < |s.threads| && s.threads[t].refs > 0 && expected > 0
  {
    var refs := s.threads[t].refs;
    if expected == MAX then With(s, t, Thread(refs - 1, Idle))
    else if Swaps(s, expected, spurious) then
      With(Store(s, expected - 1), t, Thread(refs - 1, Idle)).(zeros := s.zeros + if expected - 1 == 0 then 1 else 0)
    else With(s, t, Thread(refs, Dec(s.count)))
  }

  function Held(threads: seq<Thread>): nat {
    if threads == [] then 0 else threads[0].refs + Held(threads[1..])
  }

  /**
   The count is the number of references held until it saturates, and full ever after. A thread in a loop holds
   a reference, has not seen zero, and has seen a full count only if it is full.
   */
  predicate Inv(s: State) {
    && s.count <= MAX
    && (s.saturated <==> s.count == MAX)
    && (!s.saturated ==> s.count == Held(s.threads))
    && s.zeros == (if s.count == 0 then 1 else 0)
    && forall t :: 0 <= t < |s.threads| ==> ThreadOk(s.count, s.threads[t])
  }

  predicate ThreadOk(count: nat, t: Thread) {
    match t.op
    case Idle => true
    case Inc(expected) => t.refs > 0 && (expected == MAX ==> count == MAX) && expected > 0
    case Dec(expected) => t.refs > 0 && (expected == MAX ==> count == MAX) && expected > 0
  }

  function Step(s: State, e: Event): State
    requires Inv(s) && Enabled(s, e)
  {
    match e
    case BeginInc(t) => With(s, t, s.threads[t].(op := Inc(s.count)))
    case BeginDec(t) => With(s, t, s.threads[t].(op := Dec(s.count)))
    case Try(t, spurious) =>
      assert ThreadOk(s.count, s.threads[t]);
      (match s.threads[t].op
       case Inc(expected) => TryInc(s, t, expected, spurious)
       case Dec(expected) => TryDec(s, t, expected, spurious))
    case Pass(t, to) =>
      var given := With(s, t, s.threads[t].(refs := s.threads[t].refs - 1));
      With(given, to, given.threads[to].(refs := given.threads[to].refs + 1))
  }

  // ---------- references held ----------

  lemma {:induction false} HeldUpdate(threads: seq<Thread>, t: nat, thread: Thread)
    requires t < |threads|
    ensures Held(threads[t := thread]) == Held(threads) - threads[t].refs + thread.refs
  {
    if t == 0 {
      assert threads[t := thread][1..] == threads[1..];
    } else {
      assert threads[t := thread][1..] == threads[1..][t - 1 := thread];
      HeldUpdate(threads[1..], t - 1, thread);
    }
  }

  lemma {:induction false} HeldAtLeast(threads: seq<Thread>, t: nat)
    requires t < |threads|
    ensures threads[t].refs <= Held(threads)
  {
    if t > 0 {
      HeldAtLeast(threads[1..], t - 1);
    }
  }

  /** A thread that holds a reference keeps the count from being zero, so no decrement aborts. */
  lemma CountPositive(s: State, t: nat)
    requires Inv(s) && t < |s.threads| && s.threads[t].refs > 0
    ensures s.count > 0
  {
    HeldAtLeast(s.threads, t);
  }

  // ---------- refinement ----------

  /** What a step means to the locked specification: an operation completes, with its result, or nothing happens. */
  datatype Effect = Nothing | Increment | Decrement(zero: bool)

  function EffectOf(s: State, e: Event): Effect
    requires Inv(s) && Enabled(s, e)
  {
    if !e.Try? || !Step(s, e).threads[e.t].op.Idle? then Nothing
    else if s.threads[e.t].op.Inc? then Increment
    else Decrement(Step(s, e).zeros > s.zeros)
  }

  /** Every step is one locked operation, or leaves the count alone. */
  lemma Refines(s: State, e: Event)
    requires Inv(s) && Enabled(s, e)
    ensures match EffectOf(s, e)
            case Nothing => Step(s, e).count == s.count
            case Increment => Step(s, e).count == LockedInc(s.count)
            case Decrement(zero) => s.count > 0 && (Step(s, e).count, zero) == LockedDec(s.count)
  {
    if e.Try? {
      assert ThreadOk(s.count, s.threads[e.t]);
      CountPositive(s, e.t);
    }
  }

  lemma StepKeepsInv(s: State, e: Event)
    requires Inv(s) && Enabled(s, e)
    ensures Inv(Step(s, e))
  {
    hide Held;
    var s' := Step(s, e);
    match e {
      case BeginInc(t) =>
        CountPositive(s, t);
        HeldUpdate(s.threads, t, s'.threads[t]);
      case BeginDec(t) =>
        CountPositive(s, t);
        HeldUpdate(s.threads, t, s'.threads[t]);
      case Try(t, spurious) =>
        assert ThreadOk(s.count, s.threads[t]);
        CountPositive(s, t);
        HeldUpdate(s.threads, t, s'.threads[t]);
      case Pass(t, to) =>
        var given := s.threads[t := s.threads[t].(refs := s.threads[t].refs - 1)];
        HeldUpdate(s.threads, t, given[t]);
        HeldUpdate(given, to, s'.threads[to]);
    }
  }

  // ---------- whole runs ----------

  /** `n` threads, the first of which holds the one reference there is. */
  function Start(n: nat): (s: State)
    requires n > 0
    ensures |s.threads| == n && Inv(s)
  {
    var threads := seq(n, i => Thread(if i == 0 then 1 else 0, Idle));
    NobodyHolds(threads[1..]);
    State(1, threads, false, 0)
  }

  predicate Possible(s: State, es: seq<Event>)
    requires Inv(s)
    decreases |es|
  {
    es == [] ||
    (Enabled(s, es[0]) && (StepKeepsInv(s, es[0]); Possible(Step(s, es[0]), es[1..])))
  }

  function Run(s: State, es: seq<Event>): (r: State)
    requires Inv(s) && Possible(s, es)
    ensures Inv(r)
    decreases |es|
  {
    if es == [] then s
    else
      StepKeepsInv(s, es[0]);
      Run(Step(s, es[0]), es[1..])
  }

  lemma {:induction false} NobodyHolds(threads: seq<Thread>)
    requires forall i :: 0 <= i < |threads| ==> threads[i].refs == 0
    ensures Held(threads) == 0
  {
    if threads != [] {
      NobodyHolds(threads[1..]);
    }
  }

  /** The locked operations a run completes, in the order in which they take effect. */
  function Effects(s: State, es: seq<Event>): seq<Effect>
    requires Inv(s) && Possible(s, es)
    decreases |es|
  {
    if es == [] then []
    else
      StepKeepsInv(s, es[0]);
      [EffectOf(s, es[0])] + Effects(Step(s, es[0]), es[1..])
  }

  /** The same operations under a lock; the flag is false if one would abort or report something else. */
  function Locked(count: nat, effects: seq<Effect>): (r: (nat, bool))
    decreases |effects|
  {
    if effects == [] then (count, true)
    else
      match effects[0]
      case Nothing => Locked(count, effects[1..])
      case Increment => Locked(LockedInc(count), effects[1..])
      case Decrement(zero) =>
        if count == 0 || LockedDec(count).1 != zero then (count, false)
        else Locked(LockedDec(count).0, effects[1..])
  }

  /** Any interleaving of the loops is a sequence of locked operations with the same results and the same count. */
  lemma {:induction false} RunRefines(s: State, es: seq<Event>)
    requires Inv(s) && Possible(s, es)
    ensures Locked(s.count, Effects(s, es)) == (Run(s, es).count, true)
    decreases |es|
  {
    if es != [] {
      Refines(s, es[0]);
      StepKeepsInv(s, es[0]);
      RunRefines(Step(s, es[0]), es[1..]);
      assert Effects(s, es)[1..] == Effects(Step(s, es[0]), es[1..]);
    }
  }

  /** Once full, full for ever. */
  lemma {:induction false} SaturatedStays(s: State, es: seq<Event>)
    requires Inv(s) && Possible(s, es) && s.count == MAX
    ensures Run(s, es).count == MAX
    decreases |es|
  {
    if es != [] {
      StepKeepsInv(s, es[0]);
      SaturatedStays(Step(s, es[0]), es[1..]);
    }
  }

  /**
   In every run the count is the number of references held, until it saturates; and if it never does, zero has
   been reported exactly once when the last reference is gone, and never before.
   */
  lemma CountsReferences(n: nat, es: seq<Event>)
    requires n > 0 && Possible(Start(n), es)
    ensures var s := Run(Start(n), es);
            !s.saturated ==> s.count == Held(s.threads) && s.zeros == if Held(s.threads) == 0 then 1 else 0
  {
  }
}
