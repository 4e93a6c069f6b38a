/**
 ssl3_choose_cipher: one pass over a priority list with equal-preference groups. A flag of 1 says that the entry
 is not the last of its group.
 */
module CipherChoice {
  import opened Basics

  /** The list to respect, its group flags if it has any, the list to choose from, and what the server can do. */
  datatype Offer = Offer(prio: seq<nat>, flags: Option<seq<bool>>, allow: seq<nat>, usable: nat -> bool)

  predicate OfferOk(o: Offer) {
    o.flags.Some? ==> |o.flags.value| == |o.prio|
  }

  /** sk_SSL_CIPHER_find */
  function IndexOf(list: seq<nat>, c: nat): (r: Option<nat>)
    ensures r.Some? ==> r.value < |list| && list[r.value] == c
    ensures r.None? ==> c !in list
  {
    if list == [] then None
    else if list[0] == c then Some(0)
    else
      match IndexOf(list[1..], c)
      case None => None
      case Some(i) => Some(i + 1)
  }

  predicate Matches(o: Offer, i: nat) {
    i < |o.prio| && o.usable(o.prio[i]) && IndexOf(o.allow, o.prio[i]).Some?
  }

  function Rank(o: Offer, i: nat): nat
    requires Matches(o, i)
  {
    IndexOf(o.allow, o.prio[i]).value
  }

  /** The group goes on behind entry `i`. */
  predicate Open(o: Offer, i: nat)
    requires OfferOk(o)
  {
    i < |o.prio| && o.flags.Some? && o.flags.value[i]
  }

  ghost predicate SameGroup(o: Offer, i: nat, j: nat)
    requires OfferOk(o)
  {
    forall k: nat :: (i <= k < j || j <= k < i) ==> Open(o, k)
  }

  /** The end of the last group that has an end. With a last flag of 0, that is the end of the list. */
  function Closed(o: Offer, n: nat): (e: nat)
    requires OfferOk(o)
    ensures e <= n && (e == 0 || !Open(o, e - 1)) && forall k: nat :: e <= k < n ==> Open(o, k)
  {
    if n == 0 || !Open(o, n - 1) then n else Closed(o, n - 1)
  }

  /** The usable cipher to choose: in the first group that has one, the one the other list likes best. */
  ghost predicate Best(o: Offer, i: nat)
    requires OfferOk(o)
  {
    && i < Closed(o, |o.prio|) && Matches(o, i)
    && forall j: nat :: j < Closed(o, |o.prio|) && Matches(o, j) ==>
         if SameGroup(o, i, j) then Rank(o, i) <= Rank(o, j) else i < j
  }

  /** No two best entries differ in what is chosen. */
  lemma BestIsUnique(o: Offer, i: nat, j: nat)
    requires OfferOk(o) && Best(o, i) && Best(o, j)
    ensures Rank(o, i) == Rank(o, j)
  {
    assert SameGroup(o, i, j) <==> SameGroup(o, j, i);
  }

  /** ssl3_choose_cipher, once both lists are known */
  method ChooseCipher(o: Offer) returns (choice: Option<nat>)
    requires OfferOk(o)
    ensures choice.None? <==> forall i: nat :: i < Closed(o, |o.prio|) ==> !Matches(o, i)
    ensures choice.Some? ==> exists i: nat :: Best(o, i) && choice.value == o.allow[Rank(o, i)]
  {
    var groupMin: int := -1;
    ghost var start, best: nat := 0, 0;
    for i := 0 to |o.prio|
      invariant start <= i && (forall j: nat :: j < start ==> !Matches(o, j))
      invariant (start == 0 || !Open(o, start - 1)) && forall k: nat :: start <= k < i ==> Open(o, k)
      invariant o.flags.None? ==> groupMin == -1
      invariant groupMin == -1 ==> forall j: nat :: start <= j < i ==> !Matches(o, j)
      invariant groupMin != -1 ==>
                  start <= best < i && Matches(o, best) && groupMin == Rank(o, best)
                  && forall j: nat :: start <= j < i && Matches(o, j) ==> groupMin <= Rank(o, j)
    {
      var c := o.prio[i];
      var found := IndexOf(o.allow, c);
      if o.usable(c) && found.Some? {
        var cipherIndex := found.value;
        if o.flags.Some? && o.flags.value[i] {
          if groupMin == -1 || groupMin > cipherIndex {
            groupMin, best := cipherIndex, i;
          }
        } else {
          if groupMin != -1 && groupMin < cipherIndex {
            cipherIndex := groupMin;
          } else {
            best := i;
          }
          GroupBest(o, start, i, best);
          return Some(o.allow[cipherIndex]);
        }
      }
      if o.flags.Some? && !o.flags.value[i] && groupMin != -1 {
        GroupBest(o, start, i, best);
        return Some(o.allow[groupMin]);
      }
      if !Open(o, i) {
        start := i + 1;
      }
    }
    return None;
  }

  /** The best of the group from `start` to `i`, before which nothing matches, is the best of all. */
  lemma GroupBest(o: Offer, start: nat, i: nat, best: nat)
    requires OfferOk(o) && start <= best <= i < |o.prio| && Matches(o, best)
    requires (forall j: nat :: j < start ==> !Matches(o, j)) && !Open(o, i)
    requires forall k: nat :: start <= k < i ==> Open(o, k)
    requires forall j: nat :: start <= j <= i && Matches(o, j) ==> Rank(o, best) <= Rank(o, j)
    ensures Best(o, best)
  {
    forall j: nat | j < Closed(o, |o.prio|) && Matches(o, j) && !SameGroup(o, best, j)
      ensures best < j
    {
      assert j > i;
    }
    forall j: nat | j > i
      ensures !SameGroup(o, best, j)
    {
      assert !Open(o, i);
    }
  }
}
