/**
 Claiming the least-loaded key one at a time is optimal: no other way to place the same number of
 claims ends with a smaller largest load.
 */
module LeastLoaded {
  import opened Counters

  function Sum(counts: seq<int>): int {
    if counts == [] then 0 else counts[0] + Sum(counts[1..])
  }

  lemma {:induction false} SumBump(counts: seq<int>, i: nat)
    requires i < |counts|
    ensures Sum(counts[i := counts[i] + 1]) == Sum(counts) + 1
  {
    if i > 0 {
      assert counts[i := counts[i] + 1][1..] == counts[1..][i - 1 := counts[i] + 1];
      SumBump(counts[1..], i - 1);
    } else {
      assert counts[0 := counts[0] + 1][1..] == counts[1..];
    }
  }

  /** Pointwise at most, and less at one index, sums to less. */
  lemma {:induction false} SumLess(small: seq<int>, large: seq<int>, i: nat)
    requires |small| == |large| && i <= |small|
    requires forall j :: 0 <= j < |small| ==> small[j] <= large[j]
    requires i < |small| ==> small[i] < large[i]
    ensures if i < |small| then Sum(small) < Sum(large) else Sum(small) <= Sum(large)
  {
    if small != [] {
      SumLess(small[1..], large[1..], if i == 0 then |small| - 1 else i - 1);
    }
  }

  lemma {:induction false} SumOfZeros(counts: seq<int>)
    requires forall i :: 0 <= i < |counts| ==> counts[i] == 0
    ensures Sum(counts) == 0
  {
    if counts != [] {
      SumOfZeros(counts[1..]);
    }
  }

  function Maximum(totals: seq<int>): (m: int)
    requires totals != []
    ensures m in totals && forall i :: 0 <= i < |totals| ==> totals[i] <= m
  {
    if |totals| == 1 then totals[0]
    else
      var rest := Maximum(totals[1..]);
      if totals[0] >= rest then totals[0] else rest
  }

  function Plus(bases: seq<int>, counts: seq<int>): (totals: seq<int>)
    requires |bases| == |counts|
    ensures |totals| == |bases|
  {
    seq(|bases|, i requires 0 <= i < |bases| => bases[i] + counts[i])
  }

  /** Before its last claim, no claimed key was more loaded than any key is now. */
  ghost predicate Balanced(bases: seq<int>, counts: seq<int>)
    requires |bases| == |counts|
  {
    forall i, j :: 0 <= i < |counts| && 0 <= j < |counts| && counts[i] > 0 ==>
                     bases[i] + counts[i] - 1 <= bases[j] + counts[j]
  }

  lemma BalancedIsOptimal(bases: seq<int>, counts: seq<int>, placement: seq<int>)
    requires |bases| == |counts| == |placement| > 0
    requires Balanced(bases, counts) && Sum(placement) == Sum(counts)
    requires forall i :: 0 <= i < |counts| ==> counts[i] >= 0 && placement[i] >= 0
    ensures Maximum(Plus(bases, counts)) <= Maximum(Plus(bases, placement))
  {
    var most, other := Maximum(Plus(bases, counts)), Maximum(Plus(bases, placement));
    if other < most {
      var i :| 0 <= i < |counts| && Plus(bases, counts)[i] == most;
      forall j | 0 <= j < |counts| ensures placement[j] <= counts[j] && (j == i ==> placement[j] < counts[j]) {
        assert Plus(bases, placement)[j] <= other;
        assert Plus(bases, placement)[i] <= other;
      }
      SumLess(placement, counts, i);
    }
  }

  /** The reservation counts the store holds for `keys`. */
  function Counts(store: Store, keys: seq<string>): (counts: seq<int>)
    ensures |counts| == |keys|
  {
    seq(|keys|, i requires 0 <= i < |keys| => Count(Lookup(store, keys[i])))
  }

  /** One claim at each of the given times. */
  function ClaimRun(store: Store, keys: seq<string>, bases: seq<int>, ttl: int, times: seq<int>): Store
    requires |keys| == |bases|
    decreases |times|
  {
    if times == [] then store
    else
      var last := |times| - 1;
      var before := Purge(ClaimRun(store, keys, bases, ttl, times[..last]), times[last]);
      ClaimLeastLoaded(before, times[last], keys, bases, ttl).store
  }

  predicate Distinct(keys: seq<string>) {
    forall i, j :: 0 <= i < j < |keys| ==> keys[i] != keys[j]
  }

  /** No claim in the run comes later than `ttl` seconds after the first. */
  predicate WithinOneWindow(times: seq<int>, ttl: int) {
    forall i :: 0 <= i < |times| ==> times[0] <= times[i] <= times[0] + 1000 * ttl
  }

  ghost predicate Outlives(store: Store, keys: seq<string>, until: int) {
    forall i :: 0 <= i < |keys| && keys[i] in store ==> store[keys[i]].value >= 1 && Readable(store[keys[i]], until)
  }

  lemma ClaimKeepsBalance(store: Store, now: int, keys: seq<string>, bases: seq<int>, ttl: int, until: int)
    requires |keys| == |bases| > 0 && Distinct(keys) && ttl >= 1 && now <= until <= now + 1000 * ttl
    requires Outlives(store, keys, until)
    requires Balanced(bases, Counts(store, keys))
    ensures var after := ClaimLeastLoaded(store, now, keys, bases, ttl).store;
            && Outlives(after, keys, until)
            && Balanced(bases, Counts(after, keys))
            && Sum(Counts(after, keys)) == Sum(Counts(store, keys)) + 1
  {
    var best := FirstMinimum(Totals(store, keys, bases));
    var after := ClaimLeastLoaded(store, now, keys, bases, ttl).store;
    var counts := Counts(store, keys);
    var reserved := Reserve(Lookup(store, keys[best]), now, ttl);
    forall i | 0 <= i < |keys|
      ensures Lookup(after, keys[i]) == if i == best then reserved else Lookup(store, keys[i])
    {
    }
    assert Counts(after, keys) == counts[best := counts[best] + 1];
    SumBump(counts, best);
    var totals := Totals(store, keys, bases);
    assert forall i :: 0 <= i < |keys| ==> totals[i] == bases[i] + counts[i] && totals[best] <= totals[i];
    BumpKeepsBalance(bases, counts, best);
  }

  /** One more on a least-loaded key keeps the balance. */
  lemma BumpKeepsBalance(bases: seq<int>, counts: seq<int>, best: nat)
    requires |bases| == |counts| && best < |counts| && Balanced(bases, counts)
    requires forall i :: 0 <= i < |counts| ==> bases[best] + counts[best] <= bases[i] + counts[i]
    ensures Balanced(bases, counts[best := counts[best] + 1])
  {
  }

  /** No reservation that outlives `until` is gone before. */
  lemma PurgeKeepsReservations(store: Store, now: int, keys: seq<string>, until: int)
    requires Outlives(store, keys, until) && now <= until
    ensures Outlives(Purge(store, now), keys, until) && Counts(Purge(store, now), keys) == Counts(store, keys)
  {
    forall i | 0 <= i < |keys| ensures Lookup(Purge(store, now), keys[i]) == Lookup(store, keys[i]) {
    }
  }

  lemma {:induction false} RunKeepsBalance(store: Store, keys: seq<string>, bases: seq<int>, ttl: int, times: seq<int>,
                                           until: int)
    requires |keys| == |bases| > 0 && Distinct(keys) && ttl >= 1
    requires forall i :: 0 <= i < |keys| ==> keys[i] !in store
    requires WithinOneWindow(times, ttl) && (times != [] ==> until == times[0] + 1000 * ttl)
    ensures var after := ClaimRun(store, keys, bases, ttl, times);
            && Outlives(after, keys, until)
            && Balanced(bases, Counts(after, keys))
            && Sum(Counts(after, keys)) == |times|
    decreases |times|
  {
    if times == [] {
      SumOfZeros(Counts(store, keys));
    } else {
      var last := |times| - 1;
      RunKeepsBalance(store, keys, bases, ttl, times[..last], until);
      var before := ClaimRun(store, keys, bases, ttl, times[..last]);
      PurgeKeepsReservations(before, times[last], keys, until);
      ClaimKeepsBalance(Purge(before, times[last]), times[last], keys, bases, ttl, until);
    }
  }

  /**
   Any number of claims over distinct unreserved keys, made within one reservation window, leaves a
   largest total that no other placement of as many claims can beat.
   */
  lemma ClaimsAreOptimal(store: Store, keys: seq<string>, bases: seq<int>, ttl: int, times: seq<int>,
                         placement: seq<int>)
    requires |keys| == |bases| == |placement| > 0 && Distinct(keys) && ttl >= 1
    requires forall i :: 0 <= i < |keys| ==> keys[i] !in store && placement[i] >= 0
    requires WithinOneWindow(times, ttl) && Sum(placement) == |times|
    ensures var after := ClaimRun(store, keys, bases, ttl, times);
            && Sum(Counts(after, keys)) == |times|
            && Maximum(Plus(bases, Counts(after, keys))) <= Maximum(Plus(bases, placement))
  {
    RunKeepsBalance(store, keys, bases, ttl, times, if times == [] then 0 else times[0] + 1000 * ttl);
    var after := ClaimRun(store, keys, bases, ttl, times);
    BalancedIsOptimal(bases, Counts(after, keys), placement);
  }
}
