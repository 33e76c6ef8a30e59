/**
 The key-value store behind the counter scripts: what each script does to the live keys, and a
 mutable store whose commands and scripts do exactly that. Times are milliseconds, expiries seconds;
 a key with deadline `d` is readable until the clock is past `d`.
 */
module Counters {
  import opened Wrappers

  datatype Entry = Entry(value: int, deadline: Option<int>)

  // The keys that are readable now.
  type Store = map<string, Entry>

  predicate Readable(entry: Entry, now: int) {
    entry.deadline.None? || now <= entry.deadline.value
  }

  function Purge(store: Store, now: int): Store {
    map key | key in store && Readable(store[key], now) :: store[key]
  }

  function Lookup(store: Store, key: string): Option<Entry> {
    if key in store then Some(store[key]) else None
  }

  function Put(store: Store, key: string, slot: Option<Entry>): (updated: Store)
    ensures Lookup(updated, key) == slot
    ensures forall other :: other != key ==> Lookup(updated, other) == Lookup(store, other)
  {
    match slot
    case Some(entry) => store[key := entry]
    case None => map other | other in store && other != key :: store[other]
  }

  function Count(slot: Option<Entry>): int {
    if slot.Some? then slot.value.value else 0
  }

  /** INCRBY keeps the deadline of a key that exists and creates one without a deadline otherwise. */
  function Incremented(slot: Option<Entry>, amount: int): Entry {
    Entry(Count(slot) + amount, if slot.Some? then slot.value.deadline else None)
  }

  /** EXPIRE with a time that is not positive deletes the key. */
  function Expiring(entry: Entry, now: int, ttl: int): Option<Entry> {
    if ttl <= 0 then None else Some(entry.(deadline := Some(now + 1000 * ttl)))
  }

  /** A key told to expire is readable for exactly that many seconds, and at once gone for none. */
  lemma ExpiringIff(entry: Entry, now: int, ttl: int, time: int)
    requires time >= now
    ensures (Expiring(entry, now, ttl).Some? && Readable(Expiring(entry, now, ttl).value, time)) <==>
            ttl >= 1 && time <= now + 1000 * ttl
    ensures Expiring(entry, now, ttl).Some? ==> Expiring(entry, now, ttl).value.value == entry.value
  {
  }

  datatype Reply = Reply(slot: Option<Entry>, result: int)

  /** Admit below the limit; a rejected admit leaves the key as it was, or at 0 if there was none. */
  function Admit(slot: Option<Entry>, now: int, limit: int, ttl: int): Reply {
    var next := Count(slot) + 1;
    if next > limit then Reply(Some(Incremented(slot, 0)), -1)
    else Reply(Expiring(Incremented(slot, 1), now, ttl), next)
  }

  /** Release one, deleting the key instead of leaving it at 0; the deadline is not touched. */
  function Release(slot: Option<Entry>): Reply {
    if Count(slot) <= 1 then Reply(None, 0)
    else Reply(Some(Incremented(slot, -1)), Count(slot) - 1)
  }

  /** Count up; a key that reaches 1 is taken for new and rebased by the seed. */
  function SeededIncrement(slot: Option<Entry>, now: int, seed: int, ttl: int): Reply {
    var version := if Count(slot) + 1 == 1 then 1 + seed else Count(slot) + 1;
    Reply(Expiring(Incremented(slot, version - Count(slot)), now, ttl), version)
  }

  /** Reserve one; the deadline is set by the first reservation only. */
  function Reserve(slot: Option<Entry>, now: int, ttl: int): Option<Entry> {
    var reserved := Incremented(slot, 1);
    if reserved.value == 1 then Expiring(reserved, now, ttl) else Some(reserved)
  }

  function Totals(store: Store, keys: seq<string>, bases: seq<int>): (totals: seq<int>)
    requires |keys| == |bases|
    ensures |totals| == |keys|
  {
    seq(|keys|, i requires 0 <= i < |keys| => bases[i] + Count(Lookup(store, keys[i])))
  }

  predicate IsFirstMinimum(totals: seq<int>, best: nat) {
    && best < |totals|
    && (forall i :: 0 <= i < best ==> totals[best] < totals[i])
    && (forall i :: 0 <= i < |totals| ==> totals[best] <= totals[i])
  }

  function FirstMinimum(totals: seq<int>): (best: nat)
    requires totals != []
    ensures IsFirstMinimum(totals, best)
  {
    var last := |totals| - 1;
    if last == 0 then 0
    else
      var best := FirstMinimum(totals[..last]);
      if totals[last] < totals[best] then last else best
  }

  datatype Claimed = Claimed(store: Store, index: nat)

  /** Reserve on the first least-loaded key; the index is 1-based and 0 when there is nothing to claim. */
  function ClaimLeastLoaded(store: Store, now: int, keys: seq<string>, bases: seq<int>, ttl: int): Claimed
    requires |keys| == |bases|
  {
    if keys == [] then Claimed(store, 0)
    else
      var best := FirstMinimum(Totals(store, keys, bases));
      Claimed(Put(store, keys[best], Reserve(Lookup(store, keys[best]), now, ttl)), best + 1)
  }

  class CounterStore {
    var now: int
    var entries: map<string, Entry>

    constructor (start: int)
      ensures now == start && View() == map[]
    {
      now := start;
      entries := map[];
    }

    function View(): Store
      reads this
    {
      Purge(entries, now)
    }

    method Advance(elapsed: nat)
      modifies this
      ensures now == old(now) + elapsed && View() == Purge(old(View()), now)
    {
      now := now + elapsed;
    }

    // The commands a script is made of.

    method Get(key: string) returns (slot: Option<Entry>)
      ensures slot == Lookup(View(), key)
    {
      slot := if key in entries && Readable(entries[key], now) then Some(entries[key]) else None;
    }

    method IncrBy(key: string, amount: int) returns (value: int)
      modifies this
      ensures now == old(now) && View() == Put(old(View()), key, Some(Incremented(old(Lookup(View(), key)), amount)))
      ensures value == old(Count(Lookup(View(), key))) + amount
    {
      var slot := Get(key);
      entries := entries[key := Incremented(slot, amount)];
      value := Count(slot) + amount;
    }

    method Del(key: string)
      modifies this
      ensures now == old(now) && View() == Put(old(View()), key, None)
    {
      entries := map other | other in entries && other != key :: entries[other];
    }

    method Expire(key: string, ttl: int)
      modifies this
      ensures now == old(now)
      ensures View() == if key in old(View()) then Put(old(View()), key, Expiring(old(View())[key], now, ttl))
                        else old(View())
    {
      var slot := Get(key);
      if slot.Some? {
        if ttl <= 0 {
          Del(key);
        } else {
          entries := entries[key := slot.value.(deadline := Some(now + 1000 * ttl))];
        }
      }
    }

    // The scripts.

    method IncrementByAndRefreshExpiryIfUnderLimit(key: string, limit: int, ttl: int) returns (result: int)
      modifies this
      ensures now == old(now)
      ensures var reply := Admit(old(Lookup(View(), key)), now, limit, ttl);
              View() == Put(old(View()), key, reply.slot) && result == reply.result
    {
      var count := IncrBy(key, 1);
      if count > limit {
        var back := IncrBy(key, -1);
        return -1;
      }
      Expire(key, ttl);
      return count;
    }

    method DecrementByOrDelete(key: string) returns (result: int)
      modifies this
      ensures now == old(now)
      ensures var reply := Release(old(Lookup(View(), key)));
              View() == Put(old(View()), key, reply.slot) && result == reply.result
    {
      var current := Get(key);
      if current.None? || current.value.value <= 1 {
        Del(key);
        return 0;
      }
      result := IncrBy(key, -1);
    }

    method IncrementSeededWithExpiry(key: string, seed: int, ttl: int) returns (version: int)
      modifies this
      ensures now == old(now)
      ensures var reply := SeededIncrement(old(Lookup(View(), key)), now, seed, ttl);
              View() == Put(old(View()), key, reply.slot) && version == reply.result
    {
      version := IncrBy(key, 1);
      if version == 1 {
        version := IncrBy(key, seed);
      }
      Expire(key, ttl);
    }

    method ClaimLeastLoadedKey(keys: seq<string>, bases: seq<int>, ttl: int) returns (result: Result<nat, string>)
      modifies this
      ensures now == old(now)
      ensures keys != [] && |keys| != |bases| ==> result.Failure? && View() == old(View())
      ensures keys == [] ==> result == Success(0) && View() == old(View())
      ensures |keys| == |bases| ==>
                var claimed := ClaimLeastLoaded(old(View()), now, keys, bases, ttl);
                View() == claimed.store && result == Success(claimed.index)
    {
      if keys == [] {
        return Success(0);
      }
      if |keys| != |bases| {
        return Failure("claimLeastLoaded: baseOccupancies must have one entry per key");
      }
      var bestIdx := LeastLoaded(keys, bases);
      var chosen := keys[bestIdx - 1];
      var reserved := IncrBy(chosen, 1);
      if reserved == 1 {
        Expire(chosen, ttl);
      }
      return Success(bestIdx);
    }

    /** The script's search loop: ties go to the earlier key. */
    method LeastLoaded(keys: seq<string>, bases: seq<int>) returns (bestIdx: nat)
      requires keys != [] && |keys| == |bases|
      ensures bestIdx == FirstMinimum(Totals(View(), keys, bases)) + 1
    {
      bestIdx := 0;
      var bestTotal := 0;
      ghost var totals := Totals(View(), keys, bases);
      for i := 0 to |keys|
        invariant bestIdx == 0 <==> i == 0
        invariant i > 0 ==> bestIdx <= i && bestTotal == totals[bestIdx - 1]
        invariant i > 0 ==> IsFirstMinimum(totals[..i], bestIdx - 1)
      {
        var slot := Get(keys[i]);
        var total := bases[i] + Count(slot);
        if bestIdx == 0 || total < bestTotal {
          bestIdx, bestTotal := i + 1, total;
        }
      }
      assert totals[..|keys|] == totals;
    }
  }
}
