/**
 The in-memory store of the same counters: no deadlines, plain reads and overwrites. It refines the
 scripts as long as nothing expires.
 */
module MemoryStore {
  import opened Wrappers
  import opened Counters

  // A counter is kept as the decimal text of a number; the number stands for it here.
  type Memory = map<string, int>

  function Current(memory: Memory, key: string): int {
    if key in memory then memory[key] else 0
  }

  function MemoryTotals(memory: Memory, keys: seq<string>, bases: seq<int>): (totals: seq<int>)
    requires |keys| == |bases|
    ensures |totals| == |keys|
  {
    seq(|keys|, i requires 0 <= i < |keys| => bases[i] + Current(memory, keys[i]))
  }

  datatype Op =
    | AdmitOp(key: string, limit: int, ttl: int)
    | ReleaseOp(key: string)
    | ClaimOp(keys: seq<string>, bases: seq<int>, ttl: int)
    | SeededOp(key: string, seed: int, ttl: int)
    | WaitOp(elapsed: nat)

  const MISMATCH: Result<int, string> := Failure("claimLeastLoaded: baseOccupancies must have one entry per key")

  datatype MemoryReply = MemoryReply(memory: Memory, result: Result<int, string>)

  /** What each in-memory operation does. */
  function MemoryApply(memory: Memory, op: Op): MemoryReply {
    match op
    case AdmitOp(key, limit, _) =>
      var next := Current(memory, key) + 1;
      if next > limit then MemoryReply(memory, Success(-1)) else MemoryReply(memory[key := next], Success(next))
    case ReleaseOp(key) =>
      var next := Current(memory, key) - 1;
      if next <= 0 then MemoryReply(map k | k in memory && k != key :: memory[k], Success(0))
      else MemoryReply(memory[key := next], Success(next))
    case ClaimOp(keys, bases, _) =>
      if keys == [] then MemoryReply(memory, Success(0))
      else if |keys| != |bases| then MemoryReply(memory, MISMATCH)
      else
        var best := FirstMinimum(MemoryTotals(memory, keys, bases));
        MemoryReply(memory[keys[best] := Current(memory, keys[best]) + 1], Success(best + 1))
    case SeededOp(key, seed, _) =>
      var next := if key in memory then memory[key] + 1 else 1 + seed;
      MemoryReply(memory[key := next], Success(next))
    case WaitOp(_) => MemoryReply(memory, Success(0))
  }

  class InMemoryKeyStore {
    var store: map<string, int>

    constructor ()
      ensures store == map[]
    {
      store := map[];
    }

    method IncrementByAndRefreshExpiryIfUnderLimit(key: string, limit: int) returns (result: int)
      modifies this
      ensures forall ttl :: MemoryApply(old(store), AdmitOp(key, limit, ttl)) == MemoryReply(store, Success(result))
      ensures forall ttl :: Refines(old(store), AdmitOp(key, limit, ttl), store, Success(result))
      ensures store != old(store) ==> Current(store, key) <= limit
    {
      ApplyRefines(store);
      var current := if key in store then store[key] else 0;
      var next := current + 1;
      if next > limit {
        return -1;
      }
      store := store[key := next];
      return next;
    }

    method DecrementByOrDelete(key: string) returns (result: int)
      modifies this
      ensures MemoryApply(old(store), ReleaseOp(key)) == MemoryReply(store, Success(result))
      ensures Refines(old(store), ReleaseOp(key), store, Success(result))
    {
      ApplyRefines(store);
      var current := if key in store then store[key] else 0;
      var next := current - 1;
      if next <= 0 {
        store := map k | k in store && k != key :: store[k];
        return 0;
      }
      store := store[key := next];
      return next;
    }

    method ClaimLeastLoaded(keys: seq<string>, bases: seq<int>) returns (result: Result<int, string>)
      modifies this
      ensures forall ttl :: MemoryApply(old(store), ClaimOp(keys, bases, ttl)) == MemoryReply(store, result)
      ensures forall ttl :: Refines(old(store), ClaimOp(keys, bases, ttl), store, result)
    {
      ApplyRefines(store);
      if keys == [] {
        return Success(0);
      }
      if |keys| != |bases| {
        return MISMATCH;
      }
      var bestIdx := LeastLoaded(keys, bases);
      var chosen := keys[bestIdx - 1];
      var current := if chosen in store then store[chosen] else 0;
      store := store[chosen := current + 1];
      return Success(bestIdx);
    }

    /** The search loop of the claim; ties go to the earlier key. */
    method LeastLoaded(keys: seq<string>, bases: seq<int>) returns (bestIdx: nat)
      requires keys != [] && |keys| == |bases|
      ensures bestIdx == FirstMinimum(MemoryTotals(store, keys, bases)) + 1
    {
      bestIdx := 0;
      var bestTotal: Option<int> := None;
      ghost var totals := MemoryTotals(store, keys, bases);
      for i := 0 to |keys|
        invariant bestTotal.None? <==> i == 0
        invariant i > 0 ==> 1 <= bestIdx <= i && bestTotal == Some(totals[bestIdx - 1])
        invariant i > 0 ==> IsFirstMinimum(totals[..i], bestIdx - 1)
      {
        var reserved := if keys[i] in store then store[keys[i]] else 0;
        var total := bases[i] + reserved;
        if bestTotal.None? || total < bestTotal.value {
          bestTotal, bestIdx := Some(total), i + 1;
        }
      }
      assert totals[..|keys|] == totals;
    }

    method IncrementSeededWithExpiry(key: string, seed: int) returns (version: int)
      modifies this
      ensures forall ttl :: MemoryApply(old(store), SeededOp(key, seed, ttl)) == MemoryReply(store, Success(version))
      ensures forall ttl :: Refines(old(store), SeededOp(key, seed, ttl), store, Success(version))
    {
      ApplyRefines(store);
      if key !in store {
        version := 1 + seed;
      } else {
        version := store[key] + 1;
      }
      store := store[key := version];
    }
  }

  datatype ScriptReply = ScriptReply(store: Store, now: int, result: Result<int, string>)

  /** The same operation on the scripts' store. */
  function ScriptApply(store: Store, now: int, op: Op): ScriptReply {
    match op
    case AdmitOp(key, limit, ttl) =>
      var reply := Admit(Lookup(store, key), now, limit, ttl);
      ScriptReply(Put(store, key, reply.slot), now, Success(reply.result))
    case ReleaseOp(key) =>
      var reply := Release(Lookup(store, key));
      ScriptReply(Put(store, key, reply.slot), now, Success(reply.result))
    case ClaimOp(keys, bases, ttl) =>
      if keys != [] && |keys| != |bases| then ScriptReply(store, now, MISMATCH)
      else if keys == [] then ScriptReply(store, now, Success(0))
      else
        var claimed := ClaimLeastLoaded(store, now, keys, bases, ttl);
        ScriptReply(claimed.store, now, Success(claimed.index))
    case SeededOp(key, seed, ttl) =>
      var reply := SeededIncrement(Lookup(store, key), now, seed, ttl);
      ScriptReply(Put(store, key, reply.slot), now, Success(reply.result))
    case WaitOp(elapsed) => ScriptReply(Purge(store, now + elapsed), now + elapsed, Success(0))
  }

  /** Same keys, same counts, every count at least 1. */
  predicate Agree(store: Store, memory: Memory) {
    store.Keys == memory.Keys && forall key :: key in memory ==> store[key].value == memory[key] >= 1
  }

  /** A limit of at least 1, a real expiry, a timestamp for a seed, and no live key running out. */
  predicate Quiet(store: Store, now: int, op: Op) {
    match op
    case AdmitOp(_, limit, ttl) => limit >= 1 && ttl >= 1
    case ReleaseOp(_) => true
    case ClaimOp(_, _, ttl) => ttl >= 1
    case SeededOp(_, seed, ttl) => seed >= 0 && ttl >= 1
    case WaitOp(elapsed) => Purge(store, now + elapsed) == store
  }

  /** What the operation did here is what the script does on every store that agrees: same reply, agreeing stores. */
  ghost predicate Refines(before: Memory, op: Op, after: Memory, result: Result<int, string>) {
    forall script, now :: Agree(script, before) && Quiet(script, now, op) ==>
                            var reply := ScriptApply(script, now, op);
                            reply.result == result && Agree(reply.store, after)
  }

  lemma ApplyRefines(memory: Memory)
    ensures forall op :: var reply := MemoryApply(memory, op); Refines(memory, op, reply.memory, reply.result)
  {
    forall op, script, now | Agree(script, memory) && Quiet(script, now, op)
      ensures ScriptApply(script, now, op).result == MemoryApply(memory, op).result
      ensures Agree(ScriptApply(script, now, op).store, MemoryApply(memory, op).memory)
    {
      StepAgrees(script, now, memory, op);
    }
  }

  predicate QuietRun(store: Store, now: int, ops: seq<Op>)
    decreases |ops|
  {
    ops == [] ||
    (Quiet(store, now, ops[0])
     && var reply := ScriptApply(store, now, ops[0]);
        QuietRun(reply.store, reply.now, ops[1..]))
  }

  function ScriptRun(store: Store, now: int, ops: seq<Op>): (seq<Result<int, string>>, Store)
    decreases |ops|
  {
    if ops == [] then ([], store)
    else
      var reply := ScriptApply(store, now, ops[0]);
      var (rest, last) := ScriptRun(reply.store, reply.now, ops[1..]);
      ([reply.result] + rest, last)
  }

  function MemoryRun(memory: Memory, ops: seq<Op>): (seq<Result<int, string>>, Memory)
    decreases |ops|
  {
    if ops == [] then ([], memory)
    else
      var reply := MemoryApply(memory, ops[0]);
      var (rest, last) := MemoryRun(reply.memory, ops[1..]);
      ([reply.result] + rest, last)
  }

  lemma StepAgrees(store: Store, now: int, memory: Memory, op: Op)
    requires Agree(store, memory) && Quiet(store, now, op)
    ensures var script, plain := ScriptApply(store, now, op), MemoryApply(memory, op);
            script.result == plain.result && Agree(script.store, plain.memory)
  {
    if op.ClaimOp? && |op.keys| == |op.bases| {
      assert Totals(store, op.keys, op.bases) == MemoryTotals(memory, op.keys, op.bases);
    }
  }

  lemma {:induction false} RunsAgree(store: Store, now: int, memory: Memory, ops: seq<Op>)
    requires Agree(store, memory) && QuietRun(store, now, ops)
    ensures ScriptRun(store, now, ops).0 == MemoryRun(memory, ops).0
    ensures Agree(ScriptRun(store, now, ops).1, MemoryRun(memory, ops).1)
    decreases |ops|
  {
    if ops != [] {
      StepAgrees(store, now, memory, ops[0]);
      var reply := ScriptApply(store, now, ops[0]);
      RunsAgree(reply.store, reply.now, MemoryApply(memory, ops[0]).memory, ops[1..]);
    }
  }

  /** Every quiet run from empty stores gives the same replies and ends with the same counters. */
  lemma MemoryRefinesScripts(start: int, ops: seq<Op>)
    requires QuietRun(map[], start, ops)
    ensures ScriptRun(map[], start, ops).0 == MemoryRun(map[], ops).0
    ensures Agree(ScriptRun(map[], start, ops).1, MemoryRun(map[], ops).1)
  {
    RunsAgree(map[], start, map[], ops);
  }

  /** Why the limit must be at least 1: below it, an admit on a missing key is where the two part. */
  lemma AdmitAgreesIff(store: Store, now: int, memory: Memory, key: string, limit: int, ttl: int)
    requires Agree(store, memory) && ttl >= 1
    ensures var op := AdmitOp(key, limit, ttl);
            Agree(ScriptApply(store, now, op).store, MemoryApply(memory, op).memory) <==> limit >= 1 || key in memory
  {
    var op := AdmitOp(key, limit, ttl);
    if limit >= 1 {
      StepAgrees(store, now, memory, op);
    } else {
      assert key in ScriptApply(store, now, op).store;
      if key in memory {
        assert ScriptApply(store, now, op).store == store;
      }
    }
  }
}
