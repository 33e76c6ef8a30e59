/** The timestamp-seeded version counter of one key, across expiries and deletions. */
module Versions {
  import opened Wrappers
  import opened Counters

  /** `issued` is every version handed out, oldest first; `lastCall` the time of the last hand-out. */
  datatype State = State(slot: Option<Entry>, now: int, issued: seq<int>, lastCall: int)

  datatype Step = Bump(ttl: int) | Delete | Wait(elapsed: nat)

  function Next(s: State, step: Step): State {
    match step
    case Bump(ttl) =>
      var reply := SeededIncrement(s.slot, s.now, s.now, ttl);
      State(reply.slot, s.now, s.issued + [reply.result], s.now)
    case Delete => s.(slot := None)
    case Wait(elapsed) =>
      var now := s.now + elapsed;
      s.(slot := if s.slot.Some? && Readable(s.slot.value, now) then s.slot else None, now := now)
  }

  function Run(s: State, steps: seq<Step>): State
    decreases |steps|
  {
    if steps == [] then s else Run(Next(s, steps[0]), steps[1..])
  }

  /** Calls come at strictly increasing milliseconds. */
  predicate DistinctCallTimes(s: State, steps: seq<Step>)
    decreases |steps|
  {
    steps == [] || ((steps[0].Bump? ==> s.now > s.lastCall) && DistinctCallTimes(Next(s, steps[0]), steps[1..]))
  }

  predicate StrictlyIncreasing(versions: seq<int>) {
    forall i, j :: 0 <= i < j < |versions| ==> versions[i] < versions[j]
  }

  /** No version is ever more than one ahead of the clock at the last call. */
  predicate BehindClock(s: State) {
    && -1 <= s.lastCall <= s.now
    && StrictlyIncreasing(s.issued)
    && (forall i :: 0 <= i < |s.issued| ==> s.issued[i] <= s.lastCall + 1)
    && (s.slot.Some? ==> s.issued != [] && Count(s.slot) == s.issued[|s.issued| - 1] && Count(s.slot) >= 1)
  }

  lemma {:induction false} RunStaysBehindClock(s: State, steps: seq<Step>)
    requires BehindClock(s) && DistinctCallTimes(s, steps)
    ensures BehindClock(Run(s, steps))
    decreases |steps|
  {
    if steps != [] {
      RunStaysBehindClock(Next(s, steps[0]), steps[1..]);
    }
  }

  /** Over the whole run every version is greater than all before it, so none is ever issued twice. */
  lemma VersionsStrictlyIncrease(start: nat, steps: seq<Step>)
    requires DistinctCallTimes(State(None, start, [], -1), steps)
    ensures StrictlyIncreasing(Run(State(None, start, [], -1), steps).issued)
  {
    RunStaysBehindClock(State(None, start, [], -1), steps);
  }

  // The exact condition, with no assumption on the run.

  /** Every call that finds no key comes when the clock has caught up with the last version. */
  predicate CaughtUp(s: State, steps: seq<Step>)
    decreases |steps|
  {
    steps == [] ||
    ((steps[0].Bump? && s.slot.None? && s.issued != [] ==> s.issued[|s.issued| - 1] <= s.now)
     && CaughtUp(Next(s, steps[0]), steps[1..]))
  }

  /** A live key holds the last version, and no version is 0. */
  predicate HoldsLast(s: State) {
    && s.now >= 0
    && (s.slot.Some? ==> s.issued != [] && Count(s.slot) == s.issued[|s.issued| - 1] && Count(s.slot) >= 1)
  }

  lemma {:induction false} IssuedGrows(s: State, steps: seq<Step>)
    ensures s.issued <= Run(s, steps).issued
    decreases |steps|
  {
    if steps != [] {
      IssuedGrows(Next(s, steps[0]), steps[1..]);
    }
  }

  lemma {:induction false} IncreaseFromIff(s: State, steps: seq<Step>)
    requires HoldsLast(s) && StrictlyIncreasing(s.issued)
    ensures StrictlyIncreasing(Run(s, steps).issued) <==> CaughtUp(s, steps)
    decreases |steps|
  {
    if steps != [] {
      var t := Next(s, steps[0]);
      if StrictlyIncreasing(t.issued) {
        IncreaseFromIff(t, steps[1..]);
        assert steps[0].Bump? && s.issued != [] ==> t.issued[|s.issued| - 1] < t.issued[|s.issued|];
      } else {
        IssuedGrows(t, steps[1..]);
      }
    }
  }

  /**
   In every run, whatever its call times, the versions strictly increase if and only if every call
   that finds the key gone comes when the last version is not above the clock.
   */
  lemma VersionsIncreaseIff(start: nat, steps: seq<Step>)
    ensures var s := State(None, start, [], -1);
            StrictlyIncreasing(Run(s, steps).issued) <==> CaughtUp(s, steps)
  {
    IncreaseFromIff(State(None, start, [], -1), steps);
  }

  /** Two calls in one millisecond, and one a millisecond later that finds the key gone, repeat a version. */
  lemma BurstRepeats(start: nat, ttl: int)
    requires ttl >= 1
    ensures Run(State(None, start, [], -1), [Bump(ttl), Bump(ttl), Delete, Wait(1), Bump(ttl)]).issued
            == [start + 1, start + 2, start + 2]
  {
    var s := State(None, start, [], -1);
    var once := Next(s, Bump(ttl));
    var twice := Next(once, Bump(ttl));
    assert twice.issued == [start + 1, start + 2];
    var gone := Next(twice, Delete);
    var later := Next(gone, Wait(1));
    RunFirst(s, Bump(ttl), [Bump(ttl), Delete, Wait(1), Bump(ttl)]);
    RunFirst(once, Bump(ttl), [Delete, Wait(1), Bump(ttl)]);
    RunFirst(twice, Delete, [Wait(1), Bump(ttl)]);
    RunFirst(gone, Wait(1), [Bump(ttl)]);
    RunFirst(later, Bump(ttl), []);
  }

  lemma RunFirst(s: State, first: Step, rest: seq<Step>)
    ensures Run(s, [first] + rest) == Run(Next(s, first), rest)
  {
    assert ([first] + rest)[1..] == rest;
  }

  function Elapsed(waits: seq<nat>): nat {
    if waits == [] then 0 else waits[0] + Elapsed(waits[1..])
  }

  function Waits(waits: seq<nat>): seq<Step> {
    seq(|waits|, i requires 0 <= i < |waits| => Wait(waits[i]))
  }

  lemma {:induction false} LivesUntilDeadline(s: State, waits: seq<nat>)
    ensures var after := Run(s, Waits(waits));
            && (after.slot.Some? <==>
                s.slot.Some? && (waits != [] ==> Readable(s.slot.value, s.now + Elapsed(waits))))
            && (after.slot.Some? ==> after.slot == s.slot)
    decreases |waits|
  {
    if waits != [] {
      assert Waits(waits)[1..] == Waits(waits[1..]);
      LivesUntilDeadline(Next(s, Wait(waits[0])), waits[1..]);
    }
  }

  /** Every call rolls the expiry forward: left alone, the key lives exactly its `ttl` from the last call. */
  lemma KeyLivesItsTtl(s: State, ttl: int, waits: seq<nat>)
    requires ttl >= 1
    ensures var after := Run(Next(s, Bump(ttl)), Waits(waits));
            after.slot.Some? <==> Elapsed(waits) <= 1000 * ttl
  {
    LivesUntilDeadline(Next(s, Bump(ttl)), waits);
  }

  /** Two calls in one millisecond with a deletion between them do issue the same version. */
  lemma SameMillisecondRepeats(start: nat, ttl: int)
    ensures Run(State(None, start, [], -1), [Bump(ttl), Delete, Bump(ttl)]).issued == [start + 1, start + 1]
  {
    var s := State(None, start, [], -1);
    var once := Next(Next(s, Bump(ttl)), Delete);
    var twice := Next(once, Bump(ttl));
    assert twice.issued == [start + 1, start + 1];
    RunFirst(s, Bump(ttl), [Delete, Bump(ttl)]);
    RunFirst(Next(s, Bump(ttl)), Delete, [Bump(ttl)]);
    RunFirst(once, Bump(ttl), []);
  }
}
