/** A slot counter with a cap: admits, releases and the passing of time on one key, in any order. */
module BoundedCounter {
  import opened Wrappers
  import opened Counters

  /** `holders` counts admits granted and not yet given back. */
  datatype State = State(slot: Option<Entry>, now: int, holders: int)

  datatype Step = TryAdmit(ttl: int) | GiveBack | Wait(elapsed: nat)

  function AfterWait(slot: Option<Entry>, now: int): Option<Entry> {
    if slot.Some? && Readable(slot.value, now) then slot else None
  }

  function Next(s: State, step: Step, limit: int): State {
    match step
    case TryAdmit(ttl) =>
      var reply := Admit(s.slot, s.now, limit, ttl);
      State(reply.slot, s.now, if reply.result == -1 then s.holders else s.holders + 1)
    case GiveBack => State(Release(s.slot).slot, s.now, s.holders - 1)
    case Wait(elapsed) => State(AfterWait(s.slot, s.now + elapsed), s.now + elapsed, s.holders)
  }

  function Run(s: State, steps: seq<Step>, limit: int): State
    decreases |steps|
  {
    if steps == [] then s else Run(Next(s, steps[0], limit), steps[1..], limit)
  }

  /** Absent, or within 1..limit and bound to expire. */
  predicate Bounded(s: State, limit: int) {
    s.slot.Some? ==> 1 <= s.slot.value.value <= limit && s.slot.value.deadline.Some?
  }

  lemma {:induction false} CounterStaysBounded(s: State, steps: seq<Step>, limit: int)
    requires limit >= 1 && Bounded(s, limit)
    ensures Bounded(Run(s, steps, limit), limit)
    decreases |steps|
  {
    if steps != [] {
      CounterStaysBounded(Next(s, steps[0], limit), steps[1..], limit);
    }
  }

  /** On every reachable counter an admit is refused exactly when it is full, and then changes nothing. */
  lemma RefusedExactlyWhenFull(start: int, steps: seq<Step>, limit: int, ttl: int)
    requires limit >= 1
    ensures var s := Run(State(None, start, 0), steps, limit);
            var reply := Admit(s.slot, s.now, limit, ttl);
            && (reply.result == -1 <==> Count(s.slot) == limit)
            && (reply.result == -1 ==> reply.slot == s.slot)
            && (reply.result != -1 ==> reply.result == Count(s.slot) + 1)
  {
    CounterStaysBounded(State(None, start, 0), steps, limit);
  }

  /** A release undoes an admit on every reachable counter: all that stays is the later deadline. */
  lemma ReleaseUndoesAdmit(start: int, steps: seq<Step>, limit: int, ttl: int)
    requires limit >= 1 && ttl >= 1
    ensures var s := Run(State(None, start, 0), steps, limit);
            var reply := Admit(s.slot, s.now, limit, ttl);
            reply.result != -1 ==>
              && reply.slot == Some(Entry(Count(s.slot) + 1, Some(s.now + 1000 * ttl)))
              && Release(reply.slot).result == Count(s.slot)
              && Release(reply.slot).slot
                 == if s.slot.None? then None else Some(Entry(Count(s.slot), Some(s.now + 1000 * ttl)))
  {
    CounterStaysBounded(State(None, start, 0), steps, limit);
  }

  /** Only holders give back, admits set a real expiry, and the key does not expire while held. */
  predicate Disciplined(s: State, steps: seq<Step>, limit: int)
    decreases |steps|
  {
    steps == [] ||
    (&& match steps[0] {
          case TryAdmit(ttl) => ttl >= 1
          case GiveBack => s.holders > 0
          case Wait(elapsed) => s.holders > 0 ==> AfterWait(s.slot, s.now + elapsed) == s.slot
        }
     && Disciplined(Next(s, steps[0], limit), steps[1..], limit))
  }

  lemma {:induction false} CounterEqualsHoldersFrom(s: State, steps: seq<Step>, limit: int)
    requires limit >= 1 && Bounded(s, limit) && Disciplined(s, steps, limit)
    requires Count(s.slot) == s.holders
    ensures var t := Run(s, steps, limit); Count(t.slot) == t.holders && 0 <= t.holders <= limit
    decreases |steps|
  {
    if steps != [] {
      CounterEqualsHoldersFrom(Next(s, steps[0], limit), steps[1..], limit);
    }
  }

  /** On disciplined runs the counter is the number of holders, which therefore never passes the limit. */
  lemma CounterEqualsHolders(start: int, steps: seq<Step>, limit: int)
    requires limit >= 1 && Disciplined(State(None, start, 0), steps, limit)
    ensures var t := Run(State(None, start, 0), steps, limit); Count(t.slot) == t.holders && 0 <= t.holders <= limit
  {
    CounterEqualsHoldersFrom(State(None, start, 0), steps, limit);
  }

  /** Only holders give back, and admits set a real expiry; time passes as it likes. */
  predicate Orderly(s: State, steps: seq<Step>, limit: int)
    decreases |steps|
  {
    steps == [] ||
    (&& (steps[0].TryAdmit? ==> steps[0].ttl >= 1)
     && (steps[0].GiveBack? ==> s.holders > 0)
     && Orderly(Next(s, steps[0], limit), steps[1..], limit))
  }

  /** At every moment of the run the counter is the number of holders. */
  predicate CountsHolders(s: State, steps: seq<Step>, limit: int)
    decreases |steps|
  {
    && Count(s.slot) == s.holders
    && (steps == [] || CountsHolders(Next(s, steps[0], limit), steps[1..], limit))
  }

  lemma {:induction false} CountsHoldersFromIff(s: State, steps: seq<Step>, limit: int)
    requires limit >= 1 && Bounded(s, limit) && Orderly(s, steps, limit) && Count(s.slot) == s.holders
    ensures CountsHolders(s, steps, limit) <==> Disciplined(s, steps, limit)
    decreases |steps|
  {
    if steps != [] {
      var t := Next(s, steps[0], limit);
      if Count(t.slot) == t.holders {
        CountsHoldersFromIff(t, steps[1..], limit);
      }
    }
  }

  /**
   Over every run in which only holders give back: the counter is at every moment the number of
   holders if and only if the key never expires while held.
   */
  lemma CountsHoldersIff(start: int, steps: seq<Step>, limit: int)
    requires limit >= 1 && Orderly(State(None, start, 0), steps, limit)
    ensures CountsHolders(State(None, start, 0), steps, limit) <==> Disciplined(State(None, start, 0), steps, limit)
  {
    CountsHoldersFromIff(State(None, start, 0), steps, limit);
  }

  /** A run from the start, with a limit of one, that ends with two holders. */
  lemma TwoHoldersOfOne(start: int)
    ensures var steps := [TryAdmit(1), Wait(1001), TryAdmit(1)];
            && Orderly(State(None, start, 0), steps, 1)
            && Run(State(None, start, 0), steps, 1).holders == 2
  {
    var s := State(None, start, 0);
    var s1 := Next(s, TryAdmit(1), 1);
    var s2 := Next(s1, Wait(1001), 1);
    assert s2.slot == None && s2.holders == 1;
    RunFirst(s, TryAdmit(1), [Wait(1001), TryAdmit(1)], 1);
    RunFirst(s1, Wait(1001), [TryAdmit(1)], 1);
    RunFirst(s2, TryAdmit(1), [], 1);
  }

  lemma RunFirst(s: State, first: Step, rest: seq<Step>, limit: int)
    ensures Run(s, [first] + rest, limit) == Run(Next(s, first, limit), rest, limit)
    ensures (first.TryAdmit? ==> first.ttl >= 1) && (first.GiveBack? ==> s.holders > 0) ==>
              (Orderly(s, [first] + rest, limit) <==> Orderly(Next(s, first, limit), rest, limit))
  {
    assert ([first] + rest)[1..] == rest;
  }

  /** Why expiry while held must be excluded: afterwards the cap can be filled again on top. */
  lemma {:induction false} ExpiryWhileHeldOverAdmits(s: State, limit: int, ttl: int, n: nat)
    requires limit >= 1 && ttl >= 1 && s.slot == None && n <= limit
    ensures var t := Run(s, seq(n, _ => TryAdmit(ttl)), limit);
            t.holders == s.holders + n && Count(t.slot) == n && t.now == s.now
    decreases n
  {
    if n > 0 {
      ExpiryWhileHeldOverAdmits(s, limit, ttl, n - 1);
      RunSnoc(s, seq(n - 1, _ => TryAdmit(ttl)), TryAdmit(ttl), limit);
      assert seq(n, _ => TryAdmit(ttl)) == seq(n - 1, _ => TryAdmit(ttl)) + [TryAdmit(ttl)];
    }
  }

  lemma {:induction false} RunSnoc(s: State, steps: seq<Step>, last: Step, limit: int)
    ensures Run(s, steps + [last], limit) == Next(Run(s, steps, limit), last, limit)
    decreases |steps|
  {
    if steps != [] {
      RunSnoc(Next(s, steps[0], limit), steps[1..], last, limit);
      assert (steps + [last])[1..] == steps[1..] + [last];
    }
  }
}
