/** Reservation counters: claims with one fixed window, releases and passing time over many keys. */
module Reservations {
  import opened Counters

  datatype Claim = Claim(key: string, time: int)

  /** `claims` is the history of successful claims, oldest first. */
  datatype State = State(store: Store, now: int, claims: seq<Claim>)

  datatype Step = ClaimOne(keys: seq<string>, bases: seq<int>) | GiveBack(key: string) | Wait(elapsed: nat)

  function Next(s: State, step: Step, ttl: int): State {
    match step
    case ClaimOne(keys, bases) =>
      if |keys| != |bases| || keys == [] then s
      else
        var claimed := ClaimLeastLoaded(s.store, s.now, keys, bases, ttl);
        State(claimed.store, s.now, s.claims + [Claim(keys[claimed.index - 1], s.now)])
    case GiveBack(key) => s.(store := Put(s.store, key, Release(Lookup(s.store, key)).slot))
    case Wait(elapsed) => s.(store := Purge(s.store, s.now + elapsed), now := s.now + elapsed)
  }

  function Run(s: State, steps: seq<Step>, ttl: int): State
    decreases |steps|
  {
    if steps == [] then s else Run(Next(s, steps[0], ttl), steps[1..], ttl)
  }

  /** How many claims took `key` at or after `from`. */
  function ClaimsSince(claims: seq<Claim>, key: string, from: int): nat {
    if claims == [] then 0
    else
      var last := |claims| - 1;
      ClaimsSince(claims[..last], key, from) + (if claims[last].key == key && claims[last].time >= from then 1 else 0)
  }

  lemma {:induction false} ClaimsSinceEarlier(claims: seq<Claim>, key: string, from: int, earlier: int)
    requires earlier <= from
    ensures ClaimsSince(claims, key, from) <= ClaimsSince(claims, key, earlier)
  {
    if claims != [] {
      ClaimsSinceEarlier(claims[..|claims| - 1], key, from, earlier);
    }
  }

  lemma ClaimsSinceSnoc(claims: seq<Claim>, last: Claim, key: string, from: int)
    ensures ClaimsSince(claims + [last], key, from)
            == ClaimsSince(claims, key, from) + if last.key == key && last.time >= from then 1 else 0
  {
    assert (claims + [last])[..|claims|] == claims;
  }

  /** A counter was created `1000 * ttl` before its deadline and counts only claims made since. */
  predicate Windowed(s: State, ttl: int, key: string) {
    key in s.store ==>
      var entry := s.store[key];
      && entry.value >= 1
      && entry.deadline.Some? && s.now <= entry.deadline.value <= s.now + 1000 * ttl
      && entry.value <= ClaimsSince(s.claims, key, entry.deadline.value - 1000 * ttl)
  }

  lemma StepKeepsWindow(s: State, step: Step, ttl: int, key: string)
    requires ttl >= 1 && forall k :: Windowed(s, ttl, k)
    ensures Windowed(Next(s, step, ttl), ttl, key)
  {
    assert Windowed(s, ttl, key);
    if step.ClaimOne? && |step.keys| == |step.bases| && step.keys != [] {
      var best := FirstMinimum(Totals(s.store, step.keys, step.bases));
      var chosen := step.keys[best];
      assert Windowed(s, ttl, chosen);
      var t := Next(s, step, ttl);
      assert t.claims == s.claims + [Claim(chosen, s.now)];
      if key in t.store {
        ClaimsSinceSnoc(s.claims, Claim(chosen, s.now), key, t.store[key].deadline.value - 1000 * ttl);
      }
    }
  }

  lemma {:induction false} RunKeepsWindow(s: State, steps: seq<Step>, ttl: int)
    requires ttl >= 1 && forall k :: Windowed(s, ttl, k)
    ensures forall k :: Windowed(Run(s, steps, ttl), ttl, k)
    decreases |steps|
  {
    if steps != [] {
      forall k ensures Windowed(Next(s, steps[0], ttl), ttl, k) {
        StepKeepsWindow(s, steps[0], ttl, k);
      }
      RunKeepsWindow(Next(s, steps[0], ttl), steps[1..], ttl);
    }
  }

  /**
   In every run from an empty store a live reservation counter is at least 1, expires within `ttl`
   seconds from now, and is at most the number of claims of its key in the last `ttl` seconds; so a
   key nobody claimed in that window has no counter.
   */
  lemma ReservationsNeverLeak(start: int, steps: seq<Step>, ttl: int, key: string)
    requires ttl >= 1
    ensures var s := Run(State(map[], start, []), steps, ttl);
            var recent := ClaimsSince(s.claims, key, s.now - 1000 * ttl);
            && (key in s.store ==>
                  && 1 <= s.store[key].value <= recent
                  && s.store[key].deadline.Some?
                  && s.now <= s.store[key].deadline.value <= s.now + 1000 * ttl)
            && (recent == 0 ==> key !in s.store)
  {
    RunKeepsWindow(State(map[], start, []), steps, ttl);
    var s := Run(State(map[], start, []), steps, ttl);
    assert Windowed(s, ttl, key);
    if key in s.store {
      ClaimsSinceEarlier(s.claims, key, s.store[key].deadline.value - 1000 * ttl, s.now - 1000 * ttl);
    }
  }
}
