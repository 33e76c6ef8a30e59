/**
 Expiring items beside a sorted-set index of the ones worth listing, scored by their deadline. The
 index is itself a key with a deadline, pushed out only when its TTL, which the store rounds to the
 nearest second, looks too short. Times are milliseconds, expiries seconds.
 */
module IndexedItems {
  import opened Wrappers
  import opened ScoreOrder

  datatype Index = Index(scores: map<string, int>, deadline: Option<int>)

  /** The readable state: an item is its deadline, an empty index does not exist. */
  datatype Db = Db(now: int, index: Option<Index>, items: map<string, int>)

  function Scores(db: Db): map<string, int> {
    if db.index.Some? then db.index.value.scores else map[]
  }

  function IndexOf(scores: map<string, int>, deadline: Option<int>): Option<Index> {
    if scores == map[] then None else Some(Index(scores, deadline))
  }

  /** TTL in whole seconds, rounded to the nearest; negative for a key without a deadline. */
  function RoundedTtl(deadline: Option<int>, now: int): int {
    if deadline.None? then -1 else (deadline.value - now + 500) / 1000
  }

  function Rescored(db: Db, member: string, ttl: int, indexed: bool): map<string, int> {
    var scores := if indexed then Scores(db)[member := db.now + 1000 * ttl] else Scores(db) - {member};
    map m | m in scores && scores[m] > db.now :: scores[m]
  }

  /** The upsert script: write the item, add or drop its member, prune, and push the index out if needed. */
  function Upserted(db: Db, member: string, itemKey: string, ttl: int, indexed: bool): Db {
    var deadline := if db.index.Some? then db.index.value.deadline else None;
    var current := RoundedTtl(deadline, db.now);
    var pushed := if current < 0 || current < ttl then Some(db.now + 1000 * ttl) else deadline;
    Db(db.now, IndexOf(Rescored(db, member, ttl, indexed), pushed), db.items[itemKey := db.now + 1000 * ttl])
  }

  function Deleted(db: Db, members: seq<string>, itemKeys: seq<string>): Db {
    Db(db.now,
       if db.index.None? then None
       else IndexOf(map m | m in Scores(db) && m !in members :: Scores(db)[m], db.index.value.deadline),
       map k | k in db.items && k !in itemKeys :: db.items[k])
  }

  /** A key is readable up to its deadline. */
  predicate ReadableUntil(deadline: Option<int>, now: int) {
    deadline.None? || now <= deadline.value
  }

  function Waited(db: Db, elapsed: nat): Db {
    var now := db.now + elapsed;
    Db(now,
       if db.index.Some? && ReadableUntil(db.index.value.deadline, now) then db.index else None,
       map k | k in db.items && now <= db.items[k] :: db.items[k])
  }

  class IndexedItemStore {
    var db: Db

    constructor (start: int)
      ensures db == Db(start, None, map[])
    {
      db := Db(start, None, map[]);
    }

    /** The store refuses an expiry that is not positive, and the script ends there. */
    method SetIndexedItemWithExpiry(member: string, itemKey: string, ttl: int, indexed: bool) returns (ok: bool)
      modifies this
      ensures ok <==> ttl >= 1
      ensures db == if ok then Upserted(old(db), member, itemKey, ttl, indexed) else old(db)
    {
      if ttl < 1 {
        return false;
      }
      ok := true;
      db := db.(items := db.items[itemKey := db.now + ttl * 1000]);
      var scores := Scores(db);
      var deadline: Option<int> := if db.index.Some? then db.index.value.deadline else None;
      if indexed {
        scores := scores[member := db.now + ttl * 1000];
      } else {
        scores := scores - {member};
      }
      scores := map m | m in scores && scores[m] > db.now :: scores[m];
      if |scores| == 0 {
        db := db.(index := None);
      } else {
        var current := RoundedTtl(deadline, db.now);
        if current < 0 || current < ttl {
          deadline := Some(db.now + 1000 * ttl);
        }
        db := db.(index := Some(Index(scores, deadline)));
      }
    }

    method DeleteIndexedItems(members: seq<string>, itemKeys: seq<string>)
      requires db.index.Some? ==> db.index.value.scores != map[]
      modifies this
      ensures db == Deleted(old(db), members, itemKeys)
    {
      if members == [] && itemKeys == [] {
        assert Scores(db) == map m | m in Scores(db) && m !in members :: Scores(db)[m];
        assert db.items == map k | k in db.items && k !in itemKeys :: db.items[k];
        return;
      }
      var scores, items := Scores(db), db.items;
      for i := 0 to |members|
        invariant scores == map m | m in Scores(db) && m !in members[..i] :: Scores(db)[m]
      {
        scores := scores - {members[i]};
      }
      for i := 0 to |itemKeys|
        invariant items == map k | k in db.items && k !in itemKeys[..i] :: db.items[k]
      {
        items := items - {itemKeys[i]};
      }
      assert members[..|members|] == members && itemKeys[..|itemKeys|] == itemKeys;
      db := Db(db.now, if db.index.None? then None else IndexOf(scores, db.index.value.deadline), items);
    }

    /**
     Members scored from `min` to `max`, in the order of their scores. Asked from now on without an
     upper bound, and whatever members were last written as indexed, it is given only readable ones of
     those, and all of them but such as have no more than `slack` left.
     */
    method SortedSetRangeByScore(min: int, max: Option<int>) returns (members: seq<string>)
      ensures forall m :: m in members <==> m in Listing(db, min) && (max.Some? ==> Scores(db)[m] <= max.value)
      ensures EachOnce(members) && InScoreOrder(Scores(db), members)
      ensures forall listed: set<string>, slack: nat ::
                max == None && min == db.now && Indexed(State(db, listed), slack) ==>
                (forall m :: m in LiveListed(State(db, listed), slack) ==> m in members)
                && (forall m :: m in members ==> m in ReadableListed(State(db, listed)))
    {
      var scores := Scores(db);
      var chosen := set m | m in scores && scores[m] >= min && (max.Some? ==> scores[m] <= max.value);
      var rest := chosen;
      members := [];
      while rest != {}
        invariant rest <= chosen
        invariant forall m :: m in members <==> m in chosen - rest
        invariant EachOnce(members) && InScoreOrder(scores, members)
        decreases rest
      {
        var m :| m in rest;
        InsertKeepsOrder(scores, members, m);
        members := InsertByScore(scores, members, m);
        rest := rest - {m};
      }
    }
  }

  function Listing(db: Db, min: int): set<string> {
    set m | m in Scores(db) && Scores(db)[m] >= min
  }

  // Runs over matching pairs: the member of an item stands for its item key too.

  /** `listed` remembers the members whose last write was indexed. */
  datatype State = State(db: Db, listed: set<string>)

  datatype Step = Upsert(member: string, ttl: int, indexed: bool) | Delete(members: seq<string>) | Wait(elapsed: nat)

  function Next(s: State, step: Step): State {
    match step
    case Upsert(m, ttl, indexed) =>
      State(Upserted(s.db, m, m, ttl, indexed), if indexed then s.listed + {m} else s.listed - {m})
    case Delete(members) => State(Deleted(s.db, members, members), s.listed - set m | m in members)
    case Wait(elapsed) => s.(db := Waited(s.db, elapsed))
  }

  function Run(s: State, steps: seq<Step>): State
    decreases |steps|
  {
    if steps == [] then s else Run(Next(s, steps[0]), steps[1..])
  }

  predicate ValidSteps(steps: seq<Step>) {
    forall i :: 0 <= i < |steps| && steps[i].Upsert? ==> steps[i].ttl >= 1
  }

  /** The readable items whose last write was indexed. */
  function ReadableListed(s: State): set<string> {
    set m | m in s.db.items && m in s.listed && s.db.now <= s.db.items[m]
  }

  /** Those of them with more than `margin` milliseconds left. */
  function LiveListed(s: State, margin: nat): set<string> {
    set m | m in s.db.items && m in s.listed && s.db.now + margin < s.db.items[m]
  }

  /** The listing as callers ask for it, exact but for items in the last millisecond of their life. */
  predicate Exact(s: State) {
    LiveListed(s, 0) <= Listing(s.db, s.db.now) <= ReadableListed(s)
  }

  /**
   The rounding trap: the index has half a second or less too little to live, so that its TTL rounds
   up to what is wanted and is left alone. One millisecond too little does no harm, as a key is
   readable up to its deadline.
   */
  predicate Covered(db: Db, step: Step) {
    step.Upsert? && step.indexed && db.index.Some? && db.index.value.deadline.Some? ==>
      var left := db.index.value.deadline.value - db.now;
      !(1000 * step.ttl - 500 <= left < 1000 * step.ttl - 1)
  }

  predicate CoveredRun(s: State, steps: seq<Step>)
    decreases |steps|
  {
    steps == [] || (Covered(s.db, steps[0]) && CoveredRun(Next(s, steps[0]), steps[1..]))
  }

  /** The index covers its members up to `slack`; a readable listed item missing from it has at most `slack` left. */
  predicate Indexed(s: State, slack: nat) {
    var scores := Scores(s.db);
    && (s.db.index.Some? ==>
          && scores != map[] && s.db.index.value.deadline.Some? && s.db.now <= s.db.index.value.deadline.value
          && forall m :: m in scores ==> scores[m] <= s.db.index.value.deadline.value + slack + 1)
    && (forall m :: m in scores && scores[m] >= s.db.now ==>
                      m in s.db.items && s.db.items[m] == scores[m] && m in s.listed)
    && (forall m :: m in LiveListed(s, slack) ==> m in scores && scores[m] == s.db.items[m])
  }

  lemma UpsertKeepsIndexed(s: State, step: Step, slack: nat)
    requires Indexed(s, slack) && step.Upsert? && step.ttl >= 1
    requires slack >= 499 || Covered(s.db, step)
    ensures Indexed(Next(s, step), slack)
  {
    var t := Next(s, step);
    if t.db.index.Some? {
      var deadline := t.db.index.value.deadline.value;
      assert deadline + slack + 1 >= s.db.now + 1000 * step.ttl || !step.indexed;
      assert s.db.index.Some? ==> deadline >= s.db.index.value.deadline.value;
    }
  }

  lemma OtherStepsKeepIndexed(s: State, step: Step, slack: nat)
    requires Indexed(s, slack) && !step.Upsert?
    ensures Indexed(Next(s, step), slack)
  {
    var t := Next(s, step);
    assert forall m :: m in Scores(t.db) ==> m in Scores(s.db) && Scores(t.db)[m] == Scores(s.db)[m];
    forall m | m in LiveListed(t, slack)
      ensures m in Scores(t.db) && Scores(t.db)[m] == t.db.items[m]
    {
      assert m in LiveListed(s, slack);
    }
  }

  lemma {:induction false} RunKeepsIndexed(s: State, steps: seq<Step>, slack: nat)
    requires Indexed(s, slack) && ValidSteps(steps)
    requires slack >= 499 || CoveredRun(s, steps)
    ensures Indexed(Run(s, steps), slack)
    decreases |steps|
  {
    if steps != [] {
      if steps[0].Upsert? {
        UpsertKeepsIndexed(s, steps[0], slack);
      } else {
        OtherStepsKeepIndexed(s, steps[0], slack);
      }
      RunKeepsIndexed(Next(s, steps[0]), steps[1..], slack);
    }
  }

  /**
   In every run the index lists only readable items last written as indexed, and misses one only in
   the last half second of its life.
   */
  lemma ListingIsSoundAndAlmostComplete(start: int, steps: seq<Step>)
    requires ValidSteps(steps)
    ensures var s := Run(State(Db(start, None, map[]), {}), steps);
            LiveListed(s, 499) <= Listing(s.db, s.db.now) <= ReadableListed(s)
  {
    RunKeepsIndexed(State(Db(start, None, map[]), {}), steps, 499);
  }

  /** In every run that stays clear of the rounding trap the listing is exact at every moment. */
  lemma CoveredRunsAreExact(start: int, steps: seq<Step>)
    requires ValidSteps(steps) && CoveredRun(State(Db(start, None, map[]), {}), steps)
    ensures Exact(Run(State(Db(start, None, map[]), {}), steps))
  {
    RunKeepsIndexed(State(Db(start, None, map[]), {}), steps, 0);
  }

  // The items by themselves, told by the history of writes.

  /** The clock, and the deadline the last write of `m` set unless a delete came after it. */
  datatype Told = Told(now: int, deadline: Option<int>, listed: bool)

  function TellStep(told: Told, step: Step, m: string): Told {
    match step
    case Upsert(member, ttl, indexed) =>
      if member == m then Told(told.now, Some(told.now + 1000 * ttl), indexed) else told
    case Delete(members) => if m in members then Told(told.now, None, false) else told
    case Wait(elapsed) => told.(now := told.now + elapsed)
  }

  function Tell(told: Told, steps: seq<Step>, m: string): Told {
    if steps == [] then told else TellStep(Tell(told, steps[..|steps| - 1], m), steps[|steps| - 1], m)
  }

  predicate AsTold(s: State, told: Told, m: string) {
    && s.db.now == told.now
    && (m in s.db.items <==> told.deadline.Some? && told.now <= told.deadline.value)
    && (m in s.db.items ==> s.db.items[m] == told.deadline.value)
    && (m in s.listed <==> told.listed)
  }

  lemma StepIsAsTold(s: State, told: Told, step: Step, m: string)
    requires AsTold(s, told, m) && (step.Upsert? ==> step.ttl >= 1)
    ensures AsTold(Next(s, step), TellStep(told, step, m), m)
  {
  }

  lemma {:induction false} RunSnoc(s: State, steps: seq<Step>, last: Step)
    ensures Run(s, steps + [last]) == Next(Run(s, steps), last)
    decreases |steps|
  {
    if steps != [] {
      RunSnoc(Next(s, steps[0]), steps[1..], last);
      assert (steps + [last])[1..] == steps[1..] + [last];
    } else {
      assert ([] + [last])[1..] == [] && [] + [last] == [last];
    }
  }

  /**
   In every run an item is readable exactly from its last write to the deadline that write set, unless
   it has been deleted since; and it counts as listed exactly if that write was indexed.
   */
  lemma {:induction false} ItemsAreAsTold(start: int, steps: seq<Step>, m: string)
    requires ValidSteps(steps)
    ensures AsTold(Run(State(Db(start, None, map[]), {}), steps), Tell(Told(start, None, false), steps, m), m)
    decreases |steps|
  {
    if steps != [] {
      var before, last := steps[..|steps| - 1], steps[|steps| - 1];
      assert steps == before + [last];
      ItemsAreAsTold(start, before, m);
      RunSnoc(State(Db(start, None, map[]), {}), before, last);
      StepIsAsTold(Run(State(Db(start, None, map[]), {}), before), Tell(Told(start, None, false), before, m), last, m);
    }
  }

  /** What an upsert leaves in the index: its own member if it is indexed, and of the others those not yet elapsed. */
  lemma ScoresAfterUpsert(db: Db, member: string, ttl: int, indexed: bool, m: string)
    requires ttl >= 1
    ensures var before, after := Scores(db), Scores(Upserted(db, member, member, ttl, indexed));
            && (m in after <==> if m == member then indexed else m in before && before[m] > db.now)
            && (m in after ==> after[m] == if m == member then db.now + 1000 * ttl else before[m])
  {
  }
}
