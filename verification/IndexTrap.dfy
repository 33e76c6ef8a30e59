/**
 The rounding trap of the index: that its guard is exact, that it can be met, and runs that cannot
 meet it.
 */
module IndexTrap {
  import opened Wrappers
  import opened IndexedItems

  /** The guard is exact: an indexed upsert leads to no inexact moment if and only if it is covered. */
  lemma StaysExactIffCovered(s: State, step: Step)
    requires Indexed(s, 0) && step.Upsert? && step.indexed && step.ttl >= 1
    ensures (forall elapsed: nat :: Exact(Next(Next(s, step), Wait(elapsed)))) <==> Covered(s.db, step)
  {
    var t := Next(s, step);
    if Covered(s.db, step) {
      forall elapsed: nat ensures Exact(Next(t, Wait(elapsed))) {
        UpsertKeepsIndexed(s, step, 0);
        OtherStepsKeepIndexed(t, Wait(elapsed), 0);
      }
    } else {
      var left := s.db.index.value.deadline.value - s.db.now;
      assert (left + 500) / 1000 == step.ttl;
      var u := Next(t, Wait(left + 1));
      assert step.member in LiveListed(u, 0) && u.db.index == None;
      assert !Exact(u);
    }
  }

  /** The trap is real: two items a fraction of a second apart, and the second goes unlisted. */
  lemma HalfSecondLoss(start: int)
    ensures var s := Run(State(Db(start, None, map[]), {}),
                         [Upsert("a", 1, true), Wait(400), Upsert("b", 1, true), Wait(700)]);
            "b" in LiveListed(s, 299) && Listing(s.db, s.db.now) == {}
  {
    var s := State(Db(start, None, map[]), {});
    var s1 := Next(s, Upsert("a", 1, true));
    var s2 := Next(s1, Wait(400));
    var s3 := Next(s2, Upsert("b", 1, true));
    var s4 := Next(s3, Wait(700));
    assert Rescored(s.db, "a", 1, true) == map["a" := start + 1000];
    assert "a" in Rescored(s.db, "a", 1, true);
    assert s1.db.index == Some(Index(map["a" := start + 1000], Some(start + 1000)));
    assert s3.db.index.value.deadline == Some(start + 1000);
    assert s4.db.index == None;
    var steps := [Upsert("a", 1, true), Wait(400), Upsert("b", 1, true), Wait(700)];
    assert steps[1..] == [Wait(400), Upsert("b", 1, true), Wait(700)];
    assert steps[1..][1..] == [Upsert("b", 1, true), Wait(700)];
    assert steps[1..][1..][1..] == [Wait(700)];
    assert steps[1..][1..][1..][1..] == [];
    assert Run(s, steps) == Run(s1, steps[1..]) == Run(s2, steps[1..][1..]) == Run(s3, [Wait(700)]) == Run(s4, []);
  }

  /** On runs paced in whole seconds the trap cannot be met. */
  lemma {:induction false} WholeSecondsAreCovered(s: State, steps: seq<Step>)
    requires Indexed(s, 0) && ValidSteps(steps)
    requires InStep(s.db)
    requires forall i :: 0 <= i < |steps| && steps[i].Wait? ==> steps[i].elapsed % 1000 == 0
    ensures CoveredRun(s, steps)
    decreases |steps|
  {
    if steps != [] {
      if steps[0].Upsert? {
        UpsertKeepsIndexed(s, steps[0], 0);
      } else {
        OtherStepsKeepIndexed(s, steps[0], 0);
      }
      WholeSecondStep(s, steps[0]);
      WholeSecondsAreCovered(Next(s, steps[0]), steps[1..]);
    }
  }

  predicate InStep(db: Db) {
    db.index.Some? && db.index.value.deadline.Some? ==> (db.index.value.deadline.value - db.now) % 1000 == 0
  }

  lemma WholeSecondStep(s: State, step: Step)
    requires Indexed(s, 0) && InStep(s.db) && (step.Wait? ==> step.elapsed % 1000 == 0)
    ensures InStep(Next(s, step).db) && Covered(s.db, step)
  {
    if step.Upsert? {
      WholeSecondUpsert(s, step);
    } else if step.Wait? && s.db.index.Some? && s.db.index.value.deadline.Some? {
      StaysWhole(s.db.index.value.deadline.value - s.db.now, step.elapsed);
    }
  }

  lemma StaysWhole(left: int, elapsed: int)
    requires left % 1000 == 0 && elapsed % 1000 == 0
    ensures (left - elapsed) % 1000 == 0
  {
  }

  lemma WholeSecondUpsert(s: State, step: Step)
    requires Indexed(s, 0) && InStep(s.db) && step.Upsert?
    ensures InStep(Next(s, step).db) && Covered(s.db, step)
  {
    assert (1000 * step.ttl) % 1000 == 0;
    if s.db.index.Some? {
      NoHalfSeconds(s.db.index.value.deadline.value - s.db.now, step.ttl);
    }
  }

  lemma NoHalfSeconds(left: int, ttl: int)
    requires left % 1000 == 0
    ensures !(1000 * ttl - 500 <= left < 1000 * ttl)
  {
  }
}
