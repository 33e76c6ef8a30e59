/**
 Any number of instances booting against one database: a state machine over the lock row, the list
 of applied migrations and a clock. One SQL statement is one step.
 */
module StartupProtocol {
  import opened Wrappers
  import opened BootDirection
  import opened StartupLock

  /**
   Where an instance is in its boot. `Holding`, `Cleared` and `Migrating` are the guarded part:
   the lock was taken, the boot state was re-read and found behind, `latest` is at work.
   */
  datatype Phase =
    | Booting
    | Trying
    | Holding
    | Cleared
    | Migrating(queue: seq<string>)
    | Releasing
    | Stopped
    | Crashed

  datatype Instance = Instance(node: string, bundle: seq<string>, phase: Phase)

  // The session id of an instance is its index.
  datatype State = State(row: Row, now: int, applied: seq<string>, instances: seq<Instance>)

  datatype Step =
    | BootCheck(p: nat)
    | TryAcquire(p: nat)
    | GiveUp(p: nat)
    | HeartbeatLands(p: nat)
    | Recheck(p: nat)
    | StartLatest(p: nat)
    | Apply(p: nat)
    | MigrationThrows(p: nat)
    | FinishLatest(p: nat)
    | ReleaseLands(p: nat)
    | ReleaseFails(p: nat)
    | Crash(p: nat)
    | Tick(elapsed: nat)

  predicate Guarded(phase: Phase) {
    phase.Holding? || phase.Cleared? || phase.Migrating?
  }

  predicate Enabled(s: State, step: Step) {
    if step.Tick? then true
    else
      && step.p < |s.instances|
      && var phase := s.instances[step.p].phase;
         match step
         case BootCheck(_) => phase.Booting?
         case TryAcquire(_) => phase.Trying?
         case GiveUp(_) => phase.Trying?
         case HeartbeatLands(_) => !phase.Booting? && !phase.Trying?
         case Recheck(_) => phase.Holding?
         case StartLatest(_) => phase.Cleared?
         case Apply(_) => phase.Migrating? && phase.queue != []
         case MigrationThrows(_) => Guarded(phase)
         case FinishLatest(_) => phase.Migrating? && phase.queue == []
         case ReleaseLands(_) => phase.Releasing?
         case ReleaseFails(_) => phase.Releasing?
         case Crash(_) => true
  }

  function At(s: State, p: nat, phase: Phase): State
    requires p < |s.instances|
  {
    s.(instances := s.instances[p := s.instances[p].(phase := phase)])
  }

  function Next(s: State, step: Step): State
    requires Enabled(s, step)
  {
    match step
    case BootCheck(p) =>
      var state := GetMigrationBootDirection(s.applied, s.instances[p].bundle);
      At(s, p, if state.direction == Behind then Trying else Stopped)
    case TryAcquire(p) =>
      var claimed := s.(row := AfterAcquire(s.row, p, s.instances[p].node, s.now));
      if Claimable(s.row, s.now) then At(claimed, p, Holding) else claimed
    case GiveUp(p) => At(s, p, Stopped)
    case HeartbeatLands(p) => s.(row := AfterHeartbeat(s.row, p, s.instances[p].node, s.now))
    case Recheck(p) =>
      var state := GetMigrationBootDirection(s.applied, s.instances[p].bundle);
      At(s, p, if state.direction == Behind then Cleared else Releasing)
    case StartLatest(p) => At(s, p, Migrating(Without(s.instances[p].bundle, Names(s.applied))))
    case Apply(p) =>
      var queue := s.instances[p].phase.queue;
      At(s.(applied := s.applied + [queue[0]]), p, Migrating(queue[1..]))
    case MigrationThrows(p) => At(s, p, Releasing)
    case FinishLatest(p) => At(s, p, Releasing)
    case ReleaseLands(p) => At(s.(row := AfterRelease(s.row, p, s.instances[p].node)), p, Stopped)
    case ReleaseFails(p) => At(s, p, Stopped)
    case Crash(p) => At(s, p, Crashed)
    case Tick(elapsed) => s.(now := s.now + elapsed)
  }

  ghost predicate Init(s: State) {
    && s.row == UNLOCKED
    && NoDuplicates(s.applied)
    && forall p :: 0 <= p < |s.instances| ==>
                     s.instances[p].phase == Booting && NoDuplicates(s.instances[p].bundle)
  }

  ghost predicate IsRun(states: seq<State>, steps: seq<Step>) {
    && |states| == |steps| + 1
    && Init(states[0])
    && forall i :: 0 <= i < |steps| ==> Enabled(states[i], steps[i]) && states[i + 1] == Next(states[i], steps[i])
  }

  /** The recorded heartbeat of a running holder is not yet stale. */
  predicate Timely(s: State) {
    forall p :: 0 <= p < |s.instances| && Guarded(s.instances[p].phase) && s.row.sessionId == Some(p) ==>
                  s.row.heartbeat.Some? && s.row.heartbeat.value >= s.now - STALE_HEARTBEAT_THRESHOLD_MS
  }

  /** The timing assumption on a run: it is asked only where an acquire is attempted. */
  ghost predicate TimelyRun(states: seq<State>, steps: seq<Step>) {
    && IsRun(states, steps)
    && forall i :: 0 <= i < |steps| && steps[i].TryAcquire? ==> Timely(states[i])
  }

  predicate Exclusive(s: State) {
    forall p, q | 0 <= p < |s.instances| && 0 <= q < |s.instances| ::
      Guarded(s.instances[p].phase) && Guarded(s.instances[q].phase) ==> p == q
  }

  /** The inductive invariant behind mutual exclusion: whoever is guarded owns the row. */
  predicate OwnersOnly(s: State) {
    && WellFormed(s.row)
    && forall p :: 0 <= p < |s.instances| && Guarded(s.instances[p].phase) ==> Owns(p, s.instances[p].node, s.row)
  }

  /** What the lock protects: nothing is applied between a re-check and the migrations it allows. */
  predicate HistoryKept(s: State) {
    && NoDuplicates(s.applied)
    && forall p :: 0 <= p < |s.instances| ==>
                     var i := s.instances[p];
                     && NoDuplicates(i.bundle)
                     && (i.phase.Cleared? ==> Names(s.applied) < Names(i.bundle))
                     && (i.phase.Migrating? ==> && Names(s.applied) <= Names(i.bundle)
                                                && i.phase.queue == Without(i.bundle, Names(s.applied)))
  }

  lemma OwnersOnlyStep(s: State, step: Step)
    requires OwnersOnly(s) && Enabled(s, step)
    requires step.TryAcquire? ==> Timely(s)
    ensures OwnersOnly(Next(s, step))
  {
  }

  lemma HistoryKeptStep(s: State, step: Step)
    requires OwnersOnly(s) && HistoryKept(s) && Enabled(s, step)
    ensures HistoryKept(Next(s, step))
  {
    if step.Apply? {
      var i := s.instances[step.p];
      var m := i.phase.queue[0];
      assert m in i.phase.queue;
      WithoutNext(i.bundle, Names(s.applied));
      assert Names(s.applied + [m]) == Names(s.applied) + {m};
    }
  }

  lemma {:induction false} RunInvariant(states: seq<State>, steps: seq<Step>, n: nat)
    requires TimelyRun(states, steps) && n <= |steps|
    ensures OwnersOnly(states[n]) && HistoryKept(states[n])
  {
    if n > 0 {
      RunInvariant(states, steps, n - 1);
      OwnersOnlyStep(states[n - 1], steps[n - 1]);
      HistoryKeptStep(states[n - 1], steps[n - 1]);
    }
  }

  /** In every timely run at most one instance is in the guarded part at any time. */
  lemma MutualExclusion(states: seq<State>, steps: seq<Step>)
    requires TimelyRun(states, steps)
    ensures forall n :: 0 <= n < |states| ==> Exclusive(states[n])
  {
    forall n | 0 <= n < |states| ensures Exclusive(states[n]) {
      RunInvariant(states, steps, n);
    }
  }

  /** The assumption is exact: an acquire keeps exclusion if and only if the holder is timely. */
  lemma AcquireKeepsExclusionIffTimely(s: State, p: nat)
    requires OwnersOnly(s) && p < |s.instances| && s.instances[p].phase == Trying
    ensures Exclusive(Next(s, TryAcquire(p))) <==> Timely(s)
  {
    if Timely(s) {
      OwnersOnlyStep(s, TryAcquire(p));
    } else {
      var q :| 0 <= q < |s.instances| && Guarded(s.instances[q].phase) && s.row.sessionId == Some(q)
               && s.row.heartbeat.value < s.now - STALE_HEARTBEAT_THRESHOLD_MS;
      var t := Next(s, TryAcquire(p));
      assert Guarded(t.instances[p].phase) && Guarded(t.instances[q].phase);
    }
  }

  /**
   In every timely run `latest` starts only on a history that is a strict subset of the image's
   bundle, and every migration it records is bundled, new, and added to a history it bundles whole.
   */
  lemma NoForeignHistory(states: seq<State>, steps: seq<Step>, n: nat)
    requires TimelyRun(states, steps) && n < |steps|
    ensures steps[n].StartLatest? ==> Names(states[n].applied) < Names(states[n].instances[steps[n].p].bundle)
    ensures steps[n].Apply? ==>
              var bundle := Names(states[n].instances[steps[n].p].bundle);
              var m := states[n].instances[steps[n].p].phase.queue[0];
              && states[n + 1].applied == states[n].applied + [m]
              && m in bundle && m !in states[n].applied && Names(states[n].applied) <= bundle
    ensures steps[n].FinishLatest? ==>
              Names(states[n].applied) == Names(states[n].instances[steps[n].p].bundle)
  {
    RunInvariant(states, steps, n);
    if steps[n].Apply? {
      assert states[n].instances[steps[n].p].phase.queue[0] in states[n].instances[steps[n].p].phase.queue;
    } else if steps[n].FinishLatest? {
      var bundle := states[n].instances[steps[n].p].bundle;
      assert forall m :: m in bundle && m !in Names(states[n].applied) ==>
             m in Without(bundle, Names(states[n].applied));
    }
  }

  lemma {:induction false} BundlesFixed(states: seq<State>, steps: seq<Step>, n: nat)
    requires IsRun(states, steps) && n <= |steps|
    ensures |states[n].instances| == |states[0].instances|
    ensures forall p :: 0 <= p < |states[0].instances| ==>
                          states[n].instances[p].bundle == states[0].instances[p].bundle
  {
    if n > 0 {
      BundlesFixed(states, steps, n - 1);
    }
  }

  /**
   With identical images and an empty database, the applied list is at every moment a prefix of the
   bundle: in order, each migration once, whatever crashes, throws or fails to release.
   */
  lemma {:induction false} AppliedIsPrefixOfBundle(states: seq<State>, steps: seq<Step>, bundle: seq<string>, n: nat)
    requires TimelyRun(states, steps) && n <= |steps|
    requires states[0].applied == []
    requires forall p :: 0 <= p < |states[0].instances| ==> states[0].instances[p].bundle == bundle
    ensures states[n].applied <= bundle
  {
    if n > 0 {
      AppliedIsPrefixOfBundle(states, steps, bundle, n - 1);
      RunInvariant(states, steps, n - 1);
      BundlesFixed(states, steps, n - 1);
      PrefixStep(states[n - 1], steps[n - 1], bundle);
    }
  }

  lemma PrefixStep(s: State, step: Step, bundle: seq<string>)
    requires HistoryKept(s) && Enabled(s, step) && s.applied <= bundle
    requires forall p :: 0 <= p < |s.instances| ==> s.instances[p].bundle == bundle
    ensures Next(s, step).applied <= bundle
  {
    if step.Apply? {
      ApplyExtendsPrefix(s, step.p, bundle);
    }
  }

  lemma ApplyExtendsPrefix(s: State, p: nat, bundle: seq<string>)
    requires HistoryKept(s) && Enabled(s, Apply(p))
    requires s.instances[p].bundle == bundle && s.applied <= bundle
    ensures Next(s, Apply(p)).applied <= bundle
  {
    assert s.applied == bundle[..|s.applied|];
    WithoutPrefix(bundle, |s.applied|);
  }

  /** History is append-only: nothing recorded is ever dropped or reordered. */
  lemma {:induction false} HistoryOnlyGrows(states: seq<State>, steps: seq<Step>, m: nat, n: nat)
    requires IsRun(states, steps) && m <= n <= |steps|
    ensures states[m].applied <= states[n].applied
  {
    if m < n {
      HistoryOnlyGrows(states, steps, m, n - 1);
    }
  }

  /** The row is unlocked, or names one of the instances as its owner. */
  predicate OwnerNamed(s: State) {
    && WellFormed(s.row)
    && (s.row.sessionId.Some? ==>
          s.row.sessionId.value < |s.instances|
            && Owns(s.row.sessionId.value, s.instances[s.row.sessionId.value].node, s.row))
  }

  lemma {:induction false} RunNamesOwner(states: seq<State>, steps: seq<Step>, n: nat)
    requires IsRun(states, steps) && n <= |steps|
    ensures OwnerNamed(states[n])
  {
    if n > 0 {
      RunNamesOwner(states, steps, n - 1);
    }
  }

  /**
   Fencing, with no timing assumption: in every run the row stays well formed, an acquire gives it to
   a session exactly when it is claimable, the owner's own heartbeat renews it and its own release
   frees it, and no other step, and no other session's heartbeat or release, touches it.
   */
  lemma OwnershipMovesOnlyByAcquire(states: seq<State>, steps: seq<Step>, n: nat)
    requires IsRun(states, steps) && n < |steps|
    ensures WellFormed(states[n].row) && WellFormed(states[n + 1].row)
    ensures var (step, before, after) := (steps[n], states[n].row, states[n + 1].row);
            if step.TryAcquire? && Claimable(before, states[n].now) then
              after == Locked(step.p, states[n].instances[step.p].node, states[n].now)
            else if step.HeartbeatLands? && before.sessionId == Some(step.p) then
              after == before.(heartbeat := Some(states[n].now))
            else if step.ReleaseLands? && before.sessionId == Some(step.p) then after == UNLOCKED
            else after == before
  {
    RunNamesOwner(states, steps, n);
    RunNamesOwner(states, steps, n + 1);
  }

  lemma {:induction false} ClockNeverGoesBack(states: seq<State>, steps: seq<Step>, m: nat, n: nat)
    requires IsRun(states, steps) && m <= n <= |steps|
    ensures states[m].now <= states[n].now
  {
    if m < n {
      ClockNeverGoesBack(states, steps, m, n - 1);
    }
  }

  /**
   A lease holds: whoever owns the row with a heartbeat recorded now still owns it as long as no more
   than the staleness threshold has passed, whatever the others do, unless it releases.
   */
  lemma {:induction false} LeaseHolds(states: seq<State>, steps: seq<Step>, m: nat, n: nat, p: nat)
    requires IsRun(states, steps) && m <= n <= |steps|
    requires states[m].row.sessionId == Some(p) && states[m].row.heartbeat == Some(states[m].now)
    requires states[n].now - states[m].now <= STALE_HEARTBEAT_THRESHOLD_MS
    requires forall i :: m <= i < n ==> steps[i] != ReleaseLands(p)
    ensures states[n].row.sessionId == Some(p)
    ensures states[n].row.heartbeat.Some? && states[n].row.heartbeat.value >= states[m].now
  {
    if m < n {
      ClockNeverGoesBack(states, steps, m, n - 1);
      ClockNeverGoesBack(states, steps, n - 1, n);
      LeaseHolds(states, steps, m, n - 1, p);
      OwnershipMovesOnlyByAcquire(states, steps, n - 1);
    }
  }

  /** Attempt `k` of the run finds the row claimable, so it is granted. */
  predicate GrantedAt(states: seq<State>, steps: seq<Step>, k: nat) {
    k < |steps| && k < |states| && steps[k].TryAcquire? && Claimable(states[k].row, states[k].now)
  }

  /** While nothing is granted and the owner's heartbeat stays away, the row is what it was, or free. */
  lemma {:induction false} SilentOwnersRow(states: seq<State>, steps: seq<Step>, m: nat, n: nat, p: nat)
    requires IsRun(states, steps) && m <= n <= |steps|
    requires states[m].row.sessionId == Some(p)
    requires forall i :: m <= i < n ==> steps[i] != HeartbeatLands(p) && !GrantedAt(states, steps, i)
    ensures states[n].row == states[m].row || states[n].row == UNLOCKED
  {
    if m < n {
      SilentOwnersRow(states, steps, m, n - 1, p);
      OwnershipMovesOnlyByAcquire(states, steps, n - 1);
    }
  }

  /**
   A lock left behind never blocks for good: once an owner's heartbeats have stayed away for more
   than the threshold, whether it crashed, hung or lost its release, the next attempt of anyone is
   granted, unless another attempt has been granted before it.
   */
  lemma AbandonedLockIsTakenOver(states: seq<State>, steps: seq<Step>, m: nat, n: nat, p: nat)
    requires IsRun(states, steps) && m <= n < |steps| && steps[n].TryAcquire?
    requires states[m].row.sessionId == Some(p)
    requires forall i :: m <= i < n ==> steps[i] != HeartbeatLands(p)
    requires states[m].row.heartbeat.Some? ==>
               states[n].now - states[m].row.heartbeat.value > STALE_HEARTBEAT_THRESHOLD_MS
    ensures exists k :: m <= k <= n && GrantedAt(states, steps, k)
  {
    if forall i :: m <= i < n ==> !GrantedAt(states, steps, i) {
      RunNamesOwner(states, steps, m);
      SilentOwnersRow(states, steps, m, n, p);
      assert GrantedAt(states, steps, n);
    }
  }

  // The timing assumption over whole runs.

  lemma PrefixIsRun(states: seq<State>, steps: seq<Step>, n: nat)
    requires IsRun(states, steps) && n <= |steps|
    ensures IsRun(states[..n + 1], steps[..n])
  {
  }

  /** An acquire that is the first untimely one of the run lets a second instance in. */
  lemma FirstUntimelyAcquire(states: seq<State>, steps: seq<Step>, n: nat)
    requires IsRun(states, steps) && n < |steps| && steps[n].TryAcquire? && !Timely(states[n])
    requires forall i :: 0 <= i < n && steps[i].TryAcquire? ==> Timely(states[i])
    ensures !Exclusive(states[n + 1])
  {
    PrefixIsRun(states, steps, n);
    RunInvariant(states[..n + 1], steps[..n], n);
    AcquireKeepsExclusionIffTimely(states[n], steps[n].p);
  }

  lemma {:induction false} UntimelyBreaksExclusion(states: seq<State>, steps: seq<Step>, n: nat)
    requires IsRun(states, steps) && n < |steps| && steps[n].TryAcquire? && !Timely(states[n])
    ensures exists k :: 0 <= k < |states| && !Exclusive(states[k])
  {
    if i :| 0 <= i < n && steps[i].TryAcquire? && !Timely(states[i]) {
      UntimelyBreaksExclusion(states, steps, i);
    } else {
      FirstUntimelyAcquire(states, steps, n);
    }
  }

  /** A run keeps mutual exclusion throughout if and only if its holders are timely at every acquire. */
  lemma ExclusionIffTimelyRun(states: seq<State>, steps: seq<Step>)
    requires IsRun(states, steps)
    ensures (forall k :: 0 <= k < |states| ==> Exclusive(states[k])) <==> TimelyRun(states, steps)
  {
    if TimelyRun(states, steps) {
      MutualExclusion(states, steps);
    } else {
      var n :| 0 <= n < |steps| && steps[n].TryAcquire? && !Timely(states[n]);
      UntimelyBreaksExclusion(states, steps, n);
    }
  }

  /** Step `m` is the session's grant, or a heartbeat of it landing. */
  predicate Beat(states: seq<State>, steps: seq<Step>, m: nat, p: nat) {
    && m < |steps| && m < |states|
    && (steps[m] == HeartbeatLands(p) || (steps[m] == TryAcquire(p) && Claimable(states[m].row, states[m].now)))
  }

  /** Whoever is guarded has got the row, or had a heartbeat land, within the threshold. */
  ghost predicate Beating(states: seq<State>, steps: seq<Step>, n: nat)
    requires n < |states|
  {
    forall p :: 0 <= p < |states[n].instances| && Guarded(states[n].instances[p].phase) ==>
                  exists m :: 0 <= m < n && Beat(states, steps, m, p)
                              && states[n].now - states[m].now <= STALE_HEARTBEAT_THRESHOLD_MS
  }

  /** While a session owns the row, no beat of it is later than what the row records. */
  lemma {:induction false} BeatsAreRecorded(states: seq<State>, steps: seq<Step>, m: nat, n: nat, p: nat)
    requires IsRun(states, steps) && m < n <= |steps|
    requires Beat(states, steps, m, p) && states[n].row.sessionId == Some(p)
    ensures states[n].row.heartbeat.Some? && states[n].row.heartbeat.value >= states[m].now
  {
    OwnershipMovesOnlyByAcquire(states, steps, n - 1);
    ClockNeverGoesBack(states, steps, m, n - 1);
    if m < n - 1 && states[n - 1].row.sessionId == Some(p) {
      BeatsAreRecorded(states, steps, m, n - 1, p);
    }
  }

  /**
   The timing assumption in terms of the schedule: if at every attempt every guarded instance's last
   beat is at most 15 s old, the run is timely, so it keeps mutual exclusion.
   */
  lemma HeartbeatsKeepExclusion(states: seq<State>, steps: seq<Step>)
    requires IsRun(states, steps)
    requires forall n :: 0 <= n < |steps| && steps[n].TryAcquire? ==> Beating(states, steps, n)
    ensures TimelyRun(states, steps)
    ensures forall n :: 0 <= n < |states| ==> Exclusive(states[n])
  {
    forall n | 0 <= n < |steps| && steps[n].TryAcquire? ensures Timely(states[n]) {
      forall p | 0 <= p < |states[n].instances| && Guarded(states[n].instances[p].phase)
                 && states[n].row.sessionId == Some(p)
        ensures states[n].row.heartbeat.Some?
                && states[n].row.heartbeat.value >= states[n].now - STALE_HEARTBEAT_THRESHOLD_MS
      {
        assert Beating(states, steps, n);
        var m :| 0 <= m < n && Beat(states, steps, m, p)
                 && states[n].now - states[m].now <= STALE_HEARTBEAT_THRESHOLD_MS;
        BeatsAreRecorded(states, steps, m, n, p);
      }
    }
    MutualExclusion(states, steps);
  }

  /** Two instances of one image, and a holder that is silent for one millisecond too long. */
  lemma SilentHolderIsJoined(m: string) returns (states: seq<State>, steps: seq<Step>)
    ensures IsRun(states, steps)
    ensures steps == [BootCheck(0), BootCheck(1), TryAcquire(0), Tick(STALE_HEARTBEAT_THRESHOLD_MS + 1), TryAcquire(1)]
    ensures |states[5].instances| == 2
    ensures states[5].instances[0].phase == Holding && states[5].instances[1].phase == Holding
    ensures !Exclusive(states[5])
  {
    steps := [BootCheck(0), BootCheck(1), TryAcquire(0), Tick(STALE_HEARTBEAT_THRESHOLD_MS + 1), TryAcquire(1)];
    var s0 := State(UNLOCKED, 0, [], [Instance("a", [m], Booting), Instance("b", [m], Booting)]);
    assert m in Names([m]) && m !in Names([]);
    var s1 := Next(s0, steps[0]);
    var s2 := Next(s1, steps[1]);
    assert s2.instances == [Instance("a", [m], Trying), Instance("b", [m], Trying)];
    var s3 := Next(s2, steps[2]);
    var s4 := Next(s3, steps[3]);
    var s5 := Next(s4, steps[4]);
    states := [s0, s1, s2, s3, s4, s5];
    assert s5.instances == [Instance("a", [m], Holding), Instance("b", [m], Holding)];
    assert Guarded(s5.instances[0].phase) && Guarded(s5.instances[1].phase);
  }

  // Progress: what an instance gets done when nothing stands in its way.

  /** A boot goes on to the lock, and a re-check to the migrations, exactly when the database is behind the image. */
  lemma GoesOnIffBehind(s: State, p: nat)
    requires p < |s.instances|
    ensures var behind := Names(s.applied) < Names(s.instances[p].bundle);
            && (Enabled(s, BootCheck(p)) ==>
                  Next(s, BootCheck(p)).instances[p].phase == if behind then Trying else Stopped)
            && (Enabled(s, Recheck(p)) ==>
                  Next(s, Recheck(p)).instances[p].phase == if behind then Cleared else Releasing)
  {
  }

  /** However the guarded part ends, the release is next, and when it lands the owner's row is free. */
  lemma GuardedPartEndsInRelease(s: State, step: Step)
    requires OwnerNamed(s) && Enabled(s, step)
    requires step.MigrationThrows? || step.FinishLatest?
             || (step.Recheck? && !(Names(s.applied) < Names(s.instances[step.p].bundle)))
    ensures var t := Next(s, step);
            && t.row == s.row && t.applied == s.applied
            && Enabled(t, ReleaseLands(step.p)) && Enabled(t, ReleaseFails(step.p))
            && Next(t, ReleaseLands(step.p)).instances[step.p].phase == Stopped
            && Next(t, ReleaseFails(step.p)).instances[step.p].phase == Stopped
            && (s.row.sessionId == Some(step.p) ==> Next(t, ReleaseLands(step.p)).row == UNLOCKED)
  {
    GoesOnIffBehind(s, step.p);
  }

  /** Each step of `steps` is enabled after those before it. */
  predicate CanRun(s: State, steps: seq<Step>)
    decreases |steps|
  {
    steps == [] || (Enabled(s, steps[0]) && CanRun(Next(s, steps[0]), steps[1..]))
  }

  function After(s: State, steps: seq<Step>): State
    requires CanRun(s, steps)
    decreases |steps|
  {
    if steps == [] then s else After(Next(s, steps[0]), steps[1..])
  }

  lemma RunFirst(s: State, first: Step, rest: seq<Step>)
    ensures CanRun(s, [first] + rest) <==> Enabled(s, first) && CanRun(Next(s, first), rest)
    ensures CanRun(s, [first] + rest) ==> After(s, [first] + rest) == After(Next(s, first), rest)
  {
    assert ([first] + rest)[1..] == rest;
  }

  /** One step of `latest` per pending migration, then its end and the release. */
  function Migrate(p: nat, pending: nat): seq<Step> {
    if pending == 0 then [FinishLatest(p), ReleaseLands(p)] else [Apply(p)] + Migrate(p, pending - 1)
  }

  /** A whole boot of `p` that migrates. */
  function Boot(p: nat, pending: nat): seq<Step> {
    [BootCheck(p)] + ([TryAcquire(p)] + ([Recheck(p)] + ([StartLatest(p)] + Migrate(p, pending))))
  }

  /** The boot is over: the pending migrations are recorded, the row is free, nobody else is touched. */
  predicate BootedFrom(s: State, t: State, p: nat, pending: seq<string>) {
    && t.applied == s.applied + pending && t.row == UNLOCKED && t.now == s.now
    && p < |s.instances| == |t.instances|
    && t.instances == s.instances[p := s.instances[p].(phase := Stopped)]
  }

  lemma {:induction false} MigrateRuns(s: State, p: nat)
    requires p < |s.instances| && s.instances[p].phase.Migrating? && Owns(p, s.instances[p].node, s.row)
    ensures var queue := s.instances[p].phase.queue;
            && CanRun(s, Migrate(p, |queue|))
            && BootedFrom(s, After(s, Migrate(p, |queue|)), p, queue)
    decreases |s.instances[p].phase.queue|
  {
    var queue := s.instances[p].phase.queue;
    if queue == [] {
      RunFirst(s, FinishLatest(p), [ReleaseLands(p)]);
      RunFirst(Next(s, FinishLatest(p)), ReleaseLands(p), []);
      assert [FinishLatest(p)] + [ReleaseLands(p)] == Migrate(p, 0) && [ReleaseLands(p)] + [] == [ReleaseLands(p)];
      assert s.applied + [] == s.applied;
    } else {
      MigrateRuns(Next(s, Apply(p)), p);
      RunFirst(s, Apply(p), Migrate(p, |queue| - 1));
      assert s.applied + queue == (s.applied + [queue[0]]) + queue[1..];
    }
  }

  /**
   From any state in which `p` is about to boot an image the database is behind of, and the row can be
   claimed, `p` alone gets through: the steps of a boot are enabled one after the other, and they end
   with the history extended by the pending migrations in bundle order to all of the bundle, the row
   free and `p` stopped.
   */
  lemma BootMigrates(s: State, p: nat)
    requires p < |s.instances| && s.instances[p].phase == Booting && Claimable(s.row, s.now)
    requires Names(s.applied) < Names(s.instances[p].bundle)
    ensures var pending := Without(s.instances[p].bundle, Names(s.applied));
            && CanRun(s, Boot(p, |pending|))
            && BootedFrom(s, After(s, Boot(p, |pending|)), p, pending)
            && Names(s.applied + pending) == Names(s.instances[p].bundle)
  {
    var pending := Without(s.instances[p].bundle, Names(s.applied));
    var rest := Migrate(p, |pending|);
    var t := Next(Next(Next(Next(s, BootCheck(p)), TryAcquire(p)), Recheck(p)), StartLatest(p));
    BootStarts(s, p, rest);
    MigrateRuns(t, p);
    BootedFromStart(s, t, After(t, rest), p, pending);
    AllRecorded(s.applied, s.instances[p].bundle);
  }

  lemma BootedFromStart(s: State, t: State, u: State, p: nat, pending: seq<string>)
    requires p < |s.instances| && t.applied == s.applied && t.now == s.now && |t.instances| == |s.instances|
    requires forall q :: 0 <= q < |s.instances| && q != p ==> t.instances[q] == s.instances[q]
    requires t.instances[p].(phase := Stopped) == s.instances[p].(phase := Stopped)
    requires BootedFrom(t, u, p, pending)
    ensures BootedFrom(s, u, p, pending)
  {
    assert t.instances[p := t.instances[p].(phase := Stopped)] == s.instances[p := s.instances[p].(phase := Stopped)];
  }

  lemma AllRecorded(applied: seq<string>, bundle: seq<string>)
    requires Names(applied) <= Names(bundle)
    ensures Names(applied + Without(bundle, Names(applied))) == Names(bundle)
  {
    var pending := Without(bundle, Names(applied));
    assert forall m :: m in applied + pending <==> m in applied || m in pending;
  }

  /** The four steps up to the first migration. */
  lemma BootStarts(s: State, p: nat, rest: seq<Step>)
    requires p < |s.instances| && s.instances[p].phase == Booting && Claimable(s.row, s.now)
    requires Names(s.applied) < Names(s.instances[p].bundle)
    ensures Enabled(s, BootCheck(p))
    ensures var s1 := Next(s, BootCheck(p));
            && Enabled(s1, TryAcquire(p))
            && var s2 := Next(s1, TryAcquire(p));
            && Enabled(s2, Recheck(p))
            && var s3 := Next(s2, Recheck(p));
            && Enabled(s3, StartLatest(p))
            && var t := Next(s3, StartLatest(p));
            && t.instances == s.instances[p := s.instances[p].(
                                phase := Migrating(Without(s.instances[p].bundle, Names(s.applied))))]
            && t.applied == s.applied && t.now == s.now && t.row == Locked(p, s.instances[p].node, s.now)
            && (CanRun(t, rest) ==>
                  && CanRun(s, [BootCheck(p)] + ([TryAcquire(p)] + ([Recheck(p)] + ([StartLatest(p)] + rest))))
                  && After(s, [BootCheck(p)] + ([TryAcquire(p)] + ([Recheck(p)] + ([StartLatest(p)] + rest))))
                     == After(t, rest))
  {
    var s1 := Next(s, BootCheck(p));
    var s2 := Next(s1, TryAcquire(p));
    var s3 := Next(s2, Recheck(p));
    var t := Next(s3, StartLatest(p));
    RunFirst(s3, StartLatest(p), rest);
    RunFirst(s2, Recheck(p), [StartLatest(p)] + rest);
    RunFirst(s1, TryAcquire(p), [Recheck(p)] + ([StartLatest(p)] + rest));
    RunFirst(s, BootCheck(p), [TryAcquire(p)] + ([Recheck(p)] + ([StartLatest(p)] + rest)));
  }

  /** An instance that stopped or crashed takes no further part, but for heartbeats on their way. */
  lemma {:induction false} OverIsOver(states: seq<State>, steps: seq<Step>, m: nat, n: nat, p: nat)
    requires IsRun(states, steps) && m <= n < |steps|
    requires p < |states[m].instances|
    requires states[m].instances[p].phase.Stopped? || states[m].instances[p].phase.Crashed?
    ensures |states[n].instances| == |states[m].instances|
    ensures states[n].instances[p].phase.Stopped? || states[n].instances[p].phase.Crashed?
    ensures !steps[n].Tick? && steps[n].p == p ==> steps[n].HeartbeatLands? || steps[n].Crash?
  {
    if m < n {
      OverIsOver(states, steps, m, n - 1, p);
    }
  }

  /** Giving up and crashing end an instance's part and touch nothing else. */
  lemma LeavingTouchesNothing(s: State, step: Step)
    requires Enabled(s, step) && (step.GiveUp? || step.Crash?)
    ensures var t, over := Next(s, step), if step.GiveUp? then Stopped else Crashed;
            && t.row == s.row && t.applied == s.applied && t.now == s.now && |t.instances| == |s.instances|
            && t.instances[step.p].phase == over
            && forall q :: 0 <= q < |s.instances| && q != step.p ==> t.instances[q] == s.instances[q]
  {
  }

  /** An attempt that is not granted changes nothing, and can be made again. */
  lemma RefusedTriesAgain(s: State, p: nat)
    requires Enabled(s, TryAcquire(p)) && !Claimable(s.row, s.now)
    ensures Next(s, TryAcquire(p)) == s
  {
    assert s.instances[p := s.instances[p].(phase := Trying)] == s.instances;
  }

  /** What may happen to an instance in each phase: every run of the laws above is open to all of it. */
  lemma AnythingMayHappen(s: State, p: nat, elapsed: nat)
    requires p < |s.instances|
    ensures Enabled(s, Tick(elapsed)) && Enabled(s, Crash(p))
    ensures var phase := s.instances[p].phase;
            && (phase.Trying? ==> Enabled(s, TryAcquire(p)) && Enabled(s, GiveUp(p)))
            && (phase.Holding? ==> Enabled(s, Recheck(p)) && Enabled(s, MigrationThrows(p)))
            && (phase.Cleared? ==> Enabled(s, StartLatest(p)) && Enabled(s, MigrationThrows(p)))
            && (phase.Migrating? ==>
                  && Enabled(s, MigrationThrows(p))
                  && (if phase.queue == [] then Enabled(s, FinishLatest(p)) else Enabled(s, Apply(p))))
            && (phase.Releasing? ==> Enabled(s, ReleaseLands(p)) && Enabled(s, ReleaseFails(p)))
            && (!phase.Booting? && !phase.Trying? ==> Enabled(s, HeartbeatLands(p)))
  {
  }
}
