/**
 Instances racing to create the migration tables. Every query is a step of its own; a transaction's
 writes are private until it commits, and a session-wide advisory lock serialises the transactions.
 */
module MigrationTables {
  import opened Wrappers

  // For each table that exists, how many rows it holds.
  datatype Catalog = Catalog(lockTable: Option<nat>, startupTable: Option<nat>)

  const NOTHING := Catalog(None, None)

  /** What a session sees: its own uncommitted writes over the committed state. */
  function Seen(committed: Catalog, own: Catalog): Catalog {
    Catalog(if own.lockTable.Some? then own.lockTable else committed.lockTable,
            if own.startupTable.Some? then own.startupTable else committed.startupTable)
  }

  /** The program counter of `ensureMigrationTables`; `tx` says whether the queries run in the transaction. */
  datatype Phase =
    | ProbeLockTable(tx: bool)
    | ProbeStartupTable(tx: bool, lockTable: bool)
    | CountLockRows(tx: bool)
    | CountStartupRows(tx: bool, lockRows: nat)
    | WaitForAdvisoryLock
    | RunCurrentVersion
    | EnsureProbe(tx: bool)
    | EnsureCreate(tx: bool)
    | EnsureSelect(tx: bool)
    | EnsureInsert(tx: bool)
    | Commit
    | Ready
    | Failed

  predicate InTransaction(phase: Phase) {
    match phase
    case ProbeLockTable(tx) => tx
    case ProbeStartupTable(tx, _) => tx
    case CountLockRows(tx) => tx
    case CountStartupRows(tx, _) => tx
    case RunCurrentVersion => true
    case EnsureProbe(tx) => tx
    case EnsureCreate(tx) => tx
    case EnsureSelect(tx) => tx
    case EnsureInsert(tx) => tx
    case Commit => true
    case _ => false
  }

  datatype Instance = Instance(phase: Phase, own: Catalog, created: nat)

  /** `creations` counts the committed CREATE TABLE statements for the startup lock table. */
  datatype State = State(committed: Catalog, advisoryLock: Option<nat>, creations: nat, instances: seq<Instance>)

  datatype Step = Run(p: nat) | Abort(p: nat)

  predicate Enabled(s: State, step: Step) {
    && step.p < |s.instances|
    && var phase := s.instances[step.p].phase;
       if step.Abort? then !phase.Ready? && !phase.Failed?
       else match phase
            case WaitForAdvisoryLock => s.advisoryLock == None
            case Ready => false
            case Failed => false
            case _ => true
  }

  /** What one query does: the instance after it, the committed tables, and tables it committed. */
  datatype Effect = Effect(me: Instance, committed: Catalog, created: nat)

  const GAVE_UP := Instance(Failed, NOTHING, 0)

  /** The end of `isMigrationInitialized`: initialised or not, inside the transaction or not. */
  function Probed(tx: bool, initialized: bool): Phase {
    if tx then (if initialized then Commit else RunCurrentVersion)
    else (if initialized then EnsureProbe(false) else WaitForAdvisoryLock)
  }

  /** Write to the private catalog inside the transaction, to the committed one outside. */
  function Write(committed: Catalog, me: Instance, tx: bool, startupTable: Option<nat>, created: nat): Effect {
    if tx then Effect(me.(own := me.own.(startupTable := startupTable), created := me.created + created), committed, 0)
    else Effect(me, committed.(startupTable := startupTable), created)
  }

  function Query(committed: Catalog, me: Instance): Effect {
    var seen := Seen(committed, me.own);
    match me.phase
    case ProbeLockTable(tx) => Effect(me.(phase := ProbeStartupTable(tx, seen.lockTable.Some?)), committed, 0)
    case ProbeStartupTable(tx, lockTable) =>
      var next := if lockTable && seen.startupTable.Some? then CountLockRows(tx) else Probed(tx, false);
      Effect(me.(phase := next), committed, 0)
    case CountLockRows(tx) =>
      var rows := if seen.lockTable.Some? then seen.lockTable.value else 0;
      Effect(me.(phase := CountStartupRows(tx, rows)), committed, 0)
    case CountStartupRows(tx, lockRows) =>
      var initialized := lockRows > 0 && seen.startupTable.Some? && seen.startupTable.value > 0;
      Effect(me.(phase := Probed(tx, initialized)), committed, 0)
    case WaitForAdvisoryLock => Effect(me.(phase := ProbeLockTable(true)), committed, 0)
    case RunCurrentVersion =>
      // creates the migration lock table and its first row where they are missing
      var rows := if seen.lockTable.Some? && seen.lockTable.value > 0 then seen.lockTable.value else 1;
      Effect(me.(own := me.own.(lockTable := Some(rows)), phase := EnsureProbe(true)), committed, 0)
    case EnsureProbe(tx) =>
      Effect(me.(phase := if seen.startupTable.Some? then EnsureSelect(tx) else EnsureCreate(tx)), committed, 0)
    case EnsureCreate(tx) =>
      // CREATE TABLE on a table that exists is an error
      if seen.startupTable.Some? then Effect(GAVE_UP, committed, 0)
      else Write(committed, me.(phase := EnsureSelect(tx)), tx, Some(0), 1)
    case EnsureSelect(tx) =>
      var done := if tx then Commit else Ready;
      var empty := seen.startupTable.None? || seen.startupTable.value == 0;
      Effect(me.(phase := if empty then EnsureInsert(tx) else done), committed, 0)
    case EnsureInsert(tx) =>
      var rows := if seen.startupTable.Some? then seen.startupTable.value else 0;
      Write(committed, me.(phase := if tx then Commit else Ready), tx, Some(rows + 1), 0)
    case Commit => Effect(Instance(Ready, NOTHING, 0), seen, me.created)
    case Ready => Effect(me, committed, 0)
    case Failed => Effect(me, committed, 0)
  }

  /** The advisory lock is taken by waiting for it and goes with the transaction. */
  function Next(s: State, step: Step): State
    requires Enabled(s, step)
  {
    var p := step.p;
    var effect := if step.Abort? then Effect(GAVE_UP, s.committed, 0) else Query(s.committed, s.instances[p]);
    State(effect.committed,
          if InTransaction(effect.me.phase) then Some(p)
          else if s.advisoryLock == Some(p) then None else s.advisoryLock,
          s.creations + effect.created,
          s.instances[p := effect.me])
  }

  ghost predicate Init(s: State) {
    && s.advisoryLock == None
    && (s.committed.startupTable.Some? ==> s.committed.startupTable.value <= 1)
    && s.creations == 0
    && forall p :: 0 <= p < |s.instances| ==> s.instances[p] == Instance(ProbeLockTable(false), NOTHING, 0)
  }

  ghost predicate IsRun(states: seq<State>, steps: seq<Step>) {
    && |states| == |steps| + 1
    && Init(states[0])
    && forall i :: 0 <= i < |steps| ==> Enabled(states[i], steps[i]) && states[i + 1] == Next(states[i], steps[i])
  }

  predicate HasOneRow(catalog: Catalog) {
    catalog.startupTable == Some(1)
  }

  predicate Initialized(catalog: Catalog) {
    catalog.lockTable.Some? && catalog.lockTable.value > 0 && HasOneRow(catalog)
  }

  /** What each program counter knows about the tables. */
  predicate Knows(committed: Catalog, me: Instance) {
    var seen := Seen(committed, me.own);
    && (!InTransaction(me.phase) ==> me.own == NOTHING && me.created == 0)
    && (me.own.startupTable.None? ==> me.created == 0)
    && (me.own.startupTable.Some? ==> me.created == if committed.startupTable.None? then 1 else 0)
    && (seen.startupTable.Some? ==> seen.startupTable.value <= 1)
    && match me.phase
       case ProbeLockTable(_) => me.own == NOTHING
       case ProbeStartupTable(_, lockTable) => me.own == NOTHING && (lockTable ==> committed.lockTable.Some?)
       case CountLockRows(_) => me.own == NOTHING && committed.lockTable.Some? && committed.startupTable.Some?
       case CountStartupRows(_, lockRows) =>
         && me.own == NOTHING && committed.startupTable.Some?
         && (lockRows > 0 ==> committed.lockTable.Some? && committed.lockTable.value > 0)
       case WaitForAdvisoryLock => true
       case RunCurrentVersion => me.own == NOTHING
       case EnsureProbe(tx) =>
         if tx then me.own.startupTable.None? && seen.lockTable.Some? && seen.lockTable.value > 0
         else Initialized(committed)
       case EnsureCreate(tx) =>
         tx && seen.lockTable.Some? && seen.lockTable.value > 0 && seen.startupTable.None?
       case EnsureSelect(tx) =>
         && seen.lockTable.Some? && seen.lockTable.value > 0 && seen.startupTable.Some?
         && (!tx ==> Initialized(committed))
       case EnsureInsert(tx) =>
         tx && seen.lockTable.Some? && seen.lockTable.value > 0 && seen.startupTable == Some(0)
       case Commit => Initialized(seen)
       case Ready => Initialized(committed)
       case Failed => true
  }

  predicate Invariant(s: State, first: Catalog) {
    && CreationsCounted(s.committed, s.creations, first)
    && (forall p :: 0 <= p < |s.instances| ==> Knows(s.committed, s.instances[p]))
    && (forall p :: 0 <= p < |s.instances| && InTransaction(s.instances[p].phase) ==> s.advisoryLock == Some(p))
  }

  lemma {:induction false} RunInvariant(states: seq<State>, steps: seq<Step>, n: nat)
    requires IsRun(states, steps) && n <= |steps|
    ensures Invariant(states[n], states[0].committed)
  {
    if n > 0 {
      RunInvariant(states, steps, n - 1);
      StepKeepsInvariant(states[n - 1], steps[n - 1], states[0].committed);
    }
  }

  lemma StepKeepsInvariant(s: State, step: Step, first: Catalog)
    requires Invariant(s, first) && Enabled(s, step)
    ensures Invariant(Next(s, step), first)
  {
    var me := s.instances[step.p];
    assert Knows(s.committed, me);
    if step.Run? {
      QueryKeepsKnowledge(s.committed, me);
      OnlyCommitPublishes(s.committed, me);
    }
    OthersKeepKnowledge(s, Next(s, step), step.p, first);
  }

  lemma QueryKeepsKnowledge(committed: Catalog, me: Instance)
    requires Knows(committed, me)
    ensures var effect := Query(committed, me); Knows(effect.committed, effect.me)
  {
    if Probes(me.phase) {
      ProbeKeepsKnowledge(committed, me);
    } else {
      EnsureKeepsKnowledge(committed, me);
    }
  }

  /** The queries of `isMigrationInitialized` and the wait for the advisory lock. */
  predicate Probes(phase: Phase) {
    || phase.ProbeLockTable? || phase.ProbeStartupTable? || phase.CountLockRows? || phase.CountStartupRows?
    || phase.WaitForAdvisoryLock?
  }

  lemma ProbeKeepsKnowledge(committed: Catalog, me: Instance)
    requires Knows(committed, me) && Probes(me.phase)
    ensures var effect := Query(committed, me); Knows(effect.committed, effect.me)
  {
  }

  lemma EnsureKeepsKnowledge(committed: Catalog, me: Instance)
    requires Knows(committed, me) && !Probes(me.phase)
    ensures var effect := Query(committed, me); Knows(effect.committed, effect.me)
  {
  }

  /** Only a commit reaches the committed state, and it leaves the tables initialised. */
  lemma OnlyCommitPublishes(committed: Catalog, me: Instance)
    requires Knows(committed, me)
    ensures var effect := Query(committed, me);
            if me.phase.Commit? then
              && Initialized(effect.committed)
              && effect.created == (if committed.startupTable.None? then 1 else 0)
            else effect.committed == committed && effect.created == 0
  {
  }

  predicate CreationsCounted(committed: Catalog, creations: nat, first: Catalog) {
    && (committed.startupTable.Some? ==> committed.startupTable.value <= 1)
    && creations == (if first.startupTable.None? && committed.startupTable.Some? then 1 else 0)
    && (first.startupTable.Some? ==> committed.startupTable.Some?)
  }

  lemma OthersKeepKnowledge(s: State, t: State, p: nat, first: Catalog)
    requires Invariant(s, first) && p < |s.instances| == |t.instances|
    requires forall q :: 0 <= q < |s.instances| && q != p ==> t.instances[q] == s.instances[q]
    requires s.advisoryLock.Some? && s.advisoryLock.value != p ==> t.advisoryLock == s.advisoryLock
    requires Knows(t.committed, t.instances[p])
    requires InTransaction(t.instances[p].phase) ==> t.advisoryLock == Some(p)
    requires CreationsCounted(t.committed, t.creations, first)
    requires t.committed != s.committed ==> Initialized(t.committed) && InTransaction(s.instances[p].phase)
    ensures Invariant(t, first)
  {
    forall q | 0 <= q < |t.instances| && q != p ensures Knows(t.committed, t.instances[q]) {
      assert Knows(s.committed, s.instances[q]);
    }
  }

  /**
   In every run, from any database whose startup lock table is absent or has at most one row: the
   table is created at most once, never gets a second row, and has exactly one, beside an initialised
   migration lock table, as soon as any instance gets through.
   */
  lemma ExactlyOneLockRow(states: seq<State>, steps: seq<Step>, n: nat)
    requires IsRun(states, steps) && n <= |steps|
    ensures states[n].creations <= 1
    ensures states[n].committed.startupTable.Some? ==> states[n].committed.startupTable.value <= 1
    ensures forall p :: 0 <= p < |states[n].instances| && states[n].instances[p].phase == Ready ==>
                          Initialized(states[n].committed)
    ensures states[0].committed == NOTHING && states[n].committed.startupTable.Some? ==>
              states[n].creations == 1
  {
    RunInvariant(states, steps, n);
    forall p | 0 <= p < |states[n].instances| && states[n].instances[p].phase == Ready
      ensures Initialized(states[n].committed)
    {
      assert Knows(states[n].committed, states[n].instances[p]);
    }
  }

  /** No instance ever meets a table it was about to create: the only way to fail is to be aborted. */
  lemma CreateNeverCollides(states: seq<State>, steps: seq<Step>, n: nat)
    requires IsRun(states, steps) && n < |steps| && steps[n].Run?
    ensures states[n + 1].instances[steps[n].p].phase != Failed
  {
    RunInvariant(states, steps, n);
    assert Knows(states[n].committed, states[n].instances[steps[n].p]);
  }

  // Every run ends, and ends well.

  /** How many steps an instance has left at most. */
  function StepsLeft(phase: Phase): nat {
    match phase
    case ProbeLockTable(tx) => if tx then 10 else 15
    case ProbeStartupTable(tx, _) => if tx then 9 else 14
    case CountLockRows(tx) => if tx then 8 else 13
    case CountStartupRows(tx, _) => if tx then 7 else 12
    case WaitForAdvisoryLock => 11
    case RunCurrentVersion => 6
    case EnsureProbe(_) => 5
    case EnsureCreate(_) => 4
    case EnsureSelect(_) => 3
    case EnsureInsert(_) => 2
    case Commit => 1
    case Ready => 0
    case Failed => 0
  }

  function AllStepsLeft(instances: seq<Instance>): nat {
    if instances == [] then 0 else StepsLeft(instances[0].phase) + AllStepsLeft(instances[1..])
  }

  lemma {:induction false} FewerLeft(before: seq<Instance>, after: Instance, p: nat)
    requires p < |before| && StepsLeft(after.phase) < StepsLeft(before[p].phase)
    ensures AllStepsLeft(before[p := after]) < AllStepsLeft(before)
  {
    if p > 0 {
      assert before[p := after][1..] == before[1..][p - 1 := after];
      FewerLeft(before[1..], after, p - 1);
    } else {
      assert before[p := after][1..] == before[1..];
    }
  }

  /** Whatever the tables hold by then, an instance never goes back. */
  lemma StepDescends(s: State, step: Step)
    requires Enabled(s, step)
    ensures AllStepsLeft(Next(s, step).instances) < AllStepsLeft(s.instances)
  {
    var effect := if step.Abort? then Effect(GAVE_UP, s.committed, 0) else Query(s.committed, s.instances[step.p]);
    FewerLeft(s.instances, effect.me, step.p);
  }

  lemma {:induction false} RunDescends(states: seq<State>, steps: seq<Step>, n: nat)
    requires IsRun(states, steps) && n <= |steps|
    ensures |states[n].instances| == |states[0].instances|
    ensures AllStepsLeft(states[n].instances) + n <= AllStepsLeft(states[0].instances)
  {
    if n > 0 {
      RunDescends(states, steps, n - 1);
      StepDescends(states[n - 1], steps[n - 1]);
    }
  }

  lemma {:induction false} StartLeft(instances: seq<Instance>)
    requires forall p :: 0 <= p < |instances| ==> StepsLeft(instances[p].phase) == 15
    ensures AllStepsLeft(instances) == 15 * |instances|
  {
    if instances != [] {
      StartLeft(instances[1..]);
    }
  }

  /** No run is longer than fifteen steps an instance, whatever the interleaving. */
  lemma RunsEnd(states: seq<State>, steps: seq<Step>)
    requires IsRun(states, steps)
    ensures |steps| <= 15 * |states[0].instances|
  {
    StartLeft(states[0].instances);
    RunDescends(states, steps, |steps|);
  }

  /** Nobody but an instance in its transaction holds the advisory lock. */
  predicate LockIsHeld(s: State) {
    s.advisoryLock.Some? ==>
      s.advisoryLock.value < |s.instances| && InTransaction(s.instances[s.advisoryLock.value].phase)
  }

  lemma {:induction false} RunHoldsLock(states: seq<State>, steps: seq<Step>, n: nat)
    requires IsRun(states, steps) && n <= |steps|
    ensures LockIsHeld(states[n])
  {
    if n > 0 {
      RunHoldsLock(states, steps, n - 1);
    }
  }

  predicate Over(instance: Instance) {
    instance.phase.Ready? || instance.phase.Failed?
  }

  /** As long as some instance is not over, some instance can take a step. */
  lemma SomebodyCanGoOn(states: seq<State>, steps: seq<Step>, n: nat, p: nat) returns (q: nat)
    requires IsRun(states, steps) && n <= |steps|
    requires p < |states[n].instances| && !Over(states[n].instances[p])
    ensures q < |states[n].instances| && Enabled(states[n], Run(q))
  {
    RunHoldsLock(states, steps, n);
    var s := states[n];
    q := if s.instances[p].phase.WaitForAdvisoryLock? && s.advisoryLock.Some? then s.advisoryLock.value else p;
  }

  lemma {:induction false} NobodyFails(states: seq<State>, steps: seq<Step>, n: nat)
    requires IsRun(states, steps) && n <= |steps| && forall i :: 0 <= i < |steps| ==> steps[i].Run?
    ensures forall p :: 0 <= p < |states[n].instances| ==> !states[n].instances[p].phase.Failed?
  {
    if n > 0 {
      NobodyFails(states, steps, n - 1);
      CreateNeverCollides(states, steps, n - 1);
    }
  }

  /**
   Arrival: a run in which nobody is aborted, and which goes on until nobody can take a step, ends
   with every instance through and the tables initialised; from a fresh database the startup lock table
   has then been created exactly once.
   */
  lemma EverybodyGetsThrough(states: seq<State>, steps: seq<Step>)
    requires IsRun(states, steps) && forall i :: 0 <= i < |steps| ==> steps[i].Run?
    requires forall q :: 0 <= q < |states[|steps|].instances| ==> !Enabled(states[|steps|], Run(q))
    ensures var last := states[|steps|];
            && (forall p :: 0 <= p < |last.instances| ==> last.instances[p].phase == Ready)
            && (last.instances != [] ==> Initialized(last.committed))
            && (last.instances != [] && states[0].committed == NOTHING ==> last.creations == 1)
  {
    var n := |steps|;
    NobodyFails(states, steps, n);
    forall p | 0 <= p < |states[n].instances| ensures states[n].instances[p].phase == Ready {
      if !Over(states[n].instances[p]) {
        var q := SomebodyCanGoOn(states, steps, n, p);
        assert false;
      }
    }
    ExactlyOneLockRow(states, steps, n);
    assert states[n].instances != [] ==> states[n].instances[0].phase == Ready;
  }

  /** On initialised tables an instance only looks. */
  predicate OnlyLooks(phase: Phase) {
    match phase
    case ProbeLockTable(tx) => !tx
    case ProbeStartupTable(tx, lockTable) => !tx && lockTable
    case CountLockRows(tx) => !tx
    case CountStartupRows(tx, lockRows) => !tx && lockRows > 0
    case EnsureProbe(tx) => !tx
    case EnsureSelect(tx) => !tx
    case Ready => true
    case Failed => true
    case _ => false
  }

  /** Initialised tables stay exactly as they are in every run. */
  lemma {:induction false} InitializedStays(states: seq<State>, steps: seq<Step>, n: nat)
    requires IsRun(states, steps) && n <= |steps| && Initialized(states[0].committed)
    ensures states[n].committed == states[0].committed && states[n].creations == 0
    ensures forall p :: 0 <= p < |states[n].instances| ==>
                          states[n].instances[p].own == NOTHING && OnlyLooks(states[n].instances[p].phase)
  {
    if n > 0 {
      InitializedStays(states, steps, n - 1);
    }
  }

  /** Any instance that is not over may be aborted, which undoes what it has not committed and frees its lock. */
  lemma AbortUndoes(s: State, p: nat)
    requires p < |s.instances| && !Over(s.instances[p])
    ensures Enabled(s, Abort(p))
    ensures var t := Next(s, Abort(p));
            && t.committed == s.committed && t.creations == s.creations
            && t.instances == s.instances[p := Instance(Failed, NOTHING, 0)]
            && (s.advisoryLock == Some(p) ==> t.advisoryLock == None)
            && (s.advisoryLock != Some(p) ==> t.advisoryLock == s.advisoryLock)
  {
  }

  /** Nobody is through without having seen the row, or put it there: its last query was one of these three. */
  lemma ThroughOnlyAfterEnsure(s: State, step: Step)
    requires Enabled(s, step) && Next(s, step).instances[step.p].phase == Ready
    ensures step.Run? && var me := s.instances[step.p];
            || (me.phase == EnsureSelect(false)
                && Seen(s.committed, me.own).startupTable.Some? && Seen(s.committed, me.own).startupTable.value > 0)
            || me.phase == EnsureInsert(false)
            || me.phase == Commit
  {
  }
}
