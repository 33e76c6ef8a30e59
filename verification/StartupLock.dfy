/**
 The startup lock: one database row used as a lease. It is taken by one conditional UPDATE, kept
 alive by a heartbeat, and given back by a fenced UPDATE. Times are milliseconds.
 */
module StartupLock {
  import opened Wrappers

  const ACQUIRE_LOCK_TIMEOUT_MS := 5 * 60 * 1000
  const HEARTBEAT_INTERVAL_MS := 5000
  const STALE_HEARTBEAT_THRESHOLD_MS := HEARTBEAT_INTERVAL_MS * 3

  // A session id is a fresh random UUID per lock attempt; a number stands for it here.
  type Session = nat

  datatype Row = Row(isLocked: int, sessionId: Option<Session>, node: Option<string>, heartbeat: Option<int>)

  const UNLOCKED := Row(0, None, None, None)

  function Locked(session: Session, node: string, now: int): Row {
    Row(1, Some(session), Some(node), Some(now))
  }

  predicate WellFormed(row: Row) {
    row == UNLOCKED
    || (row.isLocked == 1 && row.sessionId.Some? && row.node.Some? && row.heartbeat.Some?)
  }

  predicate Claimable(row: Row, now: int) {
    || row.isLocked == 0
    || (row.isLocked == 1
        && (row.heartbeat.None? || row.heartbeat.value < now - STALE_HEARTBEAT_THRESHOLD_MS))
  }

  predicate Owns(session: Session, node: string, row: Row) {
    row.sessionId == Some(session) && row.node == Some(node) && row.isLocked == 1
  }

  function AfterAcquire(row: Row, session: Session, node: string, now: int): Row {
    if Claimable(row, now) then Locked(session, node, now) else row
  }

  function AfterHeartbeat(row: Row, session: Session, node: string, now: int): Row {
    if Owns(session, node, row) then row.(heartbeat := Some(now)) else row
  }

  function AfterRelease(row: Row, session: Session, node: string): Row {
    if Owns(session, node, row) then UNLOCKED else row
  }

  /** No attempt gets the row up to and including `time`. */
  ghost predicate HeldUntil(row: Row, time: int) {
    forall now :: now <= time ==> !Claimable(row, now)
  }

  /** The limits in seconds, and what is free for the taking: a row not locked, or silent for more than fifteen. */
  lemma LimitsInSeconds(row: Row, now: int)
    ensures ACQUIRE_LOCK_TIMEOUT_MS == 300 * 1000
    ensures row.isLocked == 1 ==>
              (!Claimable(row, now) <==> row.heartbeat.Some? && now - row.heartbeat.value <= 15 * 1000)
    ensures row.isLocked == 0 ==> Claimable(row, now)
    ensures row.isLocked != 0 && row.isLocked != 1 ==> !Claimable(row, now)
  {
  }

  predicate AnyClaimable(rows: seq<Row>, now: int) {
    exists i :: 0 <= i < |rows| && Claimable(rows[i], now)
  }

  /**
   One pass of the retry loop as the world shows it to this session: the clock at the loop head,
   the table and database clock its UPDATE meets, and the clock when the answer is back.
   */
  datatype Round = Round(clock: int, table: seq<Row>, dbNow: int, clockAfter: int)

  /** A claimable row was met in pass `i`, and no clock reading before it was past the timeout. */
  predicate GrantedInTime(rounds: seq<Round>, start: int, i: nat) {
    && i < |rounds| && AnyClaimable(rounds[i].table, rounds[i].dbNow)
    && (forall j :: 0 <= j <= i ==> rounds[j].clock - start < ACQUIRE_LOCK_TIMEOUT_MS)
    && (forall j :: 0 <= j < i ==> rounds[j].clockAfter - start < ACQUIRE_LOCK_TIMEOUT_MS)
  }

  datatype Outcome = Finished | Threw

  datatype LockResult = Migrated | MigrationFailed | LockTimedOut

  class LockTable {
    var rows: seq<Row>

    constructor ()
      ensures rows == [UNLOCKED]
    {
      rows := [UNLOCKED];
    }

    /**
     A grant is a lease: the row is this session's, and nobody can claim it before the threshold has
     passed. A row under another session's live heartbeat is not touched.
     */
    method AcquireLock(session: Session, node: string, now: int) returns (acquired: bool)
      modifies this
      ensures |rows| == |old(rows)|
      ensures forall i :: 0 <= i < |rows| && !Claimable(old(rows)[i], now) ==> rows[i] == old(rows)[i]
      ensures forall i :: 0 <= i < |rows| && Claimable(old(rows)[i], now) ==> rows[i] == Locked(session, node, now)
      ensures forall i :: 0 <= i < |rows| && Claimable(old(rows)[i], now) ==>
                            Owns(session, node, rows[i]) && HeldUntil(rows[i], now + STALE_HEARTBEAT_THRESHOLD_MS)
      ensures acquired <==> AnyClaimable(old(rows), now)
      ensures (forall i :: 0 <= i < |rows| ==> old(rows)[i].sessionId != Some(session)) ==>
                (acquired <==> exists i :: 0 <= i < |rows| && Owns(session, node, rows[i]))
    {
      acquired := exists i :: 0 <= i < |rows| && Claimable(rows[i], now);
      var before := rows;
      rows := seq(|before|, i requires 0 <= i < |before| => AfterAcquire(before[i], session, node, now));
      assert forall i :: 0 <= i < |rows| && Claimable(before[i], now) ==> Owns(session, node, rows[i]);
    }

    /**
     The fence: only rows this session owns change, they stay its own, and their lease runs for the
     threshold from now.
     */
    method UpdateHeartbeat(session: Session, node: string, now: int)
      modifies this
      ensures |rows| == |old(rows)|
      ensures forall i :: 0 <= i < |rows| && !Owns(session, node, old(rows)[i]) ==> rows[i] == old(rows)[i]
      ensures forall i :: 0 <= i < |rows| && Owns(session, node, old(rows)[i]) ==>
                            && Owns(session, node, rows[i]) && rows[i].heartbeat == Some(now)
                            && HeldUntil(rows[i], now + STALE_HEARTBEAT_THRESHOLD_MS)
    {
      var before := rows;
      rows := seq(|before|, i requires 0 <= i < |before| => AfterHeartbeat(before[i], session, node, now));
    }

    /** The same fence: afterwards the session owns nothing, and what it owned is free for anyone at any time. */
    method ReleaseLock(session: Session, node: string)
      modifies this
      ensures |rows| == |old(rows)|
      ensures forall i :: 0 <= i < |rows| && !Owns(session, node, old(rows)[i]) ==> rows[i] == old(rows)[i]
      ensures forall i :: 0 <= i < |rows| && Owns(session, node, old(rows)[i]) ==>
                            rows[i] == UNLOCKED && forall now :: Claimable(rows[i], now)
      ensures forall i :: 0 <= i < |rows| ==> !Owns(session, node, rows[i])
    {
      var before := rows;
      rows := seq(|before|, i requires 0 <= i < |before| => AfterRelease(before[i], session, node));
    }

    /**
     The retry loop. `rounds` is what the outside world does at each pass; it ends with a clock
     reading past the timeout, so the loop cannot outlive it.
     */
    method AcquireWithRetry(session: Session, node: string, start: int, rounds: seq<Round>)
      returns (acquired: bool, attempts: nat)
      requires rounds != [] && rounds[|rounds| - 1].clock - start >= ACQUIRE_LOCK_TIMEOUT_MS
      modifies this
      ensures attempts <= |rounds|
      ensures forall i :: 0 <= i < attempts ==> rounds[i].clock - start < ACQUIRE_LOCK_TIMEOUT_MS
      ensures forall i :: 0 <= i < attempts - 1 ==> rounds[i].clockAfter - start < ACQUIRE_LOCK_TIMEOUT_MS
      ensures forall i :: 0 <= i < attempts - 1 ==> !AnyClaimable(rounds[i].table, rounds[i].dbNow)
      ensures acquired <==> attempts > 0 && AnyClaimable(rounds[attempts - 1].table, rounds[attempts - 1].dbNow)
      ensures attempts == 0 ==> rows == old(rows)
      ensures attempts > 0 ==> var last := rounds[attempts - 1];
                               && |rows| == |last.table|
                               && forall i :: 0 <= i < |rows| ==>
                                                rows[i] == AfterAcquire(last.table[i], session, node, last.dbNow)
      ensures !acquired ==>
                || (attempts < |rounds| && rounds[attempts].clock - start >= ACQUIRE_LOCK_TIMEOUT_MS)
                || (attempts > 0 && rounds[attempts - 1].clockAfter - start >= ACQUIRE_LOCK_TIMEOUT_MS)
    {
      acquired, attempts := false, 0;
      while rounds[attempts].clock - start < ACQUIRE_LOCK_TIMEOUT_MS
        invariant attempts < |rounds| && !acquired
        invariant forall i :: 0 <= i < attempts ==>
                                && rounds[i].clock - start < ACQUIRE_LOCK_TIMEOUT_MS
                                && rounds[i].clockAfter - start < ACQUIRE_LOCK_TIMEOUT_MS
                                && !AnyClaimable(rounds[i].table, rounds[i].dbNow)
        invariant attempts == 0 ==> rows == old(rows)
        invariant attempts > 0 ==> var last := rounds[attempts - 1];
                                   && |rows| == |last.table|
                                   && forall i :: 0 <= i < |rows| ==>
                                                    rows[i] == AfterAcquire(last.table[i], session, node, last.dbNow)
        decreases |rounds| - attempts
      {
        var round := rounds[attempts];
        attempts := attempts + 1;
        rows := round.table;
        acquired := AcquireLock(session, node, round.dbNow);
        if acquired {
          break;
        }
        if ACQUIRE_LOCK_TIMEOUT_MS - (round.clockAfter - start) <= 0 {
          break;
        }
      }
    }

    /**
     The whole guarded run: it times out if and only if no claimable row was met in time, and otherwise
     the migrations start (`atStart`) with a row owned by this session. `table` is what the lock table
     holds when they are over and the release is sent; `releaseFails` says that the database refused it.
     */
    method WithStartupLock(session: Session, node: string, start: int, rounds: seq<Round>, outcome: Outcome,
                           table: seq<Row>, releaseFails: bool)
      returns (result: LockResult, ghost atStart: seq<Row>)
      requires rounds != [] && rounds[|rounds| - 1].clock - start >= ACQUIRE_LOCK_TIMEOUT_MS
      modifies this
      ensures result != LockTimedOut <==> exists i :: GrantedInTime(rounds, start, i)
      ensures result == LockTimedOut ==>
                rows == old(rows)
                || exists i :: 0 <= i < |rounds| && rows == rounds[i].table && !AnyClaimable(rows, rounds[i].dbNow)
      ensures result != LockTimedOut ==> exists i :: 0 <= i < |atStart| && Owns(session, node, atStart[i])
      ensures result != LockTimedOut ==> (result == Migrated <==> outcome == Finished)
      ensures result != LockTimedOut && releaseFails ==> rows == table
      ensures result != LockTimedOut && !releaseFails ==>
                && |rows| == |table|
                && forall i :: 0 <= i < |rows| ==>
                                 rows[i] == if Owns(session, node, table[i]) then UNLOCKED else table[i]
    {
      var acquired, attempts := AcquireWithRetry(session, node, start, rounds);
      atStart := rows;
      if !acquired {
        assert attempts > 0 ==> rows == rounds[attempts - 1].table;
        result := LockTimedOut;
        return;
      }
      assert GrantedInTime(rounds, start, attempts - 1);
      var i :| 0 <= i < |rows| && Claimable(rounds[attempts - 1].table[i], rounds[attempts - 1].dbNow);
      assert Owns(session, node, atStart[i]);
      rows := table;
      if !releaseFails {
        ReleaseLock(session, node);
      }
      result := if outcome == Finished then Migrated else MigrationFailed;
    }
  }
}
