/** Each assumption of `Config.Sound` is needed: without it, some run breaks atomicity. */
module PercolatorAssumptions {
  import opened Bytes
  import opened Percolator
  import opened PercolatorSafety

  ghost predicate Reachable(cfg: Config, txn: Txn, s: State) {
    exists run: seq<Action> :: RunState(cfg, txn, run) == Some(s)
  }

  ghost predicate AlwaysAtomic(cfg: Config) {
    forall txn: Txn, s: State | txn.Valid() && Reachable(cfg, txn, s) :: txn.primary in s.cells && Atomic(txn, s)
  }

  /** Primary 0 and one secondary, started at physical time 1. */
  const TWO_KEYS := Txn({0, 1}, 0, LOGICAL_RANGE)

  lemma Start() returns (s: State)
    ensures forall cfg: Config :: Reachable(cfg, TWO_KEYS, s)
    ensures s == State(map[0 := Cell(false, false, 0), 1 := Cell(false, false, 0)], {}, {}, FRESH_CLIENT)
  {
    s := Initial(TWO_KEYS);
    forall cfg: Config ensures Reachable(cfg, TWO_KEYS, s) {
      assert RunState(cfg, TWO_KEYS, []) == Some(s);
    }
  }

  lemma Take(cfg: Config, s: State, a: Action) returns (s': State)
    requires Reachable(cfg, TWO_KEYS, s) && Enabled(cfg, TWO_KEYS, s, a)
    ensures s' == Next(cfg, TWO_KEYS, s, a) && Reachable(cfg, TWO_KEYS, s')
  {
    s' := Next(cfg, TWO_KEYS, s, a);
    var run: seq<Action> :| RunState(cfg, TWO_KEYS, run) == Some(s);
    assert (run + [a])[..|run + [a]| - 1] == run;
    assert RunState(cfg, TWO_KEYS, run + [a]) == Some(s');
  }

  const COMMIT_TS: Timestamp := LOGICAL_RANGE + 1

  /** The two keys live in different regions; the primary is prewritten first. */
  lemma PrimaryPrewritten(cfg: Config) returns (s: State)
    ensures Reachable(cfg, TWO_KEYS, s)
    ensures s.cells == map[0 := Cell(true, false, 0), 1 := Cell(false, false, 0)]
    ensures Prewrite({0}, 1) in s.sent && s.client == Client(Prewriting, 1, {0}, 0, false, false, false)
  {
    s := Start();
    s := Take(cfg, s, ByClient(Begin));
    s := Take(cfg, s, ByClient(SendPrewrite({0})));
    s := Take(cfg, s, Deliver(Prewrite({0}, 1)));
    s := Take(cfg, s, ByClient(PrewriteAcked({0})));
  }

  lemma PrewrittenInTwoRegions(cfg: Config) returns (s: State)
    ensures Reachable(cfg, TWO_KEYS, s)
    ensures s.cells == map[0 := Cell(true, false, 0), 1 := Cell(true, false, 0)]
    ensures Prewrite({0}, 1) in s.sent && s.client == Client(Prewriting, 1, {0, 1}, 0, false, false, false)
  {
    s := PrimaryPrewritten(cfg);
    s := Take(cfg, s, ByClient(SendPrewrite({1})));
    s := Take(cfg, s, Deliver(Prewrite({1}, 1)));
    s := Take(cfg, s, ByClient(PrewriteAcked({1})));
  }

  /** The primary's commit request is on its way, not yet executed. */
  lemma PrimaryCommitInFlight(cfg: Config) returns (s: State)
    requires !cfg.try1PC
    ensures Reachable(cfg, TWO_KEYS, s)
    ensures s.cells == map[0 := Cell(true, false, 0), 1 := Cell(true, false, 0)]
    ensures CommitKeys({0}, COMMIT_TS) in s.sent && Prewrite({0}, 1) in s.sent
    ensures s.client == Client(Primary, 1, {0, 1}, COMMIT_TS, false, false, false)
  {
    s := PrewrittenInTwoRegions(cfg);
    s := Take(cfg, s, ByClient(GotTimestamp(COMMIT_TS)));
    s := Take(cfg, s, ByClient(SendPrimaryCommit));
  }

  /** Try1PC on a transaction that spans regions skips the primary's commit and commits a secondary under an
      uncommitted primary. */
  lemma Try1PCBreaks(cfg: Config) returns (s: State)
    requires cfg.try1PC
    ensures Reachable(cfg, TWO_KEYS, s) && s.cells.Keys == {0, 1} && s.cells[1].commitTS > 0 && s.cells[0].commitTS == 0
  {
    s := PrewrittenInTwoRegions(cfg);
    s := Take(cfg, s, ByClient(GotTimestamp(COMMIT_TS)));
    s := Take(cfg, s, ByClient(PrimarySkipped));
    s := Take(cfg, s, ByClient(SendSecondaries({1})));
    s := Take(cfg, s, Deliver(CommitKeys({1}, COMMIT_TS)));
  }

  ghost predicate Torn(s: State) {
    s.cells.Keys == {0, 1} && s.cells[0].commitTS > 0 && s.cells[1].rolledBack
  }

  /** KvCleanup rolls a secondary back while its primary is locked and about to commit. */
  lemma CleanupBreaks(cfg: Config) returns (s: State)
    requires !cfg.try1PC && cfg.cleanupRequests
    ensures Reachable(cfg, TWO_KEYS, s) && Torn(s)
  {
    s := PrimaryCommitInFlight(cfg);
    s := Take(cfg, s, Cleanup(1));
    s := Take(cfg, s, Deliver(CommitKeys({0}, COMMIT_TS)));
  }

  /** The committer has lost the reply to its primary commit and asks for the status. */
  lemma StatusAsked(cfg: Config) returns (s: State)
    requires !cfg.try1PC
    ensures Reachable(cfg, TWO_KEYS, s)
    ensures s.cells == map[0 := Cell(true, false, 0), 1 := Cell(true, false, 0)]
    ensures CommitKeys({0}, COMMIT_TS) in s.sent && Check(1) in s.sent
    ensures s.client == Client(Checking, 1, {0, 1}, COMMIT_TS, false, false, false)
  {
    s := PrimaryCommitInFlight(cfg);
    s := Take(cfg, s, ByClient(PrimaryFailed));
    s := Take(cfg, s, ByClient(SendCheck));
  }

  /** With a zero TTL the committer's own status check reports a live lock like a rolled-back one, and it rolls back
      under a commit in flight. */
  lemma ZeroTTLBreaks(cfg: Config) returns (s: State)
    requires !cfg.try1PC && cfg.lockTTL == 0
    ensures Reachable(cfg, TWO_KEYS, s) && Torn(s)
  {
    s := StatusAsked(cfg);
    assert !Expired(cfg, TWO_KEYS, 0);
    s := Take(cfg, s, Deliver(Check(1)));
    s := Take(cfg, s, ByClient(StatusRead(StatusReply(0, 0))));
    s := Take(cfg, s, ByClient(SendAbort({1})));
    s := Take(cfg, s, Deliver(RollbackKeys({1})));
    s := Take(cfg, s, Deliver(CommitKeys({0}, COMMIT_TS)));
  }

  /** A KeyError in the status reply makes the committer roll back under a commit in flight. */
  lemma StatusKeyErrorBreaks(cfg: Config) returns (s: State)
    requires !cfg.try1PC && cfg.statusKeyErrors
    ensures Reachable(cfg, TWO_KEYS, s) && Torn(s)
  {
    s := StatusAsked(cfg);
    s := Take(cfg, s, FailStatus(1));
    s := Take(cfg, s, ByClient(StatusRead(StatusReply(0, 0))));
    s := Take(cfg, s, ByClient(SendAbort({1})));
    s := Take(cfg, s, Deliver(RollbackKeys({1})));
    s := Take(cfg, s, Deliver(CommitKeys({0}, COMMIT_TS)));
  }

  /** A prewrite repeated after the rollback locks the primary again, and the delayed commit succeeds. */
  lemma LatePrewriteBreaks(cfg: Config) returns (s: State)
    requires !cfg.try1PC && !cfg.rollbackBlocksPrewrite
    ensures Reachable(cfg, TWO_KEYS, s) && Torn(s)
  {
    var late := (1 + cfg.lockTTL) * LOGICAL_RANGE;
    assert Expired(cfg, TWO_KEYS, late);
    s := PrimaryCommitInFlight(cfg);
    s := Take(cfg, s, ResolverAsks(late));
    s := Take(cfg, s, Deliver(ResolverCheck(late)));
    s := Take(cfg, s, ResolverActs(StatusReply(0, 0), 1));
    s := Take(cfg, s, Deliver(Resolve(1, 0)));
    s := Take(cfg, s, Deliver(Prewrite({0}, 1)));
    s := Take(cfg, s, Deliver(CommitKeys({0}, COMMIT_TS)));
  }

  /** A first Commit has failed and its rollback of the secondary is still on its way. */
  lemma AbortInFlight(cfg: Config) returns (s: State)
    ensures Reachable(cfg, TWO_KEYS, s)
    ensures s.cells == map[0 := Cell(false, false, 0), 1 := Cell(false, false, 0)]
    ensures RollbackKeys({1}) in s.sent && s.client == Client(Idle, 1, {}, 0, false, false, false)
  {
    s := Start();
    s := Take(cfg, s, ByClient(Begin));
    s := Take(cfg, s, ByClient(PrewriteFailed));
    s := Take(cfg, s, ByClient(SendAbort({1})));
    s := Take(cfg, s, ByClient(CommitReturnsError));
  }

  lemma SecondAttemptStarted(cfg: Config) returns (s: State)
    requires cfg.handleReused
    ensures Reachable(cfg, TWO_KEYS, s)
    ensures s.cells == map[0 := Cell(true, false, 0), 1 := Cell(false, false, 0)]
    ensures RollbackKeys({1}) in s.sent && s.client == Client(Prewriting, 2, {0}, 0, false, false, false)
  {
    s := AbortInFlight(cfg);
    s := Take(cfg, s, ByClient(Begin));
    s := Take(cfg, s, ByClient(SendPrewrite({0})));
    s := Take(cfg, s, Deliver(Prewrite({0}, 2)));
    s := Take(cfg, s, ByClient(PrewriteAcked({0})));
  }

  lemma SecondAttemptPrewritten(cfg: Config) returns (s: State)
    requires cfg.handleReused
    ensures Reachable(cfg, TWO_KEYS, s)
    ensures s.cells == map[0 := Cell(true, false, 0), 1 := Cell(true, false, 0)]
    ensures RollbackKeys({1}) in s.sent && s.client == Client(Primary, 2, {0, 1}, COMMIT_TS, false, false, false)
  {
    s := SecondAttemptStarted(cfg);
    s := Take(cfg, s, ByClient(SendPrewrite({1})));
    s := Take(cfg, s, Deliver(Prewrite({1}, 2)));
    s := Take(cfg, s, ByClient(PrewriteAcked({1})));
    s := Take(cfg, s, ByClient(GotTimestamp(COMMIT_TS)));
  }

  /** A second Commit on the handle races with the rollback of the first. */
  lemma HandleReuseBreaks(cfg: Config) returns (s: State)
    requires !cfg.try1PC && cfg.handleReused
    ensures Reachable(cfg, TWO_KEYS, s) && Torn(s)
  {
    s := SecondAttemptPrewritten(cfg);
    s := Take(cfg, s, ByClient(SendPrimaryCommit));
    s := Take(cfg, s, Deliver(CommitKeys({0}, COMMIT_TS)));
    s := Take(cfg, s, Deliver(RollbackKeys({1})));
  }

  /** A Rollback called while Commit runs passes its flag checks, which Commit only sets at the end, and rolls a
      secondary back under the primary's commit in flight. */
  lemma OverlappingCallsBreak(cfg: Config) returns (s: State)
    requires !cfg.try1PC && cfg.overlappingCalls
    ensures Reachable(cfg, TWO_KEYS, s) && Torn(s)
  {
    s := PrimaryCommitInFlight(cfg);
    s := Take(cfg, s, ByClient(CallRollback));
    s := Take(cfg, s, ByClient(SendRollback({1})));
    s := Take(cfg, s, Deliver(RollbackKeys({1})));
    s := Take(cfg, s, Deliver(CommitKeys({0}, COMMIT_TS)));
  }

  /** The protocol is atomic in every run exactly under the listed assumptions. */
  lemma AtomicExactlyWhenSound(cfg: Config)
    ensures AlwaysAtomic(cfg) <==> cfg.Sound()
  {
    if cfg.Sound() {
      forall txn: Txn, s: State | txn.Valid() && Reachable(cfg, txn, s)
          ensures txn.primary in s.cells && Atomic(txn, s) {
        var run: seq<Action> :| RunState(cfg, txn, run) == Some(s);
        CheckedRunIsSafe(cfg, txn, run);
        AtomicInEveryState(cfg, txn, run);
      }
    } else {
      var s: State;
      if cfg.try1PC {
        s := Try1PCBreaks(cfg);
      } else if cfg.cleanupRequests {
        s := CleanupBreaks(cfg);
      } else if cfg.lockTTL == 0 {
        s := ZeroTTLBreaks(cfg);
      } else if cfg.statusKeyErrors {
        s := StatusKeyErrorBreaks(cfg);
      } else if !cfg.rollbackBlocksPrewrite {
        s := LatePrewriteBreaks(cfg);
      } else if cfg.overlappingCalls {
        s := OverlappingCallsBreak(cfg);
      } else {
        s := HandleReuseBreaks(cfg);
      }
      assert !(TWO_KEYS.primary in s.cells && Atomic(TWO_KEYS, s));
      assert TWO_KEYS.Valid() && Reachable(cfg, TWO_KEYS, s);
    }
  }

  // ----- Prewrite as written does not look at the rollback record -----

  /** The configuration of the code: rollback records do not refuse prewrites. */
  predicate AsWritten(cfg: Config) {
    cfg.Careful() && !cfg.rollbackBlocksPrewrite
  }

  /** With prewrite as written, every run in which no prewrite reaches a rolled-back primary is atomic, late
      prewrites of secondaries included; Commit's nil means committed there, and rollbacks are only sent where no
      commit follows. */
  lemma CodeAtomicWithoutLatePrewrite(cfg: Config, txn: Txn, run: seq<Action>)
    requires AsWritten(cfg) && txn.Valid() && RunState(cfg, txn, run).Some? && SafeRun(cfg, txn, run)
    ensures var s := RunState(cfg, txn, run).value;
            && txn.primary in s.cells && Atomic(txn, s)
            && (s.client.committed ==> s.cells[txn.primary].commitTS == s.client.commitTS > txn.startTS)
            && (forall m | m in s.sent && m.RollbackKeys? :: s.cells[txn.primary].commitTS == 0)
  {
    AtomicInEveryState(cfg, txn, run);
    var s := RunState(cfg, txn, run).value;
    if s.client.committed {
      SuccessMeansCommitted(cfg, txn, run);
    }
    assert run[..|run|] == run;
    forall m | m in s.sent && m.RollbackKeys? ensures s.cells[txn.primary].commitTS == 0 {
      RollbackOnlyWhenHopeless(cfg, txn, run, |run|, m.ks);
    }
  }

  /** And a late prewrite of the primary is what it takes: without it no run is torn, with it some run is. */
  lemma LatePrewriteIsTheOnlyBreak(cfg: Config)
    requires AsWritten(cfg)
    ensures exists run: seq<Action> :: TornRun(cfg, run)
    ensures forall run: seq<Action> | TornRun(cfg, run) :: !SafeRun(cfg, TWO_KEYS, run)
  {
    var s := LatePrewriteBreaks(cfg);
    var run: seq<Action> :| RunState(cfg, TWO_KEYS, run) == Some(s);
    assert TornRun(cfg, run);
    forall other: seq<Action> | TornRun(cfg, other) ensures !SafeRun(cfg, TWO_KEYS, other) {
      if SafeRun(cfg, TWO_KEYS, other) {
        AtomicInEveryState(cfg, TWO_KEYS, other);
      }
    }
  }

  ghost predicate TornRun(cfg: Config, run: seq<Action>) {
    RunState(cfg, TWO_KEYS, run).Some? && Torn(RunState(cfg, TWO_KEYS, run).value)
  }
}
