/** Atomicity and outcome soundness of the commit protocol, over every run. */
module PercolatorSafety {
  import opened Bytes
  import opened Percolator

  /** The primary can no longer be committed: it carries a rollback record, or the committer has
      given up (or was never started before Rollback) without ever sending the primary's commit. */
  ghost predicate Dead(txn: Txn, s: State) {
    && txn.primary in s.cells
    && (s.cells[txn.primary].rolledBack || GaveUp(txn, s))
  }

  ghost predicate GaveUp(txn: Txn, s: State) {
    && (s.client.phase.Aborting? || (s.client.phase.Idle? && (s.client.attempt > 0 || s.client.rolledBack)))
    && NoPrimaryCommitSent(txn, s)
  }

  ghost predicate NoPrimaryCommitSent(txn: Txn, s: State) {
    forall m | m in s.sent :: !(m.CommitKeys? && txn.primary in m.ks)
  }

  /** A key is untouched, locked, committed or rolled back; a late prewrite can lock a rolled-back secondary. */
  ghost predicate CellsExclusive(txn: Txn, s: State) {
    && s.cells.Keys == txn.keys
    && forall k | k in s.cells :: Exclusive(txn, k, s.cells[k])
  }

  ghost predicate Exclusive(txn: Txn, k: Key, c: Cell) {
    && (k == txn.primary ==> !(c.locked && c.rolledBack))
    && !(c.locked && c.commitTS > 0) && !(c.rolledBack && c.commitTS > 0)
  }

  /** No prewrite reaches a primary that has been rolled back. */
  ghost predicate SparesPrimary(txn: Txn, s: State, a: Action) {
    a.Deliver? && a.req.Prewrite? && txn.primary in a.req.ks && txn.primary in s.cells ==>
        !s.cells[txn.primary].rolledBack
  }

  ghost predicate SafeRun(cfg: Config, txn: Txn, run: seq<Action>) {
    forall i | 0 <= i < |run| && RunState(cfg, txn, run[..i]).Some? ::
      SparesPrimary(txn, RunState(cfg, txn, run[..i]).value, run[i])
  }

  /** What a request in flight says about the primary. */
  ghost predicate RequestJustified(txn: Txn, s: State, m: Request)
    requires txn.primary in s.cells
  {
    var p := s.cells[txn.primary];
    match m
    case Prewrite(ks, n) => ks <= txn.keys
    case CommitKeys(ks, ts) =>
      && ks <= txn.keys && ts == s.client.commitTS > 0
      && (if txn.primary in ks then ks == {txn.primary} else p.commitTS == ts)
    case RollbackKeys(ks) => ks <= txn.keys && Dead(txn, s)
    case Check(_) => !p.Untouched()
    case ResolverCheck(_) => true
    case Resolve(k, ts) => k in txn.keys && if ts > 0 then p.commitTS == ts else p.rolledBack
  }

  ghost predicate StatusTrue(p: Cell, r: StatusReply) {
    if r.commitVersion > 0 then p.commitTS == r.commitVersion
    else r.lockTtl == 0 ==> p.rolledBack
  }

  ghost predicate ReplyTrue(txn: Txn, s: State, r: Reply)
    requires txn.primary in s.cells
  {
    match r
    case PrewriteDone(ks, _) => forall k | k in ks :: k in s.cells && !s.cells[k].Untouched()
    case CommitDone(ks, ts) => txn.primary in ks ==> s.cells[txn.primary].commitTS == ts > 0
    case CommitterStatus(_, r) => StatusTrue(s.cells[txn.primary], r)
    case ResolverStatus(r) => StatusTrue(s.cells[txn.primary], r)
  }

  /** What the committer's phase says. */
  ghost predicate ClientSound(txn: Txn, s: State)
    requires txn.primary in s.cells
  {
    var c := s.client;
    var p := s.cells[txn.primary];
    && c.attempt <= 1 && (c.commitTS == 0 || c.commitTS > txn.startTS)
    && (forall k | k in c.acked :: k in s.cells && !s.cells[k].Untouched())
    && (c.attempt == 0 ==> c.phase.Idle? && !c.committed && !c.commitStatusUnknown && c.acked == {})
    && (c.phase.Primary? || c.phase.Checking? || c.phase.Secondaries? || c.committed ==>
          c.acked == txn.keys && c.commitTS > 0)
    && (c.phase.Secondaries? || c.committed ==> p.commitTS == c.commitTS)
    && (c.phase.Prewriting? || c.attempt == 0 ==> NoPrimaryCommitSent(txn, s))
    && (c.phase.Aborting? || c.rolledBack || (c.phase.Idle? && c.attempt > 0 && !c.committed && !c.commitStatusUnknown)
        ==> Dead(txn, s))
    && (!c.phase.Idle? ==> !c.committed && !c.rolledBack && !c.commitStatusUnknown)
  }

  ghost predicate Inv(txn: Txn, s: State) {
    && txn.Valid()
    && CellsExclusive(txn, s)
    && (forall m | m in s.sent :: RequestJustified(txn, s, m))
    && (forall r | r in s.replies :: ReplyTrue(txn, s, r))
    && ClientSound(txn, s)
    && CommitsWithPrimary(txn, s)
    && (forall k | k in s.cells && s.cells[k].rolledBack :: Dead(txn, s))
  }

  ghost predicate CommitsWithPrimary(txn: Txn, s: State)
    requires txn.primary in s.cells
  {
    var p := s.cells[txn.primary];
    && (forall k | k in s.cells && s.cells[k].commitTS > 0 :: s.cells[k].commitTS == p.commitTS)
    && (p.commitTS > 0 ==> CommitKeys({txn.primary}, p.commitTS) in s.sent)
  }

  lemma InitialInv(txn: Txn)
    requires txn.Valid()
    ensures Inv(txn, Initial(txn))
  {
  }

  lemma ClientStepKeepsInv(cfg: Config, txn: Txn, s: State, a: ClientAction)
    requires cfg.Careful() && Inv(txn, s) && Enabled(cfg, txn, s, ByClient(a))
    ensures Inv(txn, Next(cfg, txn, s, ByClient(a)))
    ensures Dead(txn, s) ==> Dead(txn, Next(cfg, txn, s, ByClient(a)))
  {
  }

  /** How the records of one key may change: outcomes are final, and nothing goes back to untouched. */
  ghost predicate CellAdvances(txn: Txn, s: State, s': State, k: Key)
    requires k in s.cells && k in s'.cells && txn.primary in s'.cells
  {
    var c, d := s.cells[k], s'.cells[k];
    && Exclusive(txn, k, d)
    && (!c.Untouched() ==> !d.Untouched())
    && (c.commitTS > 0 ==> d == c) && (c.rolledBack ==> d.rolledBack)
    && (d.commitTS > 0 ==> d.commitTS == s'.cells[txn.primary].commitTS)
    && (d.rolledBack ==> Dead(txn, s'))
  }

  ghost predicate StorageAdvances(txn: Txn, s: State, s': State) {
    && txn.primary in s.cells
    && s'.cells.Keys == s.cells.Keys && s'.sent == s.sent && s'.client == s.client
    && (forall k | k in s.cells :: CellAdvances(txn, s, s', k))
    && var p := s'.cells[txn.primary];
    && (p.commitTS > 0 ==> CommitKeys({txn.primary}, p.commitTS) in s.sent)
    && (forall r | r in s'.replies :: r in s.replies || ReplyTrue(txn, s', r))
  }

  lemma StorageAdvanceKeepsInv(txn: Txn, s: State, s': State)
    requires Inv(txn, s) && StorageAdvances(txn, s, s')
    ensures Inv(txn, s') && (Dead(txn, s) ==> Dead(txn, s'))
  {
    forall r | r in s'.replies ensures ReplyTrue(txn, s', r) {
    }
    forall m | m in s'.sent ensures RequestJustified(txn, s', m) {
    }
  }

  lemma PrewriteAdvances(cfg: Config, txn: Txn, s: State, ks: set<Key>, n: nat)
    requires cfg.Careful() && Inv(txn, s) && Enabled(cfg, txn, s, Deliver(Prewrite(ks, n)))
    requires SparesPrimary(txn, s, Deliver(Prewrite(ks, n)))
    ensures StorageAdvances(txn, s, Next(cfg, txn, s, Deliver(Prewrite(ks, n))))
  {
  }

  lemma CommitAdvances(cfg: Config, txn: Txn, s: State, ks: set<Key>, ts: Timestamp)
    requires cfg.Careful() && Inv(txn, s) && Enabled(cfg, txn, s, Deliver(CommitKeys(ks, ts)))
    ensures StorageAdvances(txn, s, Next(cfg, txn, s, Deliver(CommitKeys(ks, ts))))
  {
    assert RequestJustified(txn, s, CommitKeys(ks, ts));
  }

  lemma RollbackAdvances(cfg: Config, txn: Txn, s: State, ks: set<Key>)
    requires cfg.Careful() && Inv(txn, s) && Enabled(cfg, txn, s, Deliver(RollbackKeys(ks)))
    ensures StorageAdvances(txn, s, Next(cfg, txn, s, Deliver(RollbackKeys(ks))))
  {
    assert RequestJustified(txn, s, RollbackKeys(ks));
  }

  lemma ResolveAdvances(cfg: Config, txn: Txn, s: State, k: Key, ts: Timestamp)
    requires cfg.Careful() && Inv(txn, s) && Enabled(cfg, txn, s, Deliver(Resolve(k, ts)))
    ensures StorageAdvances(txn, s, Next(cfg, txn, s, Deliver(Resolve(k, ts))))
  {
    assert RequestJustified(txn, s, Resolve(k, ts));
  }

  lemma StatusCheckAdvances(cfg: Config, txn: Txn, s: State, m: Request)
    requires cfg.Careful() && Inv(txn, s) && Enabled(cfg, txn, s, Deliver(m)) && (m.Check? || m.ResolverCheck?)
    ensures StorageAdvances(txn, s, Next(cfg, txn, s, Deliver(m)))
  {
    assert RequestJustified(txn, s, m);
  }

  lemma DeliveryAdvances(cfg: Config, txn: Txn, s: State, m: Request)
    requires cfg.Careful() && Inv(txn, s) && Enabled(cfg, txn, s, Deliver(m)) && SparesPrimary(txn, s, Deliver(m))
    ensures StorageAdvances(txn, s, Next(cfg, txn, s, Deliver(m)))
  {
    match m {
      case Prewrite(ks, n) => PrewriteAdvances(cfg, txn, s, ks, n);
      case CommitKeys(ks, ts) => CommitAdvances(cfg, txn, s, ks, ts);
      case RollbackKeys(ks) => RollbackAdvances(cfg, txn, s, ks);
      case Resolve(k, ts) => ResolveAdvances(cfg, txn, s, k, ts);
      case _ => StatusCheckAdvances(cfg, txn, s, m);
    }
  }

  lemma DeliveryKeepsInv(cfg: Config, txn: Txn, s: State, m: Request)
    requires cfg.Careful() && Inv(txn, s) && Enabled(cfg, txn, s, Deliver(m)) && SparesPrimary(txn, s, Deliver(m))
    ensures Inv(txn, Next(cfg, txn, s, Deliver(m)))
    ensures Dead(txn, s) ==> Dead(txn, Next(cfg, txn, s, Deliver(m)))
  {
    DeliveryAdvances(cfg, txn, s, m);
    StorageAdvanceKeepsInv(txn, s, Next(cfg, txn, s, Deliver(m)));
  }

  lemma ResolverStepKeepsInv(cfg: Config, txn: Txn, s: State, a: Action)
    requires cfg.Careful() && Inv(txn, s) && Enabled(cfg, txn, s, a)
    requires !a.ByClient? && !a.Deliver?
    ensures Inv(txn, Next(cfg, txn, s, a))
    ensures Dead(txn, s) ==> Dead(txn, Next(cfg, txn, s, a))
  {
  }

  lemma StepKeepsInv(cfg: Config, txn: Txn, s: State, a: Action)
    requires cfg.Careful() && Inv(txn, s) && Enabled(cfg, txn, s, a) && SparesPrimary(txn, s, a)
    ensures Inv(txn, Next(cfg, txn, s, a))
    ensures Dead(txn, s) ==> Dead(txn, Next(cfg, txn, s, a))
  {
    match a {
      case ByClient(act) => ClientStepKeepsInv(cfg, txn, s, act);
      case Deliver(m) => DeliveryKeepsInv(cfg, txn, s, m);
      case _ => ResolverStepKeepsInv(cfg, txn, s, a);
    }
  }

  lemma PrefixIsSafe(cfg: Config, txn: Txn, run: seq<Action>, n: nat)
    requires SafeRun(cfg, txn, run) && n <= |run|
    ensures SafeRun(cfg, txn, run[..n])
  {
    forall i | 0 <= i < n && RunState(cfg, txn, run[..n][..i]).Some?
      ensures SparesPrimary(txn, RunState(cfg, txn, run[..n][..i]).value, run[..n][i])
    {
      assert run[..n][..i] == run[..i];
    }
  }

  /** Every state of every run in which no prewrite reaches a rolled-back primary satisfies the invariant. */
  lemma {:induction false} RunKeepsInv(cfg: Config, txn: Txn, run: seq<Action>)
    requires cfg.Careful() && SafeRun(cfg, txn, run) && txn.Valid() && RunState(cfg, txn, run).Some?
    ensures Inv(txn, RunState(cfg, txn, run).value)
  {
    if run == [] {
      InitialInv(txn);
    } else {
      var n := |run| - 1;
      PrefixIsSafe(cfg, txn, run, n);
      RunKeepsInv(cfg, txn, run[..n]);
      var s := RunState(cfg, txn, run[..n]).value;
      assert SparesPrimary(txn, s, run[n]);
      StepKeepsInv(cfg, txn, s, run[n]);
    }
  }

  lemma CheckedStepSpares(cfg: Config, txn: Txn, s: State, a: Action)
    requires cfg.Sound() && Inv(txn, s) && Enabled(cfg, txn, s, a)
    ensures SparesPrimary(txn, s, a)
  {
  }

  /** Where rollback records refuse prewrites, every run is of this kind. */
  lemma {:induction false} CheckedRunIsSafe(cfg: Config, txn: Txn, run: seq<Action>)
    requires cfg.Sound() && txn.Valid() && RunState(cfg, txn, run).Some?
    ensures SafeRun(cfg, txn, run)
  {
    if run != [] {
      var n := |run| - 1;
      CheckedRunIsSafe(cfg, txn, run[..n]);
      RunKeepsInv(cfg, txn, run[..n]);
      CheckedStepSpares(cfg, txn, RunState(cfg, txn, run[..n]).value, run[n]);
      SafeExtends(cfg, txn, run);
    }
  }

  lemma SafeExtends(cfg: Config, txn: Txn, run: seq<Action>)
    requires run != [] && SafeRun(cfg, txn, run[..|run| - 1]) && RunState(cfg, txn, run[..|run| - 1]).Some?
    requires SparesPrimary(txn, RunState(cfg, txn, run[..|run| - 1]).value, run[|run| - 1])
    ensures SafeRun(cfg, txn, run)
  {
    var n := |run| - 1;
    forall i | 0 <= i < |run| && RunState(cfg, txn, run[..i]).Some?
      ensures SparesPrimary(txn, RunState(cfg, txn, run[..i]).value, run[i])
    {
      if i < n {
        assert run[..n][..i] == run[..i] && run[..n][i] == run[i];
      }
    }
  }

  /** A prefix of a run is a run. */
  lemma {:induction false} PrefixIsRun(cfg: Config, txn: Txn, run: seq<Action>, i: nat)
    requires RunState(cfg, txn, run).Some? && i <= |run|
    ensures RunState(cfg, txn, run[..i]).Some?
    decreases |run| - i
  {
    if i == |run| {
      assert run[..i] == run;
    } else {
      PrefixIsRun(cfg, txn, run, i + 1);
      assert run[..i + 1][..i] == run[..i];
    }
  }

  /** The state of a run after its first `i` actions. */
  ghost function StateAt(cfg: Config, txn: Txn, run: seq<Action>, i: nat): (s: State)
    requires RunState(cfg, txn, run).Some? && i <= |run|
    ensures RunState(cfg, txn, run[..i]) == Some(s)
  {
    PrefixIsRun(cfg, txn, run, i);
    RunState(cfg, txn, run[..i]).value
  }

  /** The transaction's outcome is settled: committed at `ts`, or never to be committed if `ts == 0`. */
  ghost predicate Settled(txn: Txn, s: State, ts: Timestamp) {
    if ts == 0 then Dead(txn, s) else txn.primary in s.cells && s.cells[txn.primary].commitTS == ts
  }

  /** A settled outcome never changes. */
  lemma {:induction false} OutcomeIsForever(cfg: Config, txn: Txn, run: seq<Action>, i: nat, ts: Timestamp)
    requires cfg.Careful() && SafeRun(cfg, txn, run) && txn.Valid() && RunState(cfg, txn, run).Some? && i <= |run|
    requires Settled(txn, StateAt(cfg, txn, run, i), ts)
    ensures Settled(txn, RunState(cfg, txn, run).value, ts)
    decreases |run|
  {
    if i == |run| {
      assert run[..i] == run;
    } else {
      var n := |run| - 1;
      assert run[..n][..i] == run[..i];
      PrefixIsSafe(cfg, txn, run, n);
      OutcomeIsForever(cfg, txn, run[..n], i, ts);
      RunKeepsInv(cfg, txn, run[..n]);
      var s := RunState(cfg, txn, run[..n]).value;
      assert SparesPrimary(txn, s, run[n]);
      StepKeepsOutcome(cfg, txn, s, run[n], ts);
    }
  }

  lemma StepKeepsOutcome(cfg: Config, txn: Txn, s: State, a: Action, ts: Timestamp)
    requires cfg.Careful() && Inv(txn, s) && Enabled(cfg, txn, s, a) && SparesPrimary(txn, s, a) && Settled(txn, s, ts)
    ensures Settled(txn, Next(cfg, txn, s, a), ts)
  {
    StepKeepsInv(cfg, txn, s, a);
    if a.Deliver? {
      assert RequestJustified(txn, s, a.req);
    }
  }

  lemma DeadIsNotCommitted(txn: Txn, s: State)
    requires Inv(txn, s) && Dead(txn, s)
    ensures s.cells[txn.primary].commitTS == 0
  {
  }

  /** Atomicity of every state of every run in which no prewrite reaches a rolled-back primary. */
  lemma AtomicInEveryState(cfg: Config, txn: Txn, run: seq<Action>)
    requires cfg.Careful() && SafeRun(cfg, txn, run) && txn.Valid() && RunState(cfg, txn, run).Some?
    ensures var s := RunState(cfg, txn, run).value; txn.primary in s.cells && Atomic(txn, s)
  {
    RunKeepsInv(cfg, txn, run);
    var s := RunState(cfg, txn, run).value;
    if Dead(txn, s) {
      DeadIsNotCommitted(txn, s);
    }
  }

  ghost predicate RolledBackAt(s: State, k: Key) {
    k in s.cells && s.cells[k].rolledBack
  }

  ghost predicate Uncommitted(txn: Txn, s: State) {
    txn.primary in s.cells && s.cells[txn.primary].commitTS == 0
  }

  lemma NoCommitAfterRollback(cfg: Config, txn: Txn, run: seq<Action>, i: nat, k: Key)
    requires cfg.Careful() && SafeRun(cfg, txn, run) && txn.Valid() && RunState(cfg, txn, run).Some? && i <= |run|
    requires RolledBackAt(StateAt(cfg, txn, run, i), k)
    ensures Uncommitted(txn, RunState(cfg, txn, run).value)
  {
    PrefixIsSafe(cfg, txn, run, i);
    RunKeepsInv(cfg, txn, run[..i]);
    OutcomeIsForever(cfg, txn, run, i, 0);
    RunKeepsInv(cfg, txn, run);
    DeadIsNotCommitted(txn, RunState(cfg, txn, run).value);
  }

  lemma EndOfRun(cfg: Config, txn: Txn, run: seq<Action>, k: Key)
    requires cfg.Careful() && SafeRun(cfg, txn, run) && txn.Valid() && RunState(cfg, txn, run).Some?
    ensures var s := RunState(cfg, txn, run).value;
            txn.primary in s.cells && (RolledBackAt(s, k) ==> Uncommitted(txn, s))
  {
    RunKeepsInv(cfg, txn, run);
    var s := RunState(cfg, txn, run).value;
    if RolledBackAt(s, k) {
      DeadIsNotCommitted(txn, s);
    }
  }

  lemma NoRollbackAfterCommit(cfg: Config, txn: Txn, run: seq<Action>, j: nat, k: Key)
    requires cfg.Careful() && SafeRun(cfg, txn, run) && txn.Valid() && RunState(cfg, txn, run).Some? && j <= |run|
    requires RolledBackAt(RunState(cfg, txn, run).value, k)
    ensures Uncommitted(txn, StateAt(cfg, txn, run, j))
  {
    PrefixIsSafe(cfg, txn, run, j);
    var s := StateAt(cfg, txn, run, j);
    EndOfRun(cfg, txn, run[..j], k);
    EndOfRun(cfg, txn, run, k);
    if s.cells[txn.primary].commitTS > 0 {
      OutcomeIsForever(cfg, txn, run, j, s.cells[txn.primary].commitTS);
    }
  }

  /** Atomicity over a whole run: if a key is rolled back anywhere in the run, the primary is
      committed nowhere in it, neither before nor after. */
  lemma RollbackExcludesCommit(cfg: Config, txn: Txn, run: seq<Action>, i: nat, j: nat, k: Key)
    requires cfg.Careful() && SafeRun(cfg, txn, run) && txn.Valid() && RunState(cfg, txn, run).Some?
    requires i <= |run| && j <= |run| && RolledBackAt(StateAt(cfg, txn, run, i), k)
    ensures Uncommitted(txn, StateAt(cfg, txn, run, j))
  {
    var n := if i <= j then j else i;
    PrefixIsSafe(cfg, txn, run, n);
    PrefixIsRun(cfg, txn, run, n);
    if i <= j {
      assert run[..j][..i] == run[..i];
      NoCommitAfterRollback(cfg, txn, run[..j], i, k);
    } else {
      assert run[..i][..j] == run[..j];
      NoRollbackAfterCommit(cfg, txn, run[..i], j, k);
    }
  }

  /** Outcome soundness, success: when Commit has returned nil, the primary is committed at the
      timestamp every commit request carried, and each key is committed there or still locked, so no
      write of the transaction has been lost. */
  lemma SuccessMeansCommitted(cfg: Config, txn: Txn, run: seq<Action>)
    requires cfg.Careful() && SafeRun(cfg, txn, run) && txn.Valid() && RunState(cfg, txn, run).Some?
    requires RunState(cfg, txn, run).value.client.committed
    ensures var s := RunState(cfg, txn, run).value;
            && txn.primary in s.cells && s.cells[txn.primary].commitTS == s.client.commitTS > txn.startTS
            && (forall m | m in s.sent && m.CommitKeys? :: m.ts == s.client.commitTS)
            && (forall k | k in txn.keys :: k in s.cells
                  && (s.cells[k] == Cell(true, false, 0) || s.cells[k] == Cell(false, false, s.client.commitTS)))
  {
    RunKeepsInv(cfg, txn, run);
    var s := RunState(cfg, txn, run).value;
    if Dead(txn, s) {
      DeadIsNotCommitted(txn, s);
    }
    forall m | m in s.sent && m.CommitKeys? ensures m.ts == s.client.commitTS {
      assert RequestJustified(txn, s, m);
    }
  }

  /** Outcome soundness, failure: a rollback request of the committer or of TxnHandle.Rollback exists
      only where no commit of the primary, sent before or still to come, ever succeeds. */
  lemma RollbackOnlyWhenHopeless(cfg: Config, txn: Txn, run: seq<Action>, i: nat, ks: set<Key>)
    requires cfg.Careful() && SafeRun(cfg, txn, run) && txn.Valid() && RunState(cfg, txn, run).Some? && i <= |run|
    requires RollbackKeys(ks) in StateAt(cfg, txn, run, i).sent
    ensures Uncommitted(txn, RunState(cfg, txn, run).value)
  {
    PrefixIsSafe(cfg, txn, run, i);
    RunKeepsInv(cfg, txn, run[..i]);
    assert RequestJustified(txn, StateAt(cfg, txn, run, i), RollbackKeys(ks));
    OutcomeIsForever(cfg, txn, run, i, 0);
    RunKeepsInv(cfg, txn, run);
    DeadIsNotCommitted(txn, RunState(cfg, txn, run).value);
  }
}
