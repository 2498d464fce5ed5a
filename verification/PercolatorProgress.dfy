/** What the steps of the commit protocol achieve: a request that a node executes has its whole effect, a settled
    outcome reaches every key, and no lock is stuck. */
module PercolatorProgress {
  import opened Bytes
  import opened Percolator
  import opened PercolatorSafety
  import opened PercolatorAssumptions

  // ----- What an executed request does to each key -----

  /** Keys outside `ks` keep their records. */
  ghost predicate OthersKept(s: State, s': State, ks: set<Key>) {
    s'.cells.Keys == s.cells.Keys && forall k | k in s.cells && k !in ks :: s'.cells[k] == s.cells[k]
  }

  lemma PrewriteLocks(cfg: Config, txn: Txn, s: State, ks: set<Key>, n: nat)
    requires Enabled(cfg, txn, s, Deliver(Prewrite(ks, n)))
    ensures var s' := Next(cfg, txn, s, Deliver(Prewrite(ks, n)));
            && OthersKept(s, s', ks) && PrewriteDone(ks, n) in s'.replies
            && forall k | k in ks :: s'.cells[k] == Cell(true, s.cells[k].rolledBack, s.cells[k].commitTS)
  {
  }

  /** A request that is executed twice in a row leaves the keys as after the first time; only a commit is refused the
      second time, since its locks are gone. */
  lemma RepeatChangesNothing(cfg: Config, txn: Txn, s: State, req: Request)
    requires Enabled(cfg, txn, s, Deliver(req))
    ensures var s' := Next(cfg, txn, s, Deliver(req));
            if req.CommitKeys? && req.ks != {} then !Enabled(cfg, txn, s', Deliver(req))
            else Enabled(cfg, txn, s', Deliver(req)) && Next(cfg, txn, s', Deliver(req)).cells == s'.cells
  {
    var s' := Next(cfg, txn, s, Deliver(req));
    if req.CommitKeys? && req.ks != {} {
      var k :| k in req.ks;
      assert !s'.cells[k].locked;
    } else {
      var again := Execute(cfg, txn, s'.cells, req).0;
      forall k | k in s'.cells ensures again[k] == s'.cells[k] {
      }
      assert again == s'.cells;
    }
  }

  lemma CommitSettles(cfg: Config, txn: Txn, s: State, ks: set<Key>, ts: Timestamp)
    requires Enabled(cfg, txn, s, Deliver(CommitKeys(ks, ts)))
    ensures var s' := Next(cfg, txn, s, Deliver(CommitKeys(ks, ts)));
            && OthersKept(s, s', ks) && CommitDone(ks, ts) in s'.replies
            && forall k | k in ks :: s.cells[k].locked && s'.cells[k] == Cell(false, s.cells[k].rolledBack, ts)
  {
  }

  /** A key that has a rollback record is left as it is, even if a late prewrite has locked it again. */
  lemma RollbackSettles(cfg: Config, txn: Txn, s: State, ks: set<Key>)
    requires Enabled(cfg, txn, s, Deliver(RollbackKeys(ks)))
    ensures var s' := Next(cfg, txn, s, Deliver(RollbackKeys(ks)));
            && OthersKept(s, s', ks)
            && forall k | k in ks :: s'.cells[k].rolledBack && s'.cells[k].commitTS == s.cells[k].commitTS == 0
                                     && (s'.cells[k].locked <==> s.cells[k].locked && s.cells[k].rolledBack)
  {
  }

  lemma ResolveSettles(cfg: Config, txn: Txn, s: State, k: Key, ts: Timestamp)
    requires Enabled(cfg, txn, s, Deliver(Resolve(k, ts)))
    ensures var s' := Next(cfg, txn, s, Deliver(Resolve(k, ts)));
            && OthersKept(s, s', {k})
            && (!s.cells[k].locked ==> s'.cells[k] == s.cells[k])
            && (s.cells[k].locked && ts > 0 ==> s'.cells[k] == Cell(false, s.cells[k].rolledBack, ts))
            && (s.cells[k].locked && ts == 0 && s.cells[k].commitTS == 0 ==>
                  s'.cells[k] == Cell(s.cells[k].rolledBack, true, 0))
  {
  }

  /** KvCleanup commits a locked key whose primary is committed and rolls back any other. */
  lemma CleanupSettles(cfg: Config, txn: Txn, s: State, k: Key)
    requires Enabled(cfg, txn, s, Cleanup(k))
    ensures var s', p := Next(cfg, txn, s, Cleanup(k)), s.cells[txn.primary];
            && OthersKept(s, s', {k})
            && (!s.cells[k].locked ==> s'.cells[k] == s.cells[k])
            && (s.cells[k].locked && !p.locked && p.commitTS > 0 ==>
                  s'.cells[k] == Cell(false, s.cells[k].rolledBack, p.commitTS))
            && (s.cells[k].locked && (p.locked || p.commitTS == 0) ==>
                  s'.cells[k] == Cell(false, true, s.cells[k].commitTS))
  {
  }

  /** A lock is expired when its TTL in milliseconds has passed since the physical part of the start timestamp. */
  lemma ExpiresExactly(cfg: Config, txn: Txn, start: nat, l: nat, now: nat, m: nat)
    requires txn.startTS == start * LOGICAL_RANGE + l && l < LOGICAL_RANGE && m < LOGICAL_RANGE
    ensures Expired(cfg, txn, now * LOGICAL_RANGE + m) <==> now - start >= cfg.lockTTL
  {
    assert txn.startTS / LOGICAL_RANGE == start && (now * LOGICAL_RANGE + m) / LOGICAL_RANGE == now;
  }

  /** What a resolver's status check does: a live lock is left alone and reported with its TTL, an expired one is rolled
      back, a commit is reported, and a transaction that left no trace gets a rollback record. */
  lemma ResolverCheckSettles(cfg: Config, txn: Txn, s: State, callerTS: Timestamp)
    requires Enabled(cfg, txn, s, Deliver(ResolverCheck(callerTS)))
    ensures var s', p := Next(cfg, txn, s, Deliver(ResolverCheck(callerTS))), s.cells[txn.primary];
            && OthersKept(s, s', {txn.primary})
            && (p.locked && !Expired(cfg, txn, callerTS) ==>
                  s'.cells == s.cells && ResolverStatus(StatusReply(0, cfg.lockTTL)) in s'.replies)
            && (p.locked && Expired(cfg, txn, callerTS) ==>
                  && s'.cells[txn.primary] == Cell(false, true, p.commitTS)
                  && ResolverStatus(StatusReply(0, 0)) in s'.replies)
            && (!p.locked && p.commitTS > 0 ==>
                  s'.cells == s.cells && ResolverStatus(StatusReply(p.commitTS, 0)) in s'.replies)
            && (!p.locked && p.commitTS == 0 ==>
                  s'.cells[txn.primary] == Cell(false, true, 0) && ResolverStatus(StatusReply(0, 0)) in s'.replies)
  {
    var s', p := Next(cfg, txn, s, Deliver(ResolverCheck(callerTS))), s.cells[txn.primary];
    if s'.cells[txn.primary] == p {
      assert s'.cells == s.cells;
    }
  }

  /** The committer's own check, with caller timestamp zero, changes nothing under a positive TTL and reports truly. */
  lemma CommitterCheckSettles(cfg: Config, txn: Txn, s: State, n: nat)
    requires cfg.lockTTL > 0 && Enabled(cfg, txn, s, Deliver(Check(n)))
    ensures var s', p := Next(cfg, txn, s, Deliver(Check(n))), s.cells[txn.primary];
            && s'.cells == s.cells
            && s'.replies == s.replies + {CommitterStatus(n,
                 if p.locked then StatusReply(0, cfg.lockTTL) else StatusReply(p.commitTS, 0))}
  {
    assert !Expired(cfg, txn, 0);
    var s' := Next(cfg, txn, s, Deliver(Check(n)));
    assert s'.cells == s.cells;
  }

  /** The committer's decision follows the primary at the time of the check: a lock leaves the status unknown, a commit
      goes on to the secondaries, anything else is rolled back. */
  lemma CheckDecides(cfg: Config, txn: Txn, s: State, n: nat)
    requires cfg.lockTTL > 0 && Enabled(cfg, txn, s, Deliver(Check(n)))
    requires s.client.phase.Checking? && s.client.attempt == n
    ensures var s', p := Next(cfg, txn, s, Deliver(Check(n))), s.cells[txn.primary];
            var r := if p.locked then StatusReply(0, cfg.lockTTL) else StatusReply(p.commitTS, 0);
            var read := ByClient(StatusRead(r));
            && Enabled(cfg, txn, s', read)
            && Next(cfg, txn, s', read).client
               == if p.locked then s.client.(phase := Idle, commitStatusUnknown := true)
                  else if p.commitTS > 0 then s.client.(phase := Secondaries)
                  else s.client.(phase := Aborting)
  {
    CommitterCheckSettles(cfg, txn, s, n);
  }

  // ----- A commit reaches every key -----

  /** The primary's commit is sent only after every key was prewritten. */
  ghost predicate AckedFirst(txn: Txn, s: State) {
    NoPrimaryCommitSent(txn, s) || s.client.acked == txn.keys
  }

  lemma StepKeepsAcked(cfg: Config, txn: Txn, s: State, a: Action)
    requires cfg.Careful() && Inv(txn, s) && Enabled(cfg, txn, s, a) && AckedFirst(txn, s)
    ensures AckedFirst(txn, Next(cfg, txn, s, a))
  {
  }

  lemma {:induction false} RunKeepsAcked(cfg: Config, txn: Txn, run: seq<Action>)
    requires cfg.Careful() && SafeRun(cfg, txn, run) && txn.Valid() && RunState(cfg, txn, run).Some?
    ensures AckedFirst(txn, RunState(cfg, txn, run).value)
  {
    if run != [] {
      var n := |run| - 1;
      PrefixIsSafe(cfg, txn, run, n);
      RunKeepsAcked(cfg, txn, run[..n]);
      RunKeepsInv(cfg, txn, run[..n]);
      StepKeepsAcked(cfg, txn, RunState(cfg, txn, run[..n]).value, run[n]);
    }
  }

  ghost predicate CommittedAt(txn: Txn, s: State, ts: Timestamp) {
    ts > 0 && txn.primary in s.cells && s.cells[txn.primary].commitTS == ts
  }

  /** Beside a committed primary every key is committed with it or still locked. */
  lemma LockedOrCommitted(txn: Txn, s: State, ts: Timestamp, k: Key)
    requires Inv(txn, s) && AckedFirst(txn, s) && CommittedAt(txn, s, ts) && k in txn.keys
    ensures k in s.cells && (s.cells[k] == Cell(true, false, 0) || s.cells[k] == Cell(false, false, ts))
  {
    if Dead(txn, s) {
      DeadIsNotCommitted(txn, s);
    }
  }

  /** A node executes a decision for the key. */
  predicate Decides(a: Action, k: Key) {
    a.Deliver? && ((a.req.Resolve? && a.req.k == k) || (a.req.CommitKeys? && k in a.req.ks))
  }

  lemma DecisionCommits(cfg: Config, txn: Txn, s: State, a: Action, ts: Timestamp, k: Key)
    requires cfg.Careful() && Inv(txn, s) && AckedFirst(txn, s) && CommittedAt(txn, s, ts) && k in txn.keys
    requires Enabled(cfg, txn, s, a) && Decides(a, k)
    ensures k in s.cells && Next(cfg, txn, s, a).cells[k] == Cell(false, false, ts)
  {
    LockedOrCommitted(txn, s, ts, k);
    assert RequestJustified(txn, s, a.req);
    if a.req.Resolve? {
      ResolveSettles(cfg, txn, s, k, a.req.ts);
    } else {
      CommitSettles(cfg, txn, s, a.req.ks, a.req.ts);
    }
  }

  lemma StepKeepsCommit(cfg: Config, txn: Txn, s: State, a: Action, k: Key)
    requires cfg.Careful() && Inv(txn, s) && Enabled(cfg, txn, s, a) && SparesPrimary(txn, s, a)
    requires k in s.cells && s.cells[k].commitTS > 0
    ensures k in Next(cfg, txn, s, a).cells && Next(cfg, txn, s, a).cells[k] == s.cells[k]
  {
    if a.Deliver? {
      DeliveryAdvances(cfg, txn, s, a.req);
    }
  }

  lemma {:induction false} CommitIsForever(cfg: Config, txn: Txn, run: seq<Action>, i: nat, k: Key)
    requires cfg.Careful() && SafeRun(cfg, txn, run) && txn.Valid() && RunState(cfg, txn, run).Some? && i <= |run|
    requires k in StateAt(cfg, txn, run, i).cells && StateAt(cfg, txn, run, i).cells[k].commitTS > 0
    ensures var s := RunState(cfg, txn, run).value;
            k in s.cells && s.cells[k] == StateAt(cfg, txn, run, i).cells[k]
    decreases |run|
  {
    if i == |run| {
      assert run[..i] == run;
    } else {
      var n := |run| - 1;
      assert run[..n][..i] == run[..i];
      PrefixIsSafe(cfg, txn, run, n);
      CommitIsForever(cfg, txn, run[..n], i, k);
      RunKeepsInv(cfg, txn, run[..n]);
      var s := RunState(cfg, txn, run[..n]).value;
      assert SparesPrimary(txn, s, run[n]);
      StepKeepsCommit(cfg, txn, s, run[n], k);
    }
  }

  lemma CommittedStays(cfg: Config, txn: Txn, run: seq<Action>, i: nat, ts: Timestamp)
    requires cfg.Careful() && SafeRun(cfg, txn, run) && txn.Valid() && RunState(cfg, txn, run).Some? && i <= |run|
    requires CommittedAt(txn, StateAt(cfg, txn, run, i), ts)
    ensures var s := RunState(cfg, txn, run).value; CommittedAt(txn, s, ts) && Inv(txn, s) && AckedFirst(txn, s)
  {
    OutcomeIsForever(cfg, txn, run, i, ts);
    RunKeepsInv(cfg, txn, run);
    RunKeepsAcked(cfg, txn, run);
  }

  lemma {:induction false} DecidedIsCommitted(cfg: Config, txn: Txn, run: seq<Action>, i: nat, j: nat, ts: Timestamp,
      k: Key)
    requires cfg.Careful() && SafeRun(cfg, txn, run) && txn.Valid() && RunState(cfg, txn, run).Some?
    requires i <= j < |run| && CommittedAt(txn, StateAt(cfg, txn, run, i), ts) && Decides(run[j], k) && k in txn.keys
    ensures var s := RunState(cfg, txn, run).value; k in s.cells && s.cells[k] == Cell(false, false, ts)
    decreases |run|
  {
    var n := |run| - 1;
    var front := run[..n];
    assert front[..i] == run[..i];
    PrefixIsSafe(cfg, txn, run, n);
    CommittedStays(cfg, txn, front, i, ts);
    var s := RunState(cfg, txn, front).value;
    if j == n {
      DecisionCommits(cfg, txn, s, run[n], ts, k);
    } else {
      DecidedIsCommitted(cfg, txn, front, i, j, ts, k);
      assert SparesPrimary(txn, s, run[n]);
      StepKeepsCommit(cfg, txn, s, run[n], k);
    }
  }

  /** Each key still locked under the committed primary has had a decision executed since. */
  ghost predicate AllDecided(s: State, run: seq<Action>, i: nat) {
    forall k | k in s.cells && s.cells[k].locked :: exists j :: i <= j < |run| && Decides(run[j], k)
  }

  /** A commit completes: once the primary is committed, executing any decision for each key that is still locked, a
      commit request or a resolver's, leaves every key committed at the primary's timestamp. */
  lemma CommitCompletes(cfg: Config, txn: Txn, run: seq<Action>, i: nat, ts: Timestamp)
    requires cfg.Careful() && SafeRun(cfg, txn, run) && txn.Valid() && RunState(cfg, txn, run).Some? && i <= |run|
    requires CommittedAt(txn, StateAt(cfg, txn, run, i), ts) && AllDecided(StateAt(cfg, txn, run, i), run, i)
    ensures var s := RunState(cfg, txn, run).value;
            s.cells.Keys == txn.keys && forall k | k in s.cells :: s.cells[k] == Cell(false, false, ts)
  {
    var s := RunState(cfg, txn, run).value;
    CommittedStays(cfg, txn, run, i, ts);
    var was := StateAt(cfg, txn, run, i);
    PrefixIsSafe(cfg, txn, run, i);
    EndIsSound(cfg, txn, run[..i], was);
    forall k | k in txn.keys ensures k in s.cells && s.cells[k] == Cell(false, false, ts) {
      LockedOrCommitted(txn, was, ts, k);
      if was.cells[k].locked {
        var j :| i <= j < |run| && Decides(run[j], k);
        DecidedIsCommitted(cfg, txn, run, i, j, ts, k);
      } else {
        CommitIsForever(cfg, txn, run, i, k);
      }
    }
  }

  lemma EndIsSound(cfg: Config, txn: Txn, run: seq<Action>, s: State)
    requires cfg.Careful() && SafeRun(cfg, txn, run) && txn.Valid() && RunState(cfg, txn, run) == Some(s)
    ensures Inv(txn, s) && AckedFirst(txn, s)
  {
    RunKeepsInv(cfg, txn, run);
    RunKeepsAcked(cfg, txn, run);
  }

  // ----- Locks can always be resolved -----

  /** Where rollback records refuse prewrites, no key is locked and rolled back at once. */
  ghost predicate Disjoint(s: State) {
    forall k | k in s.cells :: !(s.cells[k].locked && s.cells[k].rolledBack)
  }

  lemma StepKeepsDisjoint(cfg: Config, txn: Txn, s: State, a: Action)
    requires cfg.Sound() && Inv(txn, s) && Disjoint(s) && Enabled(cfg, txn, s, a)
    ensures Disjoint(Next(cfg, txn, s, a))
  {
  }

  lemma {:induction false} RunKeepsDisjoint(cfg: Config, txn: Txn, run: seq<Action>)
    requires cfg.Sound() && txn.Valid() && RunState(cfg, txn, run).Some?
    ensures Disjoint(RunState(cfg, txn, run).value)
  {
    if run != [] {
      var n := |run| - 1;
      CheckedRunIsSafe(cfg, txn, run[..n]);
      RunKeepsInv(cfg, txn, run[..n]);
      RunKeepsDisjoint(cfg, txn, run[..n]);
      StepKeepsDisjoint(cfg, txn, RunState(cfg, txn, run[..n]).value, run[n]);
    }
  }

  lemma Extend(cfg: Config, txn: Txn, run: seq<Action>, s: State, a: Action)
    requires RunState(cfg, txn, run) == Some(s) && Enabled(cfg, txn, s, a)
    ensures RunState(cfg, txn, run + [a]) == Some(Next(cfg, txn, s, a))
  {
    assert (run + [a])[..|run|] == run;
  }

  ghost function LockedKeys(s: State): set<Key> {
    set k | k in s.cells && s.cells[k].locked
  }

  /** The primary's outcome is known to a resolver. */
  ghost predicate Known(txn: Txn, s: State, r: StatusReply) {
    && txn.primary in s.cells && !s.cells[txn.primary].locked && ResolverStatus(r) in s.replies
    && r == StatusReply(s.cells[txn.primary].commitTS, 0)
    && (s.cells[txn.primary].commitTS > 0 || s.cells[txn.primary].rolledBack)
  }

  lemma SoundEnd(cfg: Config, txn: Txn, run: seq<Action>, s: State)
    requires cfg.Sound() && txn.Valid() && RunState(cfg, txn, run) == Some(s)
    ensures Inv(txn, s) && AckedFirst(txn, s) && Disjoint(s)
  {
    CheckedRunIsSafe(cfg, txn, run);
    EndIsSound(cfg, txn, run, s);
    RunKeepsDisjoint(cfg, txn, run);
  }

  /** A resolver that asks late enough learns the outcome. */
  lemma OutcomeCanBeLearned(cfg: Config, txn: Txn, run: seq<Action>, s: State)
    returns (longer: seq<Action>, s': State, r: StatusReply)
    requires cfg.Sound() && txn.Valid() && RunState(cfg, txn, run) == Some(s)
    ensures run <= longer && RunState(cfg, txn, longer) == Some(s') && Known(txn, s', r)
  {
    var start := txn.startTS / LOGICAL_RANGE;
    var late := (start + cfg.lockTTL) * LOGICAL_RANGE;
    ExpiresExactly(cfg, txn, start, txn.startTS % LOGICAL_RANGE, start + cfg.lockTTL, 0);
    SoundEnd(cfg, txn, run, s);
    Extend(cfg, txn, run, s, ResolverAsks(late));
    longer, s' := run + [ResolverAsks(late)], Next(cfg, txn, s, ResolverAsks(late));
    Extend(cfg, txn, longer, s', Deliver(ResolverCheck(late)));
    ResolverCheckSettles(cfg, txn, s', late);
    longer, s' := longer + [Deliver(ResolverCheck(late))], Next(cfg, txn, s', Deliver(ResolverCheck(late)));
    r := StatusReply(s'.cells[txn.primary].commitTS, 0);
  }

  /** A resolver that knows the outcome removes one lock. */
  lemma LockCanBeResolved(cfg: Config, txn: Txn, run: seq<Action>, s: State, r: StatusReply, k: Key)
    returns (longer: seq<Action>, s': State)
    requires cfg.Sound() && txn.Valid() && RunState(cfg, txn, run) == Some(s) && Known(txn, s, r) && k in LockedKeys(s)
    ensures run <= longer && RunState(cfg, txn, longer) == Some(s') && Known(txn, s', r)
    ensures LockedKeys(s') == LockedKeys(s) - {k}
  {
    SoundEnd(cfg, txn, run, s);
    Extend(cfg, txn, run, s, ResolverActs(r, k));
    longer, s' := run + [ResolverActs(r, k)], Next(cfg, txn, s, ResolverActs(r, k));
    var resolve := Deliver(Resolve(k, r.commitVersion));
    Extend(cfg, txn, longer, s', resolve);
    ResolveSettles(cfg, txn, s', k, r.commitVersion);
    longer, s' := longer + [resolve], Next(cfg, txn, s', resolve);
  }

  lemma {:induction false} LocksCanBeResolved(cfg: Config, txn: Txn, run: seq<Action>, s: State, r: StatusReply)
    returns (longer: seq<Action>, s': State)
    requires cfg.Sound() && txn.Valid() && RunState(cfg, txn, run) == Some(s) && Known(txn, s, r)
    ensures run <= longer && RunState(cfg, txn, longer) == Some(s') && Known(txn, s', r) && LockedKeys(s') == {}
    decreases |LockedKeys(s)|
  {
    longer, s' := run, s;
    if LockedKeys(s) != {} {
      var k :| k in LockedKeys(s);
      longer, s' := LockCanBeResolved(cfg, txn, run, s, r, k);
      longer, s' := LocksCanBeResolved(cfg, txn, longer, s', r);
    }
  }

  /** Every key has the primary's outcome and no lock: committed at its timestamp, or not committed. */
  ghost predicate Resolved(txn: Txn, s: State) {
    && txn.primary in s.cells
    && var p := s.cells[txn.primary];
    && (p.commitTS > 0 || p.rolledBack)
    && forall k | k in s.cells :: !s.cells[k].locked && s.cells[k].commitTS == p.commitTS
  }

  /** From every state of every run of nodes that check rollback records, resolvers can settle the whole transaction. */
  lemma AnyRunCanBeResolved(cfg: Config, txn: Txn, run: seq<Action>, s: State) returns (longer: seq<Action>, s': State)
    requires cfg.Sound() && txn.Valid() && RunState(cfg, txn, run) == Some(s)
    ensures run <= longer && RunState(cfg, txn, longer) == Some(s') && Resolved(txn, s')
  {
    var r;
    longer, s', r := OutcomeCanBeLearned(cfg, txn, run, s);
    longer, s' := LocksCanBeResolved(cfg, txn, longer, s', r);
    SoundEnd(cfg, txn, longer, s');
    NoLockIsResolved(txn, s', r);
  }

  lemma NoLockIsResolved(txn: Txn, s: State, r: StatusReply)
    requires Inv(txn, s) && AckedFirst(txn, s) && Known(txn, s, r) && LockedKeys(s) == {}
    ensures Resolved(txn, s)
  {
    var ts := s.cells[txn.primary].commitTS;
    forall k | k in s.cells ensures !s.cells[k].locked && s.cells[k].commitTS == ts {
      assert k !in LockedKeys(s);
      if ts > 0 {
        LockedOrCommitted(txn, s, ts, k);
      }
    }
  }

  // ----- A lock that no resolver can remove -----

  ghost predicate Stuck(txn: Txn, s: State, k: Key) {
    k != txn.primary && k in s.cells && s.cells[k].locked && s.cells[k].rolledBack
  }

  /** A rolled-back secondary that a late prewrite has locked again stays locked, whatever happens. */
  lemma StepKeepsStuck(cfg: Config, txn: Txn, s: State, a: Action, k: Key)
    requires cfg.Careful() && Inv(txn, s) && Enabled(cfg, txn, s, a) && Stuck(txn, s, k)
    ensures Stuck(txn, Next(cfg, txn, s, a), k)
  {
    DeadIsNotCommitted(txn, s);
    if a.Deliver? {
      assert RequestJustified(txn, s, a.req);
    }
  }

  lemma {:induction false} StuckForever(cfg: Config, txn: Txn, run: seq<Action>, s: State, longer: seq<Action>, k: Key)
    requires cfg.Careful() && txn.Valid() && RunState(cfg, txn, run) == Some(s) && Stuck(txn, s, k)
    requires run <= longer && RunState(cfg, txn, longer).Some? && SafeRun(cfg, txn, longer)
    ensures Stuck(txn, RunState(cfg, txn, longer).value, k)
    decreases |longer|
  {
    if |longer| == |run| {
      assert longer == run;
    } else {
      var n := |longer| - 1;
      var front := longer[..n];
      assert run <= front;
      PrefixIsSafe(cfg, txn, longer, n);
      StuckForever(cfg, txn, run, s, front, k);
      RunKeepsInv(cfg, txn, front);
      StepKeepsStuck(cfg, txn, RunState(cfg, txn, front).value, longer[n], k);
    }
  }

  ghost predicate CanBeResolved(cfg: Config, txn: Txn, run: seq<Action>) {
    exists longer: seq<Action> :: run <= longer && SafeRun(cfg, txn, longer)
      && RunState(cfg, txn, longer).Some? && Resolved(txn, RunState(cfg, txn, longer).value)
  }

  ghost predicate AlwaysResolvable(cfg: Config) {
    forall txn: Txn, run: seq<Action> | txn.Valid() && RunState(cfg, txn, run).Some? && SafeRun(cfg, txn, run) ::
      CanBeResolved(cfg, txn, run)
  }

  ghost predicate SafelyReached(cfg: Config, txn: Txn, run: seq<Action>, s: State) {
    RunState(cfg, txn, run) == Some(s) && SafeRun(cfg, txn, run)
  }

  /** A further step that spares a rolled-back primary. */
  lemma Go(cfg: Config, txn: Txn, run: seq<Action>, s: State, a: Action) returns (longer: seq<Action>, s': State)
    requires SafelyReached(cfg, txn, run, s) && Enabled(cfg, txn, s, a) && SparesPrimary(txn, s, a)
    ensures longer == run + [a] && s' == Next(cfg, txn, s, a) && SafelyReached(cfg, txn, longer, s')
  {
    longer, s' := run + [a], Next(cfg, txn, s, a);
    assert longer[..|longer| - 1] == run;
    SafeExtends(cfg, txn, longer);
  }

  lemma GoFirst(cfg: Config, txn: Txn) returns (run: seq<Action>, s: State)
    ensures SafelyReached(cfg, txn, run, s) && s == Initial(txn)
  {
    run, s := [], Initial(txn);
  }

  /** Both keys are prewritten, in two regions. */
  lemma BothPrewritten(cfg: Config) returns (run: seq<Action>, s: State)
    ensures SafelyReached(cfg, TWO_KEYS, run, s) && Prewrite({1}, 1) in s.sent
    ensures s.cells == map[0 := Cell(true, false, 0), 1 := Cell(true, false, 0)]
  {
    run, s := PrimaryIsPrewritten(cfg);
    run, s := Go(cfg, TWO_KEYS, run, s, ByClient(SendPrewrite({1})));
    run, s := Go(cfg, TWO_KEYS, run, s, Deliver(Prewrite({1}, 1)));
  }

  /** Commit has been called and the prewrite of some keys sent. */
  lemma CanStart(cfg: Config, txn: Txn, ks: set<Key>) returns (run: seq<Action>, s: State)
    requires txn.primary in ks && ks <= txn.keys
    ensures SafelyReached(cfg, txn, run, s) && s.sent == {Prewrite(ks, 1)} && s.replies == {}
    ensures s.cells == (map k | k in txn.keys :: Cell(false, false, 0))
    ensures s.client == Client(Prewriting, 1, {}, 0, false, false, false)
  {
    run, s := GoFirst(cfg, txn);
    run, s := Go(cfg, txn, run, s, ByClient(Begin));
    run, s := Go(cfg, txn, run, s, ByClient(SendPrewrite(ks)));
  }

  lemma PrimaryIsPrewritten(cfg: Config) returns (run: seq<Action>, s: State)
    ensures SafelyReached(cfg, TWO_KEYS, run, s) && s.client == Client(Prewriting, 1, {0}, 0, false, false, false)
    ensures s.cells == map[0 := Cell(true, false, 0), 1 := Cell(false, false, 0)]
  {
    run, s := CanStart(cfg, TWO_KEYS, {0});
    run, s := Go(cfg, TWO_KEYS, run, s, Deliver(Prewrite({0}, 1)));
    run, s := Go(cfg, TWO_KEYS, run, s, ByClient(PrewriteAcked({0})));
  }

  /** A resolver rolls the transaction back, and the secondary's prewrite is executed once more. */
  lemma LatePrewriteSticks(cfg: Config) returns (run: seq<Action>, s: State)
    requires !cfg.rollbackBlocksPrewrite
    ensures SafelyReached(cfg, TWO_KEYS, run, s) && Stuck(TWO_KEYS, s, 1)
  {
    var late := (1 + cfg.lockTTL) * LOGICAL_RANGE;
    ExpiresExactly(cfg, TWO_KEYS, 1, 0, 1 + cfg.lockTTL, 0);
    run, s := BothPrewritten(cfg);
    run, s := Go(cfg, TWO_KEYS, run, s, ResolverAsks(late));
    run, s := Go(cfg, TWO_KEYS, run, s, Deliver(ResolverCheck(late)));
    run, s := Go(cfg, TWO_KEYS, run, s, ResolverActs(StatusReply(0, 0), 1));
    run, s := Go(cfg, TWO_KEYS, run, s, Deliver(Resolve(1, 0)));
    run, s := Go(cfg, TWO_KEYS, run, s, Deliver(Prewrite({1}, 1)));
  }

  /** Every run can be resolved if and only if rollback records refuse prewrites: as prewrite is written, a lock can get
      stuck for ever, on a secondary and with no atomicity lost. */
  lemma AlwaysResolvableExactly(cfg: Config)
    requires cfg.Careful()
    ensures AlwaysResolvable(cfg) <==> cfg.rollbackBlocksPrewrite
  {
    if cfg.rollbackBlocksPrewrite {
      forall txn: Txn, run: seq<Action> | txn.Valid() && RunState(cfg, txn, run).Some? && SafeRun(cfg, txn, run)
        ensures CanBeResolved(cfg, txn, run)
      {
        var longer, s := AnyRunCanBeResolved(cfg, txn, run, RunState(cfg, txn, run).value);
        CheckedRunIsSafe(cfg, txn, longer);
      }
    } else {
      var run, s := LatePrewriteSticks(cfg);
      CannotBeResolved(cfg, run, s);
    }
  }

  lemma CannotBeResolved(cfg: Config, run: seq<Action>, s: State)
    requires cfg.Careful() && SafelyReached(cfg, TWO_KEYS, run, s) && Stuck(TWO_KEYS, s, 1)
    ensures !CanBeResolved(cfg, TWO_KEYS, run)
  {
    forall longer: seq<Action>
      | run <= longer && SafeRun(cfg, TWO_KEYS, longer) && RunState(cfg, TWO_KEYS, longer).Some?
      ensures !Resolved(TWO_KEYS, RunState(cfg, TWO_KEYS, longer).value)
    {
      StuckForever(cfg, TWO_KEYS, run, s, longer, 1);
    }
  }

  // ----- A rollback reaches every key -----

  /** A node executes a rollback that finds the key locked, or a rollback request that names it. */
  predicate Cancels(s: State, a: Action, k: Key) {
    a.Deliver? && k in s.cells
    && ((a.req == Resolve(k, 0) && s.cells[k].locked) || (a.req.RollbackKeys? && k in a.req.ks))
  }

  lemma CancelRollsBack(cfg: Config, txn: Txn, s: State, a: Action, k: Key)
    requires cfg.Sound() && Inv(txn, s) && Disjoint(s) && Enabled(cfg, txn, s, a) && Cancels(s, a, k)
    ensures Next(cfg, txn, s, a).cells[k] == Cell(false, true, 0)
  {
    if a.req.Resolve? {
      ResolveSettles(cfg, txn, s, k, 0);
    } else {
      RollbackSettles(cfg, txn, s, a.req.ks);
    }
  }

  lemma StepKeepsRollback(cfg: Config, txn: Txn, s: State, a: Action, k: Key)
    requires cfg.Sound() && Inv(txn, s) && Enabled(cfg, txn, s, a) && k in s.cells && s.cells[k] == Cell(false, true, 0)
    ensures k in Next(cfg, txn, s, a).cells && Next(cfg, txn, s, a).cells[k] == Cell(false, true, 0)
  {
  }

  /** A rollback completes: where rollback records refuse prewrites, a key whose rollback was executed stays rolled back
      and unlocked in every later state. */
  lemma {:induction false} RollbackCompletes(cfg: Config, txn: Txn, run: seq<Action>, j: nat, k: Key)
    requires cfg.Sound() && txn.Valid() && RunState(cfg, txn, run).Some? && j < |run|
    requires Cancels(StateAt(cfg, txn, run, j), run[j], k)
    ensures var s := RunState(cfg, txn, run).value; k in s.cells && s.cells[k] == Cell(false, true, 0)
    decreases |run|
  {
    var n := |run| - 1;
    var front := run[..n];
    var s := RunState(cfg, txn, front).value;
    SoundEnd(cfg, txn, front, s);
    if j == n {
      CancelRollsBack(cfg, txn, s, run[n], k);
    } else {
      assert front[..j] == run[..j];
      RollbackCompletes(cfg, txn, front, j, k);
      StepKeepsRollback(cfg, txn, s, run[n], k);
    }
  }

  // ----- Every transaction can be committed -----

  lemma CanPrewrite(cfg: Config, txn: Txn) returns (run: seq<Action>, s: State)
    requires txn.Valid()
    ensures SafelyReached(cfg, txn, run, s) && s.client == Client(Prewriting, 1, txn.keys, 0, false, false, false)
    ensures s.cells == map k | k in txn.keys :: Cell(true, false, 0)
  {
    run, s := CanStart(cfg, txn, txn.keys);
    run, s := Go(cfg, txn, run, s, Deliver(Prewrite(txn.keys, 1)));
    run, s := Go(cfg, txn, run, s, ByClient(PrewriteAcked(txn.keys)));
    assert {} + txn.keys == txn.keys;
  }

  lemma CanCommitPrimary(cfg: Config, txn: Txn, ts: Timestamp) returns (run: seq<Action>, s: State)
    requires txn.Valid() && !cfg.try1PC && ts > txn.startTS
    ensures SafelyReached(cfg, txn, run, s) && s.client == Client(Secondaries, 1, txn.keys, ts, false, false, false)
    ensures s.cells == map k | k in txn.keys ::
                         if k == txn.primary then Cell(false, false, ts) else Cell(true, false, 0)
  {
    run, s := CanPrewrite(cfg, txn);
    run, s := Go(cfg, txn, run, s, ByClient(GotTimestamp(ts)));
    run, s := Go(cfg, txn, run, s, ByClient(SendPrimaryCommit));
    run, s := Go(cfg, txn, run, s, Deliver(CommitKeys({txn.primary}, ts)));
    run, s := Go(cfg, txn, run, s, ByClient(PrimaryOk));
  }

  /** For every transaction and every later commit timestamp there is a run in which Commit returns nil and every key is
      committed there. */
  lemma EveryTransactionCanCommit(cfg: Config, txn: Txn, ts: Timestamp) returns (run: seq<Action>, s: State)
    requires txn.Valid() && !cfg.try1PC && ts > txn.startTS
    ensures SafelyReached(cfg, txn, run, s) && s.client.committed
    ensures s.cells == map k | k in txn.keys :: Cell(false, false, ts)
  {
    var others := txn.keys - {txn.primary};
    run, s := CanCommitPrimary(cfg, txn, ts);
    run, s := Go(cfg, txn, run, s, ByClient(SendSecondaries(others)));
    run, s := Go(cfg, txn, run, s, Deliver(CommitKeys(others, ts)));
    run, s := Go(cfg, txn, run, s, ByClient(CommitReturnsNil));
  }
}
