/** The transaction handle and its two-phase committer in the source's own imperative form, tied to
    the client steps of the protocol: every call performs a path of `ClientNext` steps. */
module Committer {
  import opened Bytes
  import opened Percolator
  import opened PercolatorSafety

  /** What the network and the timestamp service answer during one Commit. Region groups are given as
      sets of keys; `None` stands for a failed lookup or a failed call. */
  datatype CommitEnv = CommitEnv(
    groups: Option<seq<set<Key>>>,
    prewriteOk: seq<bool>,
    prewriteSent: seq<bool>,      // false for a group that a failure elsewhere cancels before it is sent
    timestamp: Option<Timestamp>,
    primaryOk: bool,
    status: Option<StatusReply>,
    secondaryGroups: seq<set<Key>>,
    rollbackGroups: Option<seq<set<Key>>>,
    rollbackSent: seq<bool>)      // likewise
  {
    ghost predicate Fits(txn: Txn, c: Client) {
      && (groups.Some? ==> Covers(groups.value, txn.keys) && PrewriteFits())
      && (timestamp.Some? ==> timestamp.value > txn.startTS && timestamp.value > c.commitTS)
      && Covers(secondaryGroups, txn.keys - {txn.primary})
      && RollbackFits(txn)
    }

    /** A request that was cancelled before it was sent has not succeeded. */
    predicate PrewriteFits()
      requires groups.Some?
    {
      && |prewriteOk| == |prewriteSent| == |groups.value|
      && forall i | 0 <= i < |prewriteOk| :: prewriteOk[i] ==> prewriteSent[i]
    }

    ghost predicate RollbackFits(txn: Txn) {
      rollbackGroups.Some? ==> Covers(rollbackGroups.value, txn.keys) && |rollbackSent| == |rollbackGroups.value|
    }

    predicate PrewriteSucceeds() {
      groups.Some? && forall i | 0 <= i < |prewriteOk| :: prewriteOk[i]
    }

    /** The keys a rollback reaches: none if the regions cannot be looked up, else those of the groups it is sent to. */
    ghost function RollbackReach(txn: Txn): set<Key>
      requires RollbackFits(txn)
    {
      if rollbackGroups.Some? then Reach(rollbackGroups.value, rollbackSent) else {}
    }

    /** The keys prewrites are sent for: the primary's group, and the others once that one has succeeded. */
    ghost function PrewriteReach(txn: Txn): set<Key>
      requires groups.Some? ==> PrewriteFits() && txn.primary in Union(groups.value)
    {
      if groups.None? then {}
      else
        var p := GroupOf(groups.value, txn.primary);
        if prewriteOk[p] then Reach(groups.value, prewriteSent) else if prewriteSent[p] then groups.value[p] else {}
    }

    /** Everything a Commit with these answers sends. */
    ghost function Requests(cfg: Config, txn: Txn): Sends
      requires RollbackFits(txn) && (groups.Some? ==> PrewriteFits() && txn.primary in Union(groups.value))
    {
      var tried := PrewriteSucceeds() && timestamp.Some? && !cfg.try1PC;
      Sends(PrewriteReach(txn), tried, tried && !primaryOk,
            if Decision(cfg).Secondaries? then txn.keys - {txn.primary} else {},
            if Decision(cfg).Aborting? then RollbackReach(txn) else {})
    }

    /** What the committer ends up doing: `Secondaries` for success, `Idle` for an unknown status,
        `Aborting` for a rollback. */
    function Decision(cfg: Config): Phase {
      if !PrewriteSucceeds() || timestamp.None? then Aborting
      else if cfg.try1PC || primaryOk then Secondaries
      else Verdict(status)
    }
  }

  /** What a failed primary commit leads to: commit the secondaries of a committed primary, leave an
      undecided one alone, roll back otherwise. */
  function Verdict(status: Option<StatusReply>): Phase {
    match status
    case None => Idle
    case Some(r) => if r.commitVersion != 0 then Secondaries else if r.lockTtl > 0 then Idle else Aborting
  }

  ghost function Union(groups: seq<set<Key>>): set<Key> {
    if groups == [] then {} else Union(groups[..|groups| - 1]) + groups[|groups| - 1]
  }

  /** The keys of the groups marked true. */
  ghost function Reach(groups: seq<set<Key>>, sent: seq<bool>): set<Key>
    requires |sent| == |groups|
  {
    if groups == [] then {}
    else
      var n := |groups| - 1;
      Reach(groups[..n], sent[..n]) + if sent[n] then groups[n] else {}
  }

  /** A rollback names keys of the transaction only, and all of them if no group fails. */
  lemma {:induction false} ReachIs(groups: seq<set<Key>>, sent: seq<bool>)
    requires |sent| == |groups|
    ensures Reach(groups, sent) <= Union(groups)
    ensures (forall i | 0 <= i < |sent| :: sent[i]) ==> Reach(groups, sent) == Union(groups)
  {
    if groups != [] {
      ReachIs(groups[..|groups| - 1], sent[..|groups| - 1]);
    }
  }

  ghost predicate Covers(groups: seq<set<Key>>, ks: set<Key>) {
    Union(groups) == ks
  }

  lemma {:induction false} GroupInUnion(groups: seq<set<Key>>, i: nat)
    requires i < |groups|
    ensures groups[i] <= Union(groups)
  {
    if i < |groups| - 1 {
      GroupInUnion(groups[..|groups| - 1], i);
    }
  }

  lemma {:induction false} UnionHasGroup(groups: seq<set<Key>>, k: Key)
    requires k in Union(groups)
    ensures exists i :: 0 <= i < |groups| && k in groups[i]
  {
    var n := |groups| - 1;
    if k !in groups[n] {
      UnionHasGroup(groups[..n], k);
      var i :| 0 <= i < n && k in groups[..n][i];
      assert k in groups[i];
    }
  }

  /** The steps a client has performed, latest last. */
  datatype Trace = Empty | Then(before: Trace, last: ClientAction)

  /** The client state after the steps of a trace, each enabled where it happens. */
  ghost function ClientRun(cfg: Config, txn: Txn, c: Client, trace: Trace): Option<Client> {
    match trace
    case Empty => Some(c)
    case Then(before, a) =>
      match ClientRun(cfg, txn, c, before)
      case None => None
      case Some(d) => if ClientEnabled(cfg, txn, d, a) then Some(ClientNext(d, a)) else None
  }

  /** What the steps of a trace send: the keys named by prewrites, by commits of secondaries and by rollbacks, and
      whether the primary's commit and a status check are sent. */
  datatype Sends = Sends(
    prewritten: set<Key>, primary: bool, checked: bool, secondaries: set<Key>, rolledBack: set<Key>)
  {
    function Plus(a: ClientAction): Sends {
      match a
      case SendPrewrite(ks) => this.(prewritten := prewritten + ks)
      case SendPrimaryCommit => this.(primary := true)
      case SendCheck => this.(checked := true)
      case SendSecondaries(ks) => this.(secondaries := secondaries + ks)
      case SendAbort(ks) => this.(rolledBack := rolledBack + ks)
      case SendRollback(ks) => this.(rolledBack := rolledBack + ks)
      case _ => this
    }
  }

  const NOTHING := Sends({}, false, false, {}, {})

  ghost function SendsOf(trace: Trace): Sends {
    match trace
    case Empty => NOTHING
    case Then(before, a) => SendsOf(before).Plus(a)
  }

  /** The first group that holds the key. */
  ghost function GroupOf(groups: seq<set<Key>>, k: Key): nat
    requires k in Union(groups)
    ensures GroupOf(groups, k) < |groups| && k in groups[GroupOf(groups, k)]
    ensures forall i | 0 <= i < GroupOf(groups, k) :: k !in groups[i]
  {
    UnionHasGroup(groups, k);
    FirstGroup(groups, k);
    var i :| 0 <= i < |groups| && k in groups[i] && forall j | 0 <= j < i :: k !in groups[j];
    i
  }

  lemma {:induction false} FirstGroup(groups: seq<set<Key>>, k: Key)
    requires exists i :: 0 <= i < |groups| && k in groups[i]
    ensures exists i :: 0 <= i < |groups| && k in groups[i] && forall j | 0 <= j < i :: k !in groups[j]
    decreases |groups|
  {
    var n := |groups| - 1;
    if i :| 0 <= i < n && k in groups[i] {
      assert k in groups[..n][i];
      FirstGroup(groups[..n], k);
      var j :| 0 <= j < n && k in groups[..n][j] && forall l | 0 <= l < j :: k !in groups[..n][l];
      assert k in groups[j] && forall l | 0 <= l < j :: k !in groups[l];
    } else {
      assert k in groups[n];
    }
  }

  lemma {:induction false} ReachHas(groups: seq<set<Key>>, sent: seq<bool>, i: nat)
    requires |sent| == |groups| && i < |groups| && sent[i]
    ensures groups[i] <= Reach(groups, sent)
  {
    if i < |groups| - 1 {
      ReachHas(groups[..|groups| - 1], sent[..|groups| - 1], i);
    }
  }

  /** `before`, and prewrites of the groups marked true. */
  ghost function Prewritten(before: Sends, groups: seq<set<Key>>, sent: seq<bool>): Sends
    requires |sent| == |groups|
  {
    before.(prewritten := before.prewritten + Reach(groups, sent))
  }

  lemma PrewrittenGrows(before: Sends, groups: seq<set<Key>>, sent: seq<bool>, i: nat)
    requires |sent| == |groups| && i < |groups|
    ensures var now := Prewritten(before, groups[..i], sent[..i]);
            var next := Prewritten(before, groups[..i + 1], sent[..i + 1]);
            && next == now.(prewritten := now.prewritten + if sent[i] then groups[i] else {})
            && (groups[i] <= before.prewritten ==> next == now)
  {
    assert groups[..i + 1][..i] == groups[..i] && sent[..i + 1][..i] == sent[..i];
  }

  /** The acknowledged keys are keys of the transaction, and hold those of the groups if all succeeded. */
  ghost predicate Acked(groups: seq<set<Key>>, ok: bool, acked: set<Key>, keys: set<Key>) {
    acked <= keys && (ok ==> Union(groups) <= acked)
  }

  lemma AckedGrows(groups: seq<set<Key>>, i: nat, ok: bool, acked: set<Key>, keys: set<Key>, done: bool)
    requires i < |groups| && Union(groups) <= keys && Acked(groups[..i], ok, acked, keys)
    ensures Acked(groups[..i + 1], ok && done, acked + (if done then groups[i] else {}), keys)
    ensures groups[i] <= acked ==> Acked(groups[..i + 1], ok, acked, keys)
  {
    assert groups[..i + 1][..i] == groups[..i];
    GroupInUnion(groups, i);
  }

  class TwoPhaseCommitter {
    const cfg: Config
    const txn: Txn
    var commitTS: Timestamp
    var prewriteDone: bool
    var commitStatusUnknown: bool

    ghost const start: Client
    ghost var client: Client
    ghost var trace: Trace

    constructor (cfg: Config, txn: Txn, ghost start: Client)
      requires txn.Valid() && start.phase.Prewriting? && start.acked == {}
      ensures Valid() && client == start && trace == Empty
      ensures this.cfg == cfg && this.txn == txn && this.start == start
      ensures commitTS == 0 && !prewriteDone && !commitStatusUnknown
    {
      this.cfg, this.txn, this.start := cfg, txn, start;
      commitTS, prewriteDone, commitStatusUnknown := 0, false, false;
      client, trace := start, Empty;
    }

    ghost predicate Valid()
      reads this
    {
      && txn.Valid()
      && ClientRun(cfg, txn, start, trace) == Some(client)
      && (commitTS > 0 ==> commitTS == client.commitTS)
    }

    ghost method Emit(a: ClientAction)
      requires Valid() && ClientEnabled(cfg, txn, client, a) && (a.GotTimestamp? ==> commitTS == 0)
      modifies this`client, this`trace
      ensures Valid() && client == ClientNext(old(client), a) && trace == Then(old(trace), a)
      ensures SendsOf(trace) == SendsOf(old(trace)).Plus(a)
    {
      trace := Then(trace, a);
      client := ClientNext(client, a);
    }

    /** prewrite: the primary's region group first, the other groups once it has succeeded. */
    method Prewrite(env: CommitEnv) returns (ok: bool)
      requires Valid() && client.phase.Prewriting? && client.acked == {} && env.Fits(txn, client)
      modifies this`client, this`trace
      ensures Valid() && client == old(client).(acked := client.acked)
      ensures ok == env.PrewriteSucceeds()
      ensures ok ==> client.acked == txn.keys
      ensures SendsOf(trace) == SendsOf(old(trace)).(
          prewritten := SendsOf(old(trace)).prewritten + env.PrewriteReach(txn))
    {
      if env.groups.None? {
        return false;
      }
      var groups := env.groups.value;
      UnionHasGroup(groups, txn.primary);
      var p := 0;
      while txn.primary !in groups[p]
        invariant p < |groups|
        invariant exists i :: p <= i < |groups| && txn.primary in groups[i]
        invariant forall i | 0 <= i < p :: txn.primary !in groups[i]
        decreases |groups| - p
      {
        p := p + 1;
      }
      assert p == GroupOf(groups, txn.primary);
      ok := PrewriteGroup(env, p);
      if !ok {
        return;
      }
      ReachHas(groups, env.prewriteSent, p);
      ok := PrewriteSecondaryGroups(env, p);
    }

    /** prewriteRegion: the request goes out unless it was cancelled before. */
    method PrewriteGroup(env: CommitEnv, i: nat) returns (ok: bool)
      requires Valid() && client.phase.Prewriting? && env.groups.Some? && env.PrewriteFits() && i < |env.groups.value|
      requires Covers(env.groups.value, txn.keys)
      requires txn.primary in env.groups.value[i] || txn.primary in client.acked
      modifies this`client, this`trace
      ensures Valid() && ok == env.prewriteOk[i]
      ensures client == old(client).(acked := old(client).acked + if ok then env.groups.value[i] else {})
      ensures SendsOf(trace) == SendsOf(old(trace)).(
          prewritten := SendsOf(old(trace)).prewritten + if env.prewriteSent[i] then env.groups.value[i] else {})
    {
      GroupInUnion(env.groups.value, i);
      if env.prewriteSent[i] {
        Emit(SendPrewrite(env.groups.value[i]));
      }
      ok := env.prewriteOk[i];
      if ok {
        Emit(PrewriteAcked(env.groups.value[i]));
      }
    }

    /** The other groups, in parallel; one that fails cancels those not sent yet. */
    method PrewriteSecondaryGroups(env: CommitEnv, p: nat) returns (ok: bool)
      requires Valid() && client.phase.Prewriting? && env.Fits(txn, client) && env.groups.Some?
      requires p < |env.groups.value| && env.prewriteOk[p]
      requires client.acked == env.groups.value[p] && txn.primary in client.acked
      requires env.groups.value[p] <= SendsOf(trace).prewritten
      modifies this`client, this`trace
      ensures Valid() && client == old(client).(acked := client.acked)
      ensures ok == env.PrewriteSucceeds()
      ensures ok ==> client.acked == txn.keys
      ensures SendsOf(trace) == SendsOf(old(trace)).(
          prewritten := SendsOf(old(trace)).prewritten + Reach(env.groups.value, env.prewriteSent))
    {
      var groups := env.groups.value;
      GroupInUnion(groups, p);
      ok := true;
      ghost var before := SendsOf(trace);
      for i := 0 to |groups|
        invariant Valid() && client == old(client).(acked := client.acked) && groups[p] <= client.acked
        invariant ok == forall j | 0 <= j < i :: env.prewriteOk[j]
        invariant Acked(groups[..i], ok, client.acked, txn.keys)
        invariant SendsOf(trace) == Prewritten(before, groups[..i], env.prewriteSent[..i])
      {
        AckedGrows(groups, i, ok, client.acked, txn.keys, env.prewriteOk[i]);
        PrewrittenGrows(before, groups, env.prewriteSent, i);
        if i != p {
          var done := PrewriteGroup(env, i);
          ok := ok && done;
        }
      }
      assert groups[..|groups|] == groups && env.prewriteSent[..|groups|] == env.prewriteSent;
    }

    /** rollback: one request per region group, in parallel; a group that fails cancels those not sent yet, and nothing
        is sent if the regions cannot be looked up. */
    method Rollback(env: CommitEnv)
      requires Valid() && client.phase.Aborting? && env.RollbackFits(txn)
      modifies this`client, this`trace
      ensures Valid() && client == old(client)
      ensures SendsOf(trace) == SendsOf(old(trace)).(
          rolledBack := SendsOf(old(trace)).rolledBack + env.RollbackReach(txn))
    {
      if env.rollbackGroups.None? {
        return;
      }
      var groups, sent := env.rollbackGroups.value, env.rollbackSent;
      for i := 0 to |groups|
        invariant Valid() && client == old(client)
        invariant SendsOf(trace) == SendsOf(old(trace)).(
            rolledBack := SendsOf(old(trace)).rolledBack + Reach(groups[..i], sent[..i]))
      {
        GroupInUnion(groups, i);
        assert groups[..i + 1][..i] == groups[..i] && sent[..i + 1][..i] == sent[..i];
        if sent[i] {
          Emit(SendAbort(groups[i]));
        }
      }
      assert groups[..|groups|] == groups && sent[..|groups|] == sent;
    }

    /** commitSecondaries: one request per region group; together they name every key but the primary. */
    method CommitSecondaries(env: CommitEnv)
      requires Valid() && client.phase.Secondaries? && Covers(env.secondaryGroups, txn.keys - {txn.primary})
      modifies this`client, this`trace
      ensures Valid() && client == old(client)
      ensures SendsOf(trace) == SendsOf(old(trace)).(
          secondaries := SendsOf(old(trace)).secondaries + (txn.keys - {txn.primary}))
    {
      var groups := env.secondaryGroups;
      for i := 0 to |groups|
        invariant Valid() && client == old(client)
        invariant SendsOf(trace) == SendsOf(old(trace)).(
            secondaries := SendsOf(old(trace)).secondaries + Union(groups[..i]))
      {
        GroupInUnion(groups, i);
        assert groups[..i + 1][..i] == groups[..i];
        Emit(SendSecondaries(groups[i]));
      }
      assert groups[..|groups|] == groups;
    }

    /** commitPrimary; an error leads to checkPrimaryStatus. */
    method SettlePrimary(env: CommitEnv) returns (verdict: Phase)
      requires Valid() && client.phase.Primary? && !commitStatusUnknown
      modifies this`client, this`trace, this`commitStatusUnknown
      ensures Valid() && verdict == client.phase
      ensures client == old(client).(phase := verdict,
          commitStatusUnknown := old(client).commitStatusUnknown || commitStatusUnknown)
      ensures verdict == if cfg.try1PC || env.primaryOk then Secondaries else Verdict(env.status)
      ensures commitStatusUnknown == verdict.Idle?
      ensures SendsOf(trace) == SendsOf(old(trace)).(
          primary := SendsOf(old(trace)).primary || !cfg.try1PC,
          checked := SendsOf(old(trace)).checked || (!cfg.try1PC && !env.primaryOk))
    {
      if cfg.try1PC {
        Emit(PrimarySkipped);
        return Secondaries;
      }
      Emit(SendPrimaryCommit);
      if env.primaryOk {
        Emit(PrimaryOk);
        return Secondaries;
      }
      Emit(PrimaryFailed);
      verdict := CheckPrimaryStatus(env);
    }

    /** checkPrimaryStatus and the decision the committer bases on it. */
    method CheckPrimaryStatus(env: CommitEnv) returns (verdict: Phase)
      requires Valid() && client.phase.Checking? && !commitStatusUnknown
      modifies this`client, this`trace, this`commitStatusUnknown
      ensures Valid() && verdict == Verdict(env.status) && commitStatusUnknown == verdict.Idle?
      ensures client == old(client).(phase := verdict,
          commitStatusUnknown := old(client).commitStatusUnknown || commitStatusUnknown)
      ensures SendsOf(trace) == SendsOf(old(trace)).(checked := true)
    {
      Emit(SendCheck);
      match env.status
      case None =>
        commitStatusUnknown := true;
        verdict := Idle;
        Emit(StatusFailed);
      case Some(r) =>
        if r.commitVersion != 0 {
          verdict := Secondaries;
        } else if r.lockTtl > 0 {
          commitStatusUnknown := true;
          verdict := Idle;
        } else {
          verdict := Aborting;
        }
        Emit(StatusRead(r));
    }

    /** execute: nil exactly when every prewrite succeeded, a timestamp was obtained and the primary is
        known to be committed; then every secondary is told to commit at that timestamp. Otherwise either
        the status is unknown and nothing is rolled back, or a rollback is sent for every key it can place. */
    method Execute(env: CommitEnv) returns (ok: bool)
      requires Valid() && client == start && trace == Empty && commitTS == 0 && !commitStatusUnknown
      requires client.phase.Prewriting? && client.acked == {} && env.Fits(txn, client)
      modifies this
      ensures Valid() && prewriteDone == (old(prewriteDone) || env.PrewriteSucceeds())
      ensures client == start.(phase := Idle, acked := client.acked, commitTS := client.commitTS,
                               committed := start.committed || ok,
                               commitStatusUnknown := start.commitStatusUnknown || commitStatusUnknown)
      ensures ok == env.Decision(cfg).Secondaries? && commitStatusUnknown == env.Decision(cfg).Idle?
      ensures SendsOf(trace) == env.Requests(cfg, txn)
      ensures ok ==> commitTS == env.timestamp.value == client.commitTS
    {
      ok := Prewrite(env);
      if !ok {
        Emit(PrewriteFailed);
        ok := FinishCommit(env, Aborting);
      } else {
        prewriteDone := true;
        ok := CommitPrewritten(env);
      }
    }

    method CommitPrewritten(env: CommitEnv) returns (ok: bool)
      requires Valid() && client == start.(acked := txn.keys) && commitTS == 0 && !commitStatusUnknown
      requires client.phase.Prewriting? && env.Fits(txn, start) && env.PrewriteSucceeds()
      requires SendsOf(trace) == NOTHING.(prewritten := SendsOf(trace).prewritten)
      modifies this`client, this`trace, this`commitTS, this`commitStatusUnknown
      ensures Valid()
      ensures client == start.(phase := Idle, acked := txn.keys, commitTS := client.commitTS,
                               committed := start.committed || ok,
                               commitStatusUnknown := start.commitStatusUnknown || commitStatusUnknown)
      ensures ok == env.Decision(cfg).Secondaries? && commitStatusUnknown == env.Decision(cfg).Idle?
      ensures SendsOf(trace) == env.Requests(cfg, txn).(prewritten := SendsOf(old(trace)).prewritten)
      ensures ok ==> commitTS == env.timestamp.value == client.commitTS
    {
      if env.timestamp.None? {
        Emit(TimestampFailed);
        ok := FinishCommit(env, Aborting);
      } else {
        Emit(GotTimestamp(env.timestamp.value));
        commitTS := env.timestamp.value;
        var verdict := SettlePrimary(env);
        ok := FinishCommit(env, verdict);
      }
    }

    method FinishCommit(env: CommitEnv, verdict: Phase) returns (ok: bool)
      requires Valid() && env.Fits(txn, start) && client.phase == verdict
      requires verdict.Secondaries? || verdict.Aborting? || verdict.Idle?
      modifies this`client, this`trace
      ensures Valid() && ok == verdict.Secondaries?
      ensures client == old(client).(phase := Idle, committed := old(client).committed || ok)
      ensures SendsOf(trace) == SendsOf(old(trace)).(
          secondaries := SendsOf(old(trace)).secondaries + (if ok then txn.keys - {txn.primary} else {}),
          rolledBack := SendsOf(old(trace)).rolledBack + (if verdict.Aborting? then env.RollbackReach(txn) else {}))
    {
      ok := verdict.Secondaries?;
      if verdict.Secondaries? {
        CommitSecondaries(env);
        Emit(CommitReturnsNil);
      } else if verdict.Aborting? {
        Rollback(env);
        Emit(CommitReturnsError);
      }
    }
  }

  class TxnHandle {
    const cfg: Config
    const txn: Txn
    var committed: bool
    var rolledBack: bool
    var commitStatusUnknown: bool
    ghost var client: Client

    constructor (cfg: Config, txn: Txn)
      requires txn.Valid()
      ensures Valid() && client == FRESH_CLIENT && this.cfg == cfg && this.txn == txn
    {
      this.cfg, this.txn := cfg, txn;
      committed, rolledBack, commitStatusUnknown := false, false, false;
      client := FRESH_CLIENT;
    }

    ghost predicate Valid()
      reads this
    {
      && txn.Valid() && client.phase.Idle?
      && client.committed == committed && client.rolledBack == rolledBack
      && client.commitStatusUnknown == commitStatusUnknown
    }

    /** Commit of a non-empty transaction. A finished handle refuses; otherwise the call is a path of
        protocol steps and its result is the committer's decision. */
    method Commit(env: CommitEnv) returns (ok: bool, ghost trace: Trace)
      requires Valid() && env.Fits(txn, client)
      requires client.attempt > 0 ==> cfg.handleReused
      modifies this
      ensures Valid() && rolledBack == old(rolledBack)
      ensures ClientRun(cfg, txn, old(client), trace) == Some(client)
      ensures old(committed || rolledBack) ==> !ok && trace == Empty
      ensures !old(committed || rolledBack) ==> ok == committed == env.Decision(cfg).Secondaries?
      ensures !old(committed || rolledBack) ==>
          commitStatusUnknown == (old(commitStatusUnknown) || env.Decision(cfg).Idle?)
      ensures !old(committed || rolledBack) ==> SendsOf(trace) == env.Requests(cfg, txn)
    {
      trace := Empty;
      if committed || rolledBack {
        return false, Empty;
      }
      ghost var begun := ClientNext(client, Begin);
      var committer := new TwoPhaseCommitter(cfg, txn, begun);
      ok := committer.Execute(env);
      if ok {
        committed := true;
      } else if committer.commitStatusUnknown {
        commitStatusUnknown := true;
      }
      client := committer.client;
      trace := Prepend(Begin, committer.trace);
      PrependRuns(cfg, txn, old(client), Begin, committer.trace);
    }

    /** Rollback sends one rollback per region group until one fails, so all of them if `failAt` is past
        the end; it sends nothing if the transaction is committed, already rolled back, or left with an
        unknown commit status. */
    method Rollback(groups: Option<seq<set<Key>>>, failAt: nat) returns (ok: bool, ghost trace: Trace)
      requires Valid() && (groups.Some? ==> Covers(groups.value, txn.keys))
      modifies this
      ensures Valid() && committed == old(committed) && commitStatusUnknown == old(commitStatusUnknown)
      ensures rolledBack == (old(rolledBack) || (!committed && !commitStatusUnknown))
      ensures ClientRun(cfg, txn, old(client), trace) == Some(client)
      ensures old(committed || rolledBack || commitStatusUnknown) ==> ok == !committed && trace == Empty
      ensures !old(committed || rolledBack || commitStatusUnknown) ==>
                && ok == (groups.Some? && |groups.value| <= failAt)
                && SendsOf(trace) == NOTHING.(
                     rolledBack := if groups.None? then {} else Union(Sent(groups.value, failAt)))
                && (ok ==> SendsOf(trace).rolledBack == txn.keys)
    {
      trace := Empty;
      if committed {
        return false, trace;
      }
      if rolledBack || commitStatusUnknown {
        return true, trace;
      }
      rolledBack := true;
      client := ClientNext(client, CallRollback);
      trace := Then(trace, CallRollback);
      if groups.None? {
        return false, trace;
      }
      trace := BatchRollback(groups.value, failAt, old(client), trace);
      ok := |groups.value| <= failAt;
      assert groups.value[..|groups.value|] == groups.value;
    }

    method BatchRollback(groups: seq<set<Key>>, failAt: nat, ghost start: Client, ghost before: Trace)
      returns (ghost trace: Trace)
      requires Valid() && rolledBack && Covers(groups, txn.keys)
      requires ClientRun(cfg, txn, start, before) == Some(client) && SendsOf(before) == NOTHING
      ensures ClientRun(cfg, txn, start, trace) == Some(client)
      ensures SendsOf(trace) == NOTHING.(rolledBack := Union(Sent(groups, failAt)))
    {
      trace := before;
      for i := 0 to |groups|
        invariant i <= failAt
        invariant ClientRun(cfg, txn, start, trace) == Some(client)
        invariant SendsOf(trace) == NOTHING.(rolledBack := Union(groups[..i]))
      {
        GroupInUnion(groups, i);
        assert groups[..i + 1][..i] == groups[..i];
        trace := Then(trace, SendRollback(groups[i]));
        if i == failAt {
          return;
        }
      }
    }
  }

  /** The groups contacted when the request to group `failAt` fails. */
  ghost function Sent(groups: seq<set<Key>>, failAt: nat): seq<set<Key>> {
    if failAt < |groups| then groups[..failAt + 1] else groups[..|groups|]
  }

  ghost function Prepend(a: ClientAction, trace: Trace): Trace {
    match trace
    case Empty => Then(Empty, a)
    case Then(before, b) => Then(Prepend(a, before), b)
  }

  lemma {:induction false} PrependRuns(cfg: Config, txn: Txn, c: Client, a: ClientAction, trace: Trace)
    requires ClientEnabled(cfg, txn, c, a)
    ensures ClientRun(cfg, txn, c, Prepend(a, trace)) == ClientRun(cfg, txn, ClientNext(c, a), trace)
    ensures a.Begin? ==> SendsOf(Prepend(a, trace)) == SendsOf(trace)
  {
    match trace
    case Empty => assert ClientRun(cfg, txn, c, Empty) == Some(c);
    case Then(before, b) => PrependRuns(cfg, txn, c, a, before);
  }

  /** What the requests say of the result: nil means that every key was prewritten, the primary told to commit unless
      the transaction is in one phase, every other key told to commit and none to roll back; an unknown status that
      nothing was rolled back and no secondary committed. A rollback is sent exactly where the commit was not decided or
      found impossible. */
  lemma RequestsMatchResult(env: CommitEnv, cfg: Config, txn: Txn, c: Client)
    requires txn.Valid() && env.Fits(txn, c)
    ensures var r := env.Requests(cfg, txn);
            && (env.Decision(cfg).Secondaries? ==>
                  r.prewritten == txn.keys && r.primary == !cfg.try1PC && r.rolledBack == {}
                  && r.secondaries == txn.keys - {txn.primary})
            && (env.Decision(cfg).Idle? ==> r.primary && r.checked && r.secondaries == {} && r.rolledBack == {})
            && (r.primary ==> r.prewritten == txn.keys) && (r.checked ==> r.primary)
            && (r.secondaries != {} ==> r.rolledBack == {})
            && r.prewritten <= txn.keys && r.rolledBack <= txn.keys
  {
    if env.groups.Some? {
      ReachIs(env.groups.value, env.prewriteSent);
      GroupInUnion(env.groups.value, GroupOf(env.groups.value, txn.primary));
    }
    if env.rollbackGroups.Some? {
      ReachIs(env.rollbackGroups.value, env.rollbackSent);
    }
  }

  /** The decision: nil exactly when prewrite and timestamp succeeded and the primary's commit was acknowledged, or read
      back as committed; unknown exactly when it was not and the check failed or found the lock; else a rollback. */
  lemma DecisionIs(env: CommitEnv, cfg: Config)
    ensures var tried := env.PrewriteSucceeds() && env.timestamp.Some?;
            var open := tried && !cfg.try1PC && !env.primaryOk;
            && (env.Decision(cfg).Secondaries?
                <==> tried && (cfg.try1PC || env.primaryOk || (env.status.Some? && env.status.value.commitVersion > 0)))
            && (env.Decision(cfg).Idle?
                <==> open && (env.status.None?
                              || (env.status.value.commitVersion == 0 && env.status.value.lockTtl > 0)))
            && (env.Decision(cfg).Aborting?
                <==> !tried || (open && env.status == Some(StatusReply(0, 0))))
  {
  }

  // ----- Calls inside runs of the whole system -----

  /** What the client does in a run, without what nodes and resolvers do in between. */
  ghost function ClientPart(run: seq<Action>): Trace {
    if run == [] then Empty
    else
      var n := |run| - 1;
      if run[n].ByClient? then Then(ClientPart(run[..n]), run[n].act) else ClientPart(run[..n])
  }

  ghost function Extended(trace: Trace, a: Action): Trace {
    if a.ByClient? then Then(trace, a.act) else trace
  }

  lemma ClientPartStep(run: seq<Action>, i: nat)
    requires i < |run|
    ensures ClientPart(run[i..]) == Extended(ClientPart(run[..|run| - 1][i..]), run[|run| - 1])
  {
    var n := |run| - 1;
    assert run[i..][..n - i] == run[..n][i..];
  }

  lemma ClientStep(cfg: Config, txn: Txn, c: Client, trace: Trace, s: State, a: Action, s': State)
    requires ClientRun(cfg, txn, c, trace) == Some(s.client) && Enabled(cfg, txn, s, a) && s' == Next(cfg, txn, s, a)
    ensures ClientRun(cfg, txn, c, Extended(trace, a)) == Some(s'.client)
  {
  }

  /** The client's state in a run is the one its own steps lead to. */
  lemma {:induction false} ClientFollows(cfg: Config, txn: Txn, run: seq<Action>, i: nat)
    requires RunState(cfg, txn, run).Some? && i <= |run|
    ensures ClientRun(cfg, txn, StateAt(cfg, txn, run, i).client, ClientPart(run[i..]))
         == Some(RunState(cfg, txn, run).value.client)
    decreases |run|
  {
    if i == |run| {
      assert run[..i] == run && run[i..] == [];
    } else {
      var n := |run| - 1;
      var s, s' := RunState(cfg, txn, run[..n]).value, RunState(cfg, txn, run).value;
      assert run[..n][..i] == run[..i];
      ClientFollows(cfg, txn, run[..n], i);
      ClientPartStep(run, i);
      ClientStep(cfg, txn, StateAt(cfg, txn, run, i).client, ClientPart(run[..n][i..]), s, run[n], s');
    }
  }

  /** A call of Commit whose steps are what the client does from action `i` on in a run of the whole system, each
      answer it got being a reply that a storage node gave in that run: if it returned nil, the primary is committed at
      the timestamp of the client. */
  lemma NilInARunMeansCommitted(cfg: Config, txn: Txn, run: seq<Action>, i: nat, trace: Trace, after: Client)
    requires cfg.Careful() && SafeRun(cfg, txn, run) && txn.Valid() && RunState(cfg, txn, run).Some? && i <= |run|
    requires ClientPart(run[i..]) == trace
    requires ClientRun(cfg, txn, StateAt(cfg, txn, run, i).client, trace) == Some(after) && after.committed
    ensures var s := RunState(cfg, txn, run).value;
            s.client == after && txn.primary in s.cells && s.cells[txn.primary].commitTS == after.commitTS > txn.startTS
  {
    ClientFollows(cfg, txn, run, i);
    SuccessMeansCommitted(cfg, txn, run);
  }
}
