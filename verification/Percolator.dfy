/** The Percolator commit protocol as a step system.

    One transaction (one start timestamp), one transaction handle with its two-phase
    committer (pkg/client/committer.go, pkg/client/txn.go), any number of lock resolvers
    (pkg/client/lock_resolver.go) and the storage nodes (internal/storage/txn/actions.go).
    A request stays in `sent` for ever and may be executed at any later time, any number
    of times or never: messages can be delayed, repeated and lost.
 */
module Percolator {
  import opened Bytes

  /** A user key, named by its rank in byte order: the protocol only compares keys. */
  type Key = nat

  type Timestamp = nat

  /** 2^18: timestamps carry their physical part above the 18 logical bits. */
  const LOGICAL_RANGE: nat := 0x4_0000

  /** The assumptions under which the protocol is examined. */
  datatype Config = Config(
    rollbackBlocksPrewrite: bool, // a rollback record of this transaction refuses its prewrite
    lockTTL: nat,
    try1PC: bool,                 // TxnOptions.Try1PC
    statusKeyErrors: bool,        // a status reply to the committer may carry a KeyError
    cleanupRequests: bool,        // KvCleanup requests are issued
    handleReused: bool,           // Commit is called again on a handle whose Commit returned an error
    overlappingCalls: bool)       // Rollback is called while a Commit is running
  {
    /** What the options, the callers and the status replies have to meet. */
    predicate Careful() {
      lockTTL > 0 && !try1PC && !statusKeyErrors && !cleanupRequests && !handleReused && !overlappingCalls
    }

    /** The assumptions that together make every run atomic. */
    predicate Sound() {
      Careful() && rollbackBlocksPrewrite
    }
  }

  datatype Txn = Txn(keys: set<Key>, primary: Key, startTS: Timestamp) {
    predicate Valid() { primary in keys }
  }

  // ----- Storage nodes: what one key records about this transaction -----

  /** The lock column and the write records of one key that belong to this transaction.
      `commitTS == 0` means that there is no commit record. */
  datatype Cell = Cell(locked: bool, rolledBack: bool, commitTS: Timestamp) {
    predicate Untouched() { !locked && !rolledBack && commitTS == 0 }
  }

  /** A status reply: the two fields that clients look at. A KeyError leaves both zero. */
  datatype StatusReply = StatusReply(commitVersion: Timestamp, lockTtl: nat)

  type Cells = map<Key, Cell>

  /** Prewrite succeeds on a key that is already locked by this transaction, and fails on a
      newer data write, hence on the transaction's own commit record. */
  predicate AcceptsPrewrite(cfg: Config, c: Cell) {
    c.locked || (c.commitTS == 0 && !(cfg.rollbackBlocksPrewrite && c.rolledBack))
  }

  function PrewriteCell(c: Cell): Cell {
    c.(locked := true)
  }

  function CommitCell(c: Cell, ts: Timestamp): Cell {
    Cell(false, c.rolledBack, ts)
  }

  /** A rollback record found first makes the request a no-op, even if a lock is present. */
  function RollbackCell(c: Cell): Cell
  {
    if c.rolledBack then c else Cell(false, true, c.commitTS)
  }

  predicate Expired(cfg: Config, txn: Txn, callerTS: Timestamp) {
    callerTS / LOGICAL_RANGE >= txn.startTS / LOGICAL_RANGE + cfg.lockTTL
  }

  /** CheckTxnStatusWithCleanup on the primary: the new cell and the reply. */
  function CheckStatus(cfg: Config, txn: Txn, c: Cell, callerTS: Timestamp, rollbackIfNotExist: bool)
    : (Cell, StatusReply)
  {
    if c.locked then
      if Expired(cfg, txn, callerTS) then (Cell(false, true, c.commitTS), StatusReply(0, 0))
      else (c, StatusReply(0, cfg.lockTTL))
    else if c.commitTS != 0 then (c, StatusReply(c.commitTS, 0))
    else if !c.rolledBack && rollbackIfNotExist then (c.(rolledBack := true), StatusReply(0, 0))
    else (c, StatusReply(0, 0))
  }

  function ResolveCell(c: Cell, ts: Timestamp): Cell {
    if !c.locked then c
    else if ts > 0 then CommitCell(c, ts)
    else if c.commitTS != 0 then c
    else RollbackCell(c)
  }

  /** KvCleanup of a locked key: commit it if its primary carries a commit record and no lock,
      otherwise roll it back. */
  function CleanupCell(c: Cell, primary: Cell): Cell {
    if !c.locked then c
    else if !primary.locked && primary.commitTS != 0 then CommitCell(c, primary.commitTS)
    else Cell(false, true, c.commitTS)
  }

  /** Batches are all-or-nothing: these give the cells after a successful batch. */
  function PrewriteAll(cells: Cells, ks: set<Key>): Cells {
    map k | k in cells :: if k in ks then PrewriteCell(cells[k]) else cells[k]
  }

  function CommitAll(cells: Cells, ks: set<Key>, ts: Timestamp): Cells {
    map k | k in cells :: if k in ks then CommitCell(cells[k], ts) else cells[k]
  }

  function RollbackAll(cells: Cells, ks: set<Key>): Cells {
    map k | k in cells :: if k in ks then RollbackCell(cells[k]) else cells[k]
  }

  // ----- The transaction handle and its committer -----

  datatype Phase = Idle | Prewriting | Primary | Checking | Secondaries | Aborting

  /** `attempt` counts calls of Commit; `commitTS` is the last commit timestamp obtained. */
  datatype Client = Client(
    phase: Phase, attempt: nat, acked: set<Key>, commitTS: Timestamp,
    committed: bool, rolledBack: bool, commitStatusUnknown: bool)

  const FRESH_CLIENT := Client(Idle, 0, {}, 0, false, false, false)

  datatype ClientAction =
    | Begin                                  // Commit is called
    | SendPrewrite(ks: set<Key>)
    | PrewriteAcked(ks: set<Key>)
    | PrewriteFailed
    | GotTimestamp(ts: Timestamp)
    | TimestampFailed
    | SendPrimaryCommit
    | PrimarySkipped                         // Try1PC: the primary commit is skipped
    | PrimaryOk
    | PrimaryFailed
    | SendCheck
    | StatusRead(r: StatusReply)
    | StatusFailed
    | SendSecondaries(ks: set<Key>)
    | CommitReturnsNil
    | SendAbort(ks: set<Key>)                // rollback by the committer
    | CommitReturnsError
    | CallRollback                           // TxnHandle.Rollback passes its flag checks
    | SendRollback(ks: set<Key>)             // rollback by TxnHandle.Rollback

  predicate ClientEnabled(cfg: Config, txn: Txn, c: Client, a: ClientAction) {
    match a
    case Begin => c.phase.Idle? && !c.committed && !c.rolledBack && (c.attempt > 0 ==> cfg.handleReused)
    case SendPrewrite(ks) =>
      c.phase.Prewriting? && ks <= txn.keys && (txn.primary in ks || txn.primary in c.acked)
    case PrewriteAcked(ks) => c.phase.Prewriting?
    case PrewriteFailed => c.phase.Prewriting?
    case GotTimestamp(ts) =>
      c.phase.Prewriting? && c.acked == txn.keys && ts > txn.startTS && ts > c.commitTS
    case TimestampFailed => c.phase.Prewriting? && c.acked == txn.keys
    case SendPrimaryCommit => c.phase.Primary? && !cfg.try1PC
    case PrimarySkipped => c.phase.Primary? && cfg.try1PC
    case PrimaryOk => c.phase.Primary? && !cfg.try1PC
    case PrimaryFailed => c.phase.Primary? && !cfg.try1PC
    case SendCheck => c.phase.Checking?
    case StatusRead(r) => c.phase.Checking?
    case StatusFailed => c.phase.Checking?
    case SendSecondaries(ks) => c.phase.Secondaries? && ks <= txn.keys - {txn.primary}
    case CommitReturnsNil => c.phase.Secondaries?
    case SendAbort(ks) => c.phase.Aborting? && ks <= txn.keys
    case CommitReturnsError => c.phase.Aborting?
    case CallRollback =>
      (c.phase.Idle? || cfg.overlappingCalls) && !c.committed && !c.rolledBack && !c.commitStatusUnknown
    case SendRollback(ks) => (c.phase.Idle? || cfg.overlappingCalls) && c.rolledBack && ks <= txn.keys
  }

  function ClientNext(c: Client, a: ClientAction): Client {
    match a
    case Begin => c.(phase := Prewriting, attempt := c.attempt + 1, acked := {})
    case PrewriteAcked(ks) => c.(acked := c.acked + ks)
    case PrewriteFailed => c.(phase := Aborting)
    case GotTimestamp(ts) => c.(phase := Primary, commitTS := ts)
    case TimestampFailed => c.(phase := Aborting)
    case PrimarySkipped => c.(phase := Secondaries)
    case PrimaryOk => c.(phase := Secondaries)
    case PrimaryFailed => c.(phase := Checking)
    case StatusRead(r) =>
      if r.commitVersion != 0 then c.(phase := Secondaries)
      else if r.lockTtl > 0 then c.(phase := Idle, commitStatusUnknown := true)
      else c.(phase := Aborting)
    case StatusFailed => c.(phase := Idle, commitStatusUnknown := true)
    case CommitReturnsNil => c.(phase := Idle, committed := true)
    case CommitReturnsError => c.(phase := Idle)
    case CallRollback => c.(rolledBack := true)
    case _ => c
  }

  // ----- The whole system -----

  datatype Request =
    | Prewrite(ks: set<Key>, attempt: nat)
    | CommitKeys(ks: set<Key>, ts: Timestamp)
    | RollbackKeys(ks: set<Key>)
    | Check(attempt: nat)
    | ResolverCheck(callerTS: Timestamp)
    | Resolve(k: Key, ts: Timestamp)

  datatype Reply =
    | PrewriteDone(ks: set<Key>, attempt: nat)
    | CommitDone(ks: set<Key>, ts: Timestamp)
    | CommitterStatus(attempt: nat, r: StatusReply)
    | ResolverStatus(r: StatusReply)

  datatype State = State(cells: Cells, sent: set<Request>, replies: set<Reply>, client: Client)

  datatype Action =
    | ByClient(act: ClientAction)
    | Deliver(req: Request)                  // a storage node executes a request that succeeds
    | FailStatus(attempt: nat)               // a committer status check that ends in a KeyError
    | Cleanup(k: Key)
    | ResolverAsks(callerTS: Timestamp)
    | ResolverActs(r: StatusReply, k: Key)

  function Initial(txn: Txn): State {
    State(map k | k in txn.keys :: Cell(false, false, 0), {}, {}, FRESH_CLIENT)
  }

  /** The replies a client step consumes have been produced by a storage node. */
  predicate ReplyAvailable(txn: Txn, s: State, a: ClientAction) {
    match a
    case PrewriteAcked(ks) => PrewriteDone(ks, s.client.attempt) in s.replies
    case PrimaryOk => CommitDone({txn.primary}, s.client.commitTS) in s.replies
    case StatusRead(r) => CommitterStatus(s.client.attempt, r) in s.replies
    case _ => true
  }

  predicate Deliverable(cfg: Config, txn: Txn, cells: Cells, req: Request) {
    match req
    case Prewrite(ks, _) => ks <= cells.Keys && forall k | k in ks :: AcceptsPrewrite(cfg, cells[k])
    case CommitKeys(ks, _) => ks <= cells.Keys && forall k | k in ks :: cells[k].locked
    case RollbackKeys(ks) => ks <= cells.Keys && forall k | k in ks :: cells[k].commitTS == 0
    case Check(_) => txn.primary in cells
    case ResolverCheck(_) => txn.primary in cells
    case Resolve(k, _) => k in cells
  }

  predicate Enabled(cfg: Config, txn: Txn, s: State, a: Action) {
    match a
    case ByClient(act) => ClientEnabled(cfg, txn, s.client, act) && ReplyAvailable(txn, s, act)
    case Deliver(req) => req in s.sent && Deliverable(cfg, txn, s.cells, req)
    case FailStatus(attempt) => cfg.statusKeyErrors && Check(attempt) in s.sent
    case Cleanup(k) => cfg.cleanupRequests && k in s.cells && txn.primary in s.cells
    case ResolverAsks(_) => true
    case ResolverActs(r, k) =>
      ResolverStatus(r) in s.replies && k in txn.keys && !(r.lockTtl > 0 && r.commitVersion == 0)
  }

  function RequestsOf(txn: Txn, c: Client, a: ClientAction): set<Request> {
    match a
    case SendPrewrite(ks) => {Prewrite(ks, c.attempt)}
    case SendPrimaryCommit => {CommitKeys({txn.primary}, c.commitTS)}
    case SendCheck => {Check(c.attempt)}
    case SendSecondaries(ks) => {CommitKeys(ks, c.commitTS)}
    case SendAbort(ks) => {RollbackKeys(ks)}
    case SendRollback(ks) => {RollbackKeys(ks)}
    case _ => {}
  }

  function Execute(cfg: Config, txn: Txn, cells: Cells, req: Request): (Cells, set<Reply>)
    requires Deliverable(cfg, txn, cells, req)
  {
    match req
    case Prewrite(ks, n) => (PrewriteAll(cells, ks), {PrewriteDone(ks, n)})
    case CommitKeys(ks, ts) => (CommitAll(cells, ks, ts), {CommitDone(ks, ts)})
    case RollbackKeys(ks) => (RollbackAll(cells, ks), {})
    case Check(n) =>
      var (c, r) := CheckStatus(cfg, txn, cells[txn.primary], 0, false);
      (cells[txn.primary := c], {CommitterStatus(n, r)})
    case ResolverCheck(callerTS) =>
      var (c, r) := CheckStatus(cfg, txn, cells[txn.primary], callerTS, true);
      (cells[txn.primary := c], {ResolverStatus(r)})
    case Resolve(k, ts) => (cells[k := ResolveCell(cells[k], ts)], {})
  }

  function Next(cfg: Config, txn: Txn, s: State, a: Action): State
    requires Enabled(cfg, txn, s, a)
  {
    match a
    case ByClient(act) =>
      s.(client := ClientNext(s.client, act), sent := s.sent + RequestsOf(txn, s.client, act))
    case Deliver(req) =>
      var (cells, replies) := Execute(cfg, txn, s.cells, req);
      s.(cells := cells, replies := s.replies + replies)
    case FailStatus(attempt) => s.(replies := s.replies + {CommitterStatus(attempt, StatusReply(0, 0))})
    case Cleanup(k) => s.(cells := s.cells[k := CleanupCell(s.cells[k], s.cells[txn.primary])])
    case ResolverAsks(callerTS) => s.(sent := s.sent + {ResolverCheck(callerTS)})
    case ResolverActs(r, k) => s.(sent := s.sent + {Resolve(k, r.commitVersion)})
  }

  /** The state a run ends in, if every action of the run is enabled where it happens. */
  function RunState(cfg: Config, txn: Txn, run: seq<Action>): Option<State> {
    if run == [] then Some(Initial(txn))
    else
      match RunState(cfg, txn, run[..|run| - 1])
      case None => None
      case Some(s) =>
        if Enabled(cfg, txn, s, run[|run| - 1]) then Some(Next(cfg, txn, s, run[|run| - 1])) else None
  }

  // ----- What the protocol promises -----

  /** Every committed key is committed with its primary, at the primary's timestamp, and
      nothing is rolled back beside a committed primary. */
  ghost predicate Atomic(txn: Txn, s: State)
    requires txn.primary in s.cells
  {
    && (forall k | k in s.cells && s.cells[k].commitTS > 0 :: s.cells[k].commitTS == s.cells[txn.primary].commitTS)
    && (s.cells[txn.primary].commitTS > 0 ==> forall k | k in s.cells :: !s.cells[k].rolledBack)
  }
}
