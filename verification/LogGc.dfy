/** Log compaction and background deletion (internal/raftstore/raftlog_gc.go, the CompactLog part of
    internal/raftstore/peer.go) over all regions of one engine, interleaved with log writes in any way. */
module LogGc {
  import opened Bytes
  import opened KvEngine
  import opened RaftKeys
  import opened RaftLog
  import Recovery

  // ----- The CompactLog command -----

  datatype CompactLogRequest = CompactLogRequest(compactIndex: uint64, compactTerm: uint64)

  datatype CompactOutcome = NoOp | Rejected | Compacted(state: Progress, firstIndex: int)

  /** execCompactLog. */
  function ExecCompactLog(p: Progress, req: CompactLogRequest): CompactOutcome {
    if req.compactIndex <= p.truncIndex then NoOp
    else if req.compactTerm == 0 then Rejected
    else if req.compactIndex > p.applied then Rejected
    else Compacted(p.(truncIndex := req.compactIndex, truncTerm := req.compactTerm), p.truncIndex + 1)
  }

  const COMPACT_TAG: byte := 0x01

  function MarshalCompactLog(req: CompactLogRequest): Bytes {
    [COMPACT_TAG] + BE(req.compactIndex, 8) + BE(req.compactTerm, 8)
  }

  function UnmarshalCompactLog(d: Bytes): Option<CompactLogRequest> {
    if |d| < 17 || d[0] != COMPACT_TAG then None
    else
      FromBEBound(d[1..9]);
      FromBEBound(d[9..17]);
      Pow256Of8();
      Some(CompactLogRequest(FromBE(d[1..9]), FromBE(d[9..17])))
  }

  lemma CompactLogRoundTrip(req: CompactLogRequest, rest: Bytes)
    ensures UnmarshalCompactLog(MarshalCompactLog(req) + rest) == Some(req)
  {
    var d := MarshalCompactLog(req) + rest;
    assert d[1..9] == BE(req.compactIndex, 8) && d[9..17] == BE(req.compactTerm, 8);
    Pow256Of8();
    BERoundTrip(req.compactIndex, 8);
    BERoundTrip(req.compactTerm, 8);
  }

  // ----- One engine, many regions -----

  datatype GcTask = GcTask(region: uint64, start: int, end: int)

  datatype Region = Region(mem: Mem, log: Log)

  datatype State = State(kv: Store, regions: map<uint64, Region>, tasks: set<GcTask>)

  datatype Step =
    | Save(region: uint64, rd: Ready)
    | Compact(region: uint64, req: CompactLogRequest, fromZero: bool, dropped: bool)
    | Cut(region: uint64, compactTo: uint64)
    | Apply(region: uint64, applied: uint64)
    | Collect(task: GcTask)                 // any task ever scheduled, at any time, any number of times

  /** The cache cut of CompactTo, which shortens the cache from the front. */
  function CutCache(cache: seq<Entry>, compactTo: uint64): seq<Entry> {
    if cache == [] || compactTo <= cache[0].index then cache
    else if compactTo - cache[0].index >= |cache| then []
    else cache[compactTo - cache[0].index..]
  }

  /** gcRaftLog. */
  function Collected(kv: Store, t: GcTask): Store {
    if t.start >= t.end || t.start < 0 || t.end > MAX_UINT64 then kv
    else DeleteKeyRange(kv, RaftLogKey(t.region, t.start), RaftLogKey(t.region, t.end))
  }

  /** Raft's part of the contract: batches are contiguous and start above the truncation point, the applied index
      moves forward, compaction names an entry of the log, and the cache is cut at or below the last index or
      when no overwritten suffix is left. */
  ghost predicate Legal(s: State, step: Step) {
    match step
    case Save(r, rd) => r in s.regions && s.regions[r].log.Accepts(rd.entries)
    case Compact(r, req, _, _) =>
      r in s.regions && (ExecCompactLog(s.regions[r].mem.progress, req).Compacted? ==>
          s.regions[r].log.Has(req.compactIndex))
    case Cut(r, c) =>
      r in s.regions && var m := s.regions[r].mem; c <= m.LastIndex() || m.persistedLast == m.LastIndex()
    case Apply(r, i) => r in s.regions && s.regions[r].mem.progress.applied <= i
    case Collect(t) => t in s.tasks
  }

  function NewTask(r: uint64, first: int, truncIndex: uint64, fromZero: bool): GcTask {
    GcTask(r, if fromZero then 0 else first, truncIndex + 1)
  }

  /** PersistApplyState of region `r`. */
  function Persisted(kv: Store, r: uint64, p: Progress): Store {
    kv[ApplyKey(r) := RawValue(Recovery.ProgressBytes(p))]
  }

  /** Compaction and application persist the apply state they change. */
  ghost function Next(s: State, step: Step): State
    requires Legal(s, step)
  {
    match step
    case Save(r, rd) =>
      var g := s.regions[r];
      s.(kv := AfterPuts(s.kv, PutsOf(r, rd)),
          regions := s.regions[r := Region(g.mem.AfterReady(rd), g.log.Append(rd.entries))])
    case Compact(r, req, fromZero, dropped) =>
      var g := s.regions[r];
      (match ExecCompactLog(g.mem.progress, req)
       case Compacted(p, first) =>
         s.(kv := Persisted(s.kv, r, p),
            regions := s.regions[r := Region(g.mem.(progress := p), g.log.Truncate(req.compactIndex, req.compactTerm))],
            tasks := if dropped then s.tasks else s.tasks + {NewTask(r, first, p.truncIndex, fromZero)})
       case _ => s)
    case Cut(r, c) =>
      var g := s.regions[r];
      s.(regions := s.regions[r := g.(mem := g.mem.(cache := CutCache(g.mem.cache, c)))])
    case Apply(r, i) =>
      var g := s.regions[r];
      var p := g.mem.progress.(applied := i);
      s.(kv := Persisted(s.kv, r, p), regions := s.regions[r := g.(mem := g.mem.(progress := p))])
    case Collect(t) => s.(kv := Collected(s.kv, t))
  }

  ghost predicate Sound(kv: Store, r: uint64, g: Region) {
    Represents(kv, r, g.mem, g.log) && g.log.truncIndex <= g.mem.progress.applied
  }

  ghost predicate Harmless(t: GcTask, g: Region) {
    0 <= t.start && t.end <= g.log.truncIndex + 1
  }

  ghost predicate Inv(s: State) {
    && (forall r | r in s.regions :: Sound(s.kv, r, s.regions[r]))
    && (forall t | t in s.tasks :: t.region in s.regions && Harmless(t, s.regions[t.region]))
  }

  lemma TruncateRepresents(kv: Store, r: uint64, m: Mem, log: Log, i: uint64, term: uint64)
    requires Represents(kv, r, m, log) && log.Has(i)
    ensures Represents(kv, r, m.(progress := m.progress.(truncIndex := i, truncTerm := term)), log.Truncate(i, term))
  {
    var l := log.Truncate(i, term);
    forall j: uint64 | l.Has(j) ensures HoldsEntry(kv, r, j, l.At(j)) {
      assert log.Has(j) && HoldsEntry(kv, r, j, log.At(j));
    }
  }

  lemma CutRepresents(kv: Store, r: uint64, m: Mem, log: Log, c: uint64)
    requires Represents(kv, r, m, log) && (c <= m.LastIndex() || m.persistedLast == m.LastIndex())
    ensures Represents(kv, r, m.(cache := CutCache(m.cache, c)), log)
  {
    var cache, cut := m.cache, CutCache(m.cache, c);
    if cache != [] && cut != cache && cut != [] {
      var n := c - cache[0].index;
      forall j | 0 <= j < |cut| ensures cut[j].index == cut[0].index + j {
        assert cut[j] == cache[n + j];
      }
    }
  }

  /** A collection task touches no log entry outside its region and interval. */
  lemma CollectKeeps(kv: Store, t: GcTask, r: uint64, i: uint64)
    requires r != t.region || i < t.start || i >= t.end
    ensures SameAt(kv, Collected(kv, t), LogKey(r, i))
  {
    if !(t.start >= t.end || t.start < 0 || t.end > MAX_UINT64) {
      LogIntervalIsExact(t.region, t.start, t.end, LogKey(r, i));
    }
  }

  /** A collection task removes exactly its region's log keys in its index interval. */
  lemma CollectIsExact(kv: Store, t: GcTask, k: LocalKey)
    requires 0 <= t.start && t.end <= MAX_UINT64 && k in kv
    ensures k !in Collected(kv, t) <==> k.LogKey? && k.region == t.region && t.start <= k.index < t.end
  {
    if t.start < t.end {
      LogIntervalIsExact(t.region, t.start, t.end, k);
    }
  }

  lemma CollectRepresents(kv: Store, t: GcTask, r: uint64, m: Mem, log: Log)
    requires Represents(kv, r, m, log) && (r == t.region ==> t.end <= log.truncIndex + 1)
    ensures Represents(Collected(kv, t), r, m, log)
  {
    forall i: uint64 | log.Has(i) ensures HoldsEntry(Collected(kv, t), r, i, log.At(i)) {
      assert HoldsEntry(kv, r, i, log.At(i));
      CollectKeeps(kv, t, r, i);
    }
  }

  /** What a step does to its own region, all others keeping theirs. */
  lemma RegionStepKeepsInv(s: State, s': State, r: uint64, g: Region)
    requires Inv(s) && r in s.regions && s'.regions == s.regions[r := g]
    requires Sound(s'.kv, r, g) && s.regions[r].log.truncIndex <= g.log.truncIndex
    requires forall q | q in s.regions && q != r :: Sound(s'.kv, q, s.regions[q])
    requires forall t | t in s'.tasks :: t in s.tasks || (t.region == r && Harmless(t, g))
    ensures Inv(s') && TruncationAdvances(s, s')
  {
  }

  lemma SaveKeepsInv(s: State, r: uint64, rd: Ready)
    requires Inv(s) && Legal(s, Save(r, rd))
    ensures Inv(Next(s, Save(r, rd))) && TruncationAdvances(s, Next(s, Save(r, rd)))
  {
    var s', g := Next(s, Save(r, rd)), s.regions[r];
    assert Sound(s.kv, r, g);
    SaveRepresents(s.kv, r, g.mem, g.log, rd);
    forall q | q in s.regions && q != r ensures Sound(s'.kv, q, s.regions[q]) {
      assert Sound(s.kv, q, s.regions[q]);
      OtherRegionKept(s.kv, r, rd, q, s.regions[q].mem, s.regions[q].log);
    }
    RegionStepKeepsInv(s, s', r, s'.regions[r]);
  }

  ghost function TruncatedRegion(g: Region, req: CompactLogRequest): Region
    requires g.log.Has(req.compactIndex)
  {
    Region(g.mem.(progress := g.mem.progress.(truncIndex := req.compactIndex, truncTerm := req.compactTerm)),
           g.log.Truncate(req.compactIndex, req.compactTerm))
  }

  lemma TruncateKeepsSound(kv: Store, r: uint64, g: Region, req: CompactLogRequest)
    requires Sound(kv, r, g) && g.log.Has(req.compactIndex) && req.compactIndex <= g.mem.progress.applied
    ensures Sound(kv, r, TruncatedRegion(g, req))
  {
    TruncateRepresents(kv, r, g.mem, g.log, req.compactIndex, req.compactTerm);
  }

  /** The apply state record is none of the log's keys. */
  lemma PersistKeepsSound(kv: Store, r: uint64, p: Progress, q: uint64, g: Region)
    requires Sound(kv, q, g)
    ensures Sound(Persisted(kv, r, p), q, g)
  {
    forall i: uint64 | g.log.Has(i) ensures HoldsEntry(Persisted(kv, r, p), q, i, g.log.At(i)) {
      assert HoldsEntry(kv, q, i, g.log.At(i));
    }
  }

  lemma PersistKeepsOthers(s: State, r: uint64, p: Progress)
    requires Inv(s)
    ensures forall q | q in s.regions :: Sound(Persisted(s.kv, r, p), q, s.regions[q])
  {
    forall q | q in s.regions ensures Sound(Persisted(s.kv, r, p), q, s.regions[q]) {
      PersistKeepsSound(s.kv, r, p, q, s.regions[q]);
    }
  }

  lemma CompactKeepsInv(s: State, r: uint64, req: CompactLogRequest, fromZero: bool, dropped: bool)
    requires Inv(s) && Legal(s, Compact(r, req, fromZero, dropped))
    ensures Inv(Next(s, Compact(r, req, fromZero, dropped)))
    ensures TruncationAdvances(s, Next(s, Compact(r, req, fromZero, dropped)))
  {
    var s', g := Next(s, Compact(r, req, fromZero, dropped)), s.regions[r];
    if ExecCompactLog(g.mem.progress, req).Compacted? {
      var cut := TruncatedRegion(g, req);
      PersistKeepsOthers(s, r, cut.mem.progress);
      TruncateKeepsSound(s'.kv, r, g, req);
      assert s'.regions == s.regions[r := cut];
      RegionStepKeepsInv(s, s', r, cut);
    }
  }

  lemma CutOrApplyKeepsInv(s: State, step: Step)
    requires Inv(s) && Legal(s, step) && (step.Cut? || step.Apply?)
    ensures Inv(Next(s, step)) && TruncationAdvances(s, Next(s, step))
  {
    var s', r := Next(s, step), step.region;
    assert Sound(s.kv, r, s.regions[r]);
    if step.Cut? {
      CutRepresents(s.kv, r, s.regions[r].mem, s.regions[r].log, step.compactTo);
    } else {
      PersistKeepsOthers(s, r, s'.regions[r].mem.progress);
    }
    RegionStepKeepsInv(s, s', r, s'.regions[r]);
  }

  lemma CollectKeepsInv(s: State, t: GcTask)
    requires Inv(s) && Legal(s, Collect(t))
    ensures Inv(Next(s, Collect(t))) && TruncationAdvances(s, Next(s, Collect(t)))
  {
    var s' := Next(s, Collect(t));
    forall q | q in s'.regions ensures Sound(s'.kv, q, s'.regions[q]) {
      assert Sound(s.kv, q, s.regions[q]);
      CollectRepresents(s.kv, t, q, s.regions[q].mem, s.regions[q].log);
    }
  }

  lemma StepKeepsInv(s: State, step: Step)
    requires Inv(s) && Legal(s, step)
    ensures Inv(Next(s, step)) && TruncationAdvances(s, Next(s, step))
  {
    match step
    case Save(r, rd) => SaveKeepsInv(s, r, rd);
    case Compact(r, req, fromZero, dropped) => CompactKeepsInv(s, r, req, fromZero, dropped);
    case Collect(t) => CollectKeepsInv(s, t);
    case _ => CutOrApplyKeepsInv(s, step);
  }

  /** The truncated index of every region never moves back. */
  ghost predicate TruncationAdvances(s: State, s': State) {
    forall r | r in s.regions :: r in s'.regions && s.regions[r].log.truncIndex <= s'.regions[r].log.truncIndex
  }

  ghost function Run(s: State, steps: seq<Step>): Option<State> {
    if steps == [] then Some(s)
    else
      match Run(s, steps[..|steps| - 1])
      case None => None
      case Some(m) => if Legal(m, steps[|steps| - 1]) then Some(Next(m, steps[|steps| - 1])) else None
  }

  /** Under any interleaving of writes, compactions, cache cuts and repeated, late or dropped collections, every
      region's log above its truncated index is intact, and the truncated index only grows and never passes
      the applied index. */
  lemma {:induction false} CollectionIsSafe(s: State, steps: seq<Step>)
    requires Inv(s) && Run(s, steps).Some?
    ensures Inv(Run(s, steps).value) && TruncationAdvances(s, Run(s, steps).value)
  {
    if steps != [] {
      var n := |steps| - 1;
      CollectionIsSafe(s, steps[..n]);
      StepKeepsInv(Run(s, steps[..n]).value, steps[n]);
    }
  }

  /** In terms of reads: after any run every entry above the truncated index can be read back from the engine. */
  lemma NoLiveEntryLost(s: State, steps: seq<Step>, r: uint64, i: uint64)
    requires Inv(s) && Run(s, steps).Some? && r in Run(s, steps).value.regions
    requires Run(s, steps).value.regions[r].log.Has(i)
    ensures var e := Run(s, steps).value; HoldsEntry(e.kv, r, i, e.regions[r].log.At(i))
  {
    CollectionIsSafe(s, steps);
    var e := Run(s, steps).value;
    assert Sound(e.kv, r, e.regions[r]);
  }

  // ----- The apply state record -----

  /** What a restart would read back is what memory holds. */
  ghost predicate StoredIn(kv: Store, r: uint64, m: Mem) {
    Recovery.StoredProgress(kv, r) == m.progress
  }

  ghost predicate Stored(s: State) {
    forall r | r in s.regions :: StoredIn(s.kv, r, s.regions[r].mem)
  }

  lemma PersistStores(kv: Store, r: uint64, p: Progress, q: uint64)
    ensures Recovery.StoredProgress(Persisted(kv, r, p), q) == if q == r then p else Recovery.StoredProgress(kv, q)
  {
    Recovery.ProgressRoundTrip(p);
  }

  lemma SaveKeepsRecord(kv: Store, r: uint64, rd: Ready, q: uint64)
    ensures SameAt(kv, AfterPuts(kv, PutsOf(r, rd)), ApplyKey(q))
  {
    PutKeys(r, rd);
    UnwrittenIsKept(kv, PutsOf(r, rd), ApplyKey(q));
  }

  lemma CollectKeepsRecord(kv: Store, t: GcTask, q: uint64)
    ensures SameAt(kv, Collected(kv, t), ApplyKey(q))
  {
    if !(t.start >= t.end || t.start < 0 || t.end > MAX_UINT64) {
      LogIntervalIsExact(t.region, t.start, t.end, ApplyKey(q));
    }
  }

  lemma StepKeepsStored(s: State, step: Step)
    requires Stored(s) && Legal(s, step)
    ensures Stored(Next(s, step))
  {
    var s' := Next(s, step);
    forall q | q in s'.regions ensures StoredIn(s'.kv, q, s'.regions[q].mem) {
      assert StoredIn(s.kv, q, s.regions[q].mem);
      match step
      case Save(r, rd) => SaveKeepsRecord(s.kv, r, rd, q);
      case Compact(r, _, _, _) => PersistStores(s.kv, r, s'.regions[r].mem.progress, q);
      case Apply(r, _) => PersistStores(s.kv, r, s'.regions[r].mem.progress, q);
      case Collect(t) => CollectKeepsRecord(s.kv, t, q);
      case Cut(_, _) =>
    }
  }

  /** The persisted apply state follows memory through every run. */
  lemma {:induction false} RunKeepsStored(s: State, steps: seq<Step>)
    requires Stored(s) && Run(s, steps).Some?
    ensures Stored(Run(s, steps).value)
  {
    if steps != [] {
      var n := |steps| - 1;
      RunKeepsStored(s, steps[..n]);
      StepKeepsStored(Run(s, steps[..n]).value, steps[n]);
    }
  }

  // ----- The hard state record -----

  /** The hard state that was saved last for region `r`, where Readies without one carry the empty one. */
  function LastHardState(steps: seq<Step>, r: uint64, before: HardState): HardState {
    if steps == [] then before
    else
      var step := steps[|steps| - 1];
      if step.Save? && step.region == r && step.rd.hardState != HardState(0, 0, 0) then step.rd.hardState
      else LastHardState(steps[..|steps| - 1], r, before)
  }

  /** Memory holds `hs`, and a restart would read it back. */
  ghost predicate HardStateIs(s: State, r: uint64, hs: HardState) {
    r in s.regions && s.regions[r].mem.hardState == hs && Recovery.StoredHardState(s.kv, r) == hs
  }

  lemma CollectKeepsState(kv: Store, t: GcTask, q: uint64)
    ensures SameAt(kv, Collected(kv, t), StateKey(q))
  {
    if !(t.start >= t.end || t.start < 0 || t.end > MAX_UINT64) {
      LogIntervalIsExact(t.region, t.start, t.end, StateKey(q));
    }
  }

  lemma StepKeepsHardState(s: State, step: Step, r: uint64, hs: HardState)
    requires Legal(s, step) && HardStateIs(s, r, hs)
    ensures HardStateIs(Next(s, step), r, LastHardState([step], r, hs))
  {
    match step
    case Save(q, rd) => ReadyWritesHardState(s.kv, q, rd, r);
    case Collect(t) => CollectKeepsState(s.kv, t, r);
    case _ =>
  }

  /** Along every run, memory and engine hold term, vote and commit index of the last hard state that was saved. */
  lemma {:induction false} RunKeepsHardState(s: State, steps: seq<Step>, r: uint64, hs: HardState)
    requires Run(s, steps).Some? && HardStateIs(s, r, hs)
    ensures HardStateIs(Run(s, steps).value, r, LastHardState(steps, r, hs))
  {
    if steps != [] {
      var n := |steps| - 1;
      RunKeepsHardState(s, steps[..n], r, hs);
      StepKeepsHardState(Run(s, steps[..n]).value, steps[n], r, LastHardState(steps[..n], r, hs));
      assert [steps[n]][..0] == [];
    }
  }

  // ----- What a compaction achieves -----

  /** A request compacts exactly when it lies above the truncation point, at or below the applied index, and carries a
      term; then the truncation point is the requested one and nothing else changes. */
  lemma CompactsExactly(p: Progress, req: CompactLogRequest)
    ensures ExecCompactLog(p, req).Compacted? <==> p.truncIndex < req.compactIndex <= p.applied && req.compactTerm > 0
    ensures ExecCompactLog(p, req).NoOp? <==> req.compactIndex <= p.truncIndex
    ensures ExecCompactLog(p, req).Compacted? ==>
              && ExecCompactLog(p, req).state == Progress(p.applied, req.compactIndex, req.compactTerm)
              && ExecCompactLog(p, req).firstIndex == p.truncIndex + 1
  {
  }

  /** A compaction frees its entries: it schedules a task whose execution removes the entries from the old truncation
      point to the new one, and no entry above it. */
  lemma CompactionFrees(s: State, r: uint64, req: CompactLogRequest, fromZero: bool) returns (t: GcTask)
    requires Inv(s) && Legal(s, Compact(r, req, fromZero, false)) && req.compactIndex < MAX_UINT64
    requires s.regions[r].mem.progress.truncIndex < req.compactIndex <= s.regions[r].mem.progress.applied
    requires req.compactTerm > 0
    ensures var s1 := Next(s, Compact(r, req, fromZero, false));
            && Legal(s1, Collect(t)) && t.region == r && s1.regions[r].log.truncIndex == req.compactIndex
            && forall i: uint64 :: LogKey(r, i) in Next(s1, Collect(t)).kv
                 <==> LogKey(r, i) in s.kv && (i > req.compactIndex || (i <= s.regions[r].log.truncIndex && !fromZero))
  {
    var g := s.regions[r];
    assert Sound(s.kv, r, g);
    CompactsExactly(g.mem.progress, req);
    var s1 := Next(s, Compact(r, req, fromZero, false));
    t := NewTask(r, g.mem.progress.truncIndex + 1, req.compactIndex, fromZero);
    forall i: uint64 ensures LogKey(r, i) in Next(s1, Collect(t)).kv
                 <==> LogKey(r, i) in s.kv && (i > req.compactIndex || (i <= g.log.truncIndex && !fromZero)) {
      if LogKey(r, i) in s1.kv {
        CollectIsExact(s1.kv, t, LogKey(r, i));
      }
    }
  }
}
