/** Batched log persistence (internal/raftstore/raft_log_writer.go) refines inline SaveReady. */
module LogWriter {
  import opened Bytes
  import opened KvEngine
  import opened RaftKeys
  import opened RaftLog
  import PeerStorage

  /** A WriteTask: its operations are the region's write batch of the Ready it was built from. */
  datatype Task = Task(region: uint64, rd: Ready) {
    function Ops(): seq<Put<LocalKey, Value>> { PutsOf(region, rd) }
  }

  function AllOps(tasks: seq<Task>): seq<Put<LocalKey, Value>> {
    if tasks == [] then [] else AllOps(tasks[..|tasks| - 1]) + tasks[|tasks| - 1].Ops()
  }

  /** processBatch: all tasks go into one write batch. A failing put fails the whole batch before anything is
      written; every task of the batch receives one verdict, and it is the same for all of them. */
  method ProcessBatch(engine: PeerStorage.Engine, tasks: seq<Task>, failAt: nat, commitSucceeds: bool)
    returns (verdicts: seq<bool>)
    modifies engine
    ensures |verdicts| == |tasks|
    ensures forall i | 0 <= i < |tasks| :: verdicts[i] == (failAt >= |AllOps(tasks)| && commitSucceeds)
    ensures engine.kv == if failAt >= |AllOps(tasks)| && commitSucceeds
        then AfterPuts(old(engine.kv), AllOps(tasks)) else old(engine.kv)
  {
    var wb: seq<Put<LocalKey, Value>> := [];
    for t := 0 to |tasks|
      invariant unchanged(engine) && wb == AllOps(tasks[..t]) && |wb| <= failAt
    {
      assert tasks[..t + 1][..t] == tasks[..t];
      OpsGrow(tasks, t + 1);
      var added;
      added, wb := AddOps(wb, tasks[t].Ops(), failAt);
      if !added {
        return seq(|tasks|, i => false);
      }
    }
    assert tasks[..|tasks|] == tasks;
    if commitSucceeds {
      engine.Write(wb);
    }
    return seq(|tasks|, i => commitSucceeds);
  }

  /** Adds a task's operations to the batch; the one at position `failAt` fails. */
  method AddOps(before: seq<Put<LocalKey, Value>>, ops: seq<Put<LocalKey, Value>>, failAt: nat)
    returns (ok: bool, wb: seq<Put<LocalKey, Value>>)
    requires |before| <= failAt
    ensures ok <==> |before| + |ops| <= failAt
    ensures ok ==> wb == before + ops
  {
    wb := before;
    for o := 0 to |ops|
      invariant wb == before + ops[..o] && |wb| <= failAt
    {
      if |wb| == failAt {
        return false, wb;
      }
      wb := wb + [ops[o]];
    }
    return true, wb;
  }

  lemma {:induction false} OpsGrow(tasks: seq<Task>, n: nat)
    requires n <= |tasks|
    ensures |AllOps(tasks[..n])| <= |AllOps(tasks)|
  {
    if n == |tasks| {
      assert tasks[..n] == tasks;
    } else {
      OpsGrow(tasks[..|tasks| - 1], n);
      assert tasks[..|tasks| - 1][..n] == tasks[..n];
    }
  }

  // ----- The inline form -----

  datatype Inline = Inline(kv: Store, mems: map<uint64, Mem>)

  /** SaveReady of one region. */
  function SaveInline(s: Inline, t: Task): Inline
    requires t.region in s.mems
  {
    Inline(AfterPuts(s.kv, t.Ops()), s.mems[t.region := s.mems[t.region].AfterReady(t.rd)])
  }

  function SaveAllInline(s: Inline, order: seq<Task>): Inline {
    if order == [] then s
    else
      var before, t := SaveAllInline(s, order[..|order| - 1]), order[|order| - 1];
      if t.region in before.mems then SaveInline(before, t) else before
  }

  lemma {:induction false} InlineConcat(s: Inline, a: seq<Task>, b: seq<Task>)
    ensures SaveAllInline(s, a + b) == SaveAllInline(SaveAllInline(s, a), b)
  {
    if b == [] {
      assert a + b == a;
    } else {
      assert (a + b)[..|a + b| - 1] == a + b[..|b| - 1];
      InlineConcat(s, a, b[..|b| - 1]);
    }
  }

  /** One write batch leaves the engine as the inline saves in the same order do. */
  lemma {:induction false} BatchEngineIsInline(s: Inline, tasks: seq<Task>)
    requires forall i | 0 <= i < |tasks| :: tasks[i].region in s.mems
    ensures SaveAllInline(s, tasks).kv == AfterPuts(s.kv, AllOps(tasks))
  {
    if tasks != [] {
      var n := |tasks| - 1;
      var before, t := SaveAllInline(s, tasks[..n]), tasks[n];
      BatchEngineIsInline(s, tasks[..n]);
      RegionsAreKept(s, tasks[..n]);
      LastSave(before, t, SaveInline(before, t), s.kv, AllOps(tasks[..n]), AllOps(tasks));
    }
  }

  lemma LastSave(before: Inline, t: Task, after: Inline, kv: Store, ops: seq<Put<LocalKey, Value>>,
      all: seq<Put<LocalKey, Value>>)
    requires t.region in before.mems && before.kv == AfterPuts(kv, ops) && after == SaveInline(before, t)
        && all == ops + t.Ops()
    ensures after.kv == AfterPuts(kv, all)
  {
    AfterPutsConcat(kv, ops, t.Ops());
  }

  lemma {:induction false} RegionsAreKept(s: Inline, tasks: seq<Task>)
    requires forall i | 0 <= i < |tasks| :: tasks[i].region in s.mems
    ensures SaveAllInline(s, tasks).mems.Keys == s.mems.Keys
  {
    if tasks != [] {
      RegionsAreKept(s, tasks[..|tasks| - 1]);
    }
  }

  /** Each region's memory differs from the inline one only by the update that its peer still has to make. */
  lemma {:induction false} BatchMemoryIsInline(s: Inline, tasks: seq<Task>, r: uint64)
    requires r in s.mems && (forall i | 0 <= i < |tasks| :: tasks[i].region in s.mems) && DistinctRegions(tasks)
    ensures r in SaveAllInline(s, tasks).mems && SaveAllInline(s, tasks).mems[r] == MemAfterBatch(s.mems[r], tasks, r)
  {
    if tasks != [] {
      var n := |tasks| - 1;
      RegionsAreKept(s, tasks[..n]);
      BatchMemoryIsInline(s, tasks[..n], r);
      NotInPrefix(s.mems[r], tasks, r);
    }
  }

  ghost predicate DistinctRegions(tasks: seq<Task>) {
    forall i, j | 0 <= i < j < |tasks| :: tasks[i].region != tasks[j].region
  }

  /** The memory of region `r` after the tasks of a batch with at most one task per region. */
  ghost function MemAfterBatch(m: Mem, tasks: seq<Task>, r: uint64): Mem {
    if exists i :: 0 <= i < |tasks| && tasks[i].region == r then
      var i :| 0 <= i < |tasks| && tasks[i].region == r;
      m.AfterReady(tasks[i].rd)
    else m
  }

  lemma NotInPrefix(m: Mem, tasks: seq<Task>, r: uint64)
    requires tasks != [] && DistinctRegions(tasks)
    ensures var n := |tasks| - 1;
            && MemAfterBatch(m, tasks, r)
               == (if tasks[n].region == r then m.AfterReady(tasks[n].rd) else MemAfterBatch(m, tasks[..n], r))
            && (tasks[n].region == r ==> MemAfterBatch(m, tasks[..n], r) == m)
  {
    var n := |tasks| - 1;
    if tasks[n].region == r {
      MemAfterOne(m, tasks, r, n);
      MemAfterNone(m, tasks[..n], r);
    } else if exists i :: 0 <= i < n && tasks[i].region == r {
      var i :| 0 <= i < n && tasks[i].region == r;
      MemAfterOne(m, tasks, r, i);
      MemAfterOne(m, tasks[..n], r, i);
    } else {
      MemAfterNone(m, tasks, r);
      MemAfterNone(m, tasks[..n], r);
    }
  }

  lemma MemAfterOne(m: Mem, tasks: seq<Task>, r: uint64, i: nat)
    requires DistinctRegions(tasks) && i < |tasks| && tasks[i].region == r
    ensures MemAfterBatch(m, tasks, r) == m.AfterReady(tasks[i].rd)
  {
  }

  lemma MemAfterNone(m: Mem, tasks: seq<Task>, r: uint64)
    requires forall i | 0 <= i < |tasks| :: tasks[i].region != r
    ensures MemAfterBatch(m, tasks, r) == m
  {
  }

  // ----- The asynchronous form -----

  /** A peer: its memory, the Ready it has submitted, and the writer's verdict on it. */
  datatype Peer = Peer(mem: Mem, pending: Option<Ready>, verdict: Option<bool>)

  datatype State = State(kv: Store, peers: map<uint64, Peer>, queue: seq<Task>)

  datatype Step =
    | Submit(region: uint64, rd: Ready)     // BuildWriteTask and Submit
    | Process(n: nat, ok: bool)             // processBatch over the first n queued tasks
    | Finish(region: uint64)                // the peer reads Done; on success ApplyWriteTaskPostPersist

  ghost predicate Enabled(s: State, step: Step) {
    match step
    case Submit(r, _) => r in s.peers && s.peers[r].pending.None?
    case Process(n, _) => 0 < n <= |s.queue|
    case Finish(r) => r in s.peers && s.peers[r].pending.Some? && s.peers[r].verdict.Some?
  }

  ghost function WithVerdicts(peers: map<uint64, Peer>, tasks: seq<Task>, ok: bool): map<uint64, Peer> {
    map r | r in peers :: if InBatch(tasks, r) then peers[r].(verdict := Some(ok)) else peers[r]
  }

  ghost predicate InBatch(tasks: seq<Task>, r: uint64) {
    exists i :: 0 <= i < |tasks| && tasks[i].region == r
  }

  ghost function Next(s: State, step: Step): State
    requires Enabled(s, step)
  {
    match step
    case Submit(r, rd) => s.(peers := s.peers[r := s.peers[r].(pending := Some(rd), verdict := None)],
        queue := s.queue + [Task(r, rd)])
    case Process(n, ok) =>
      State(if ok then AfterPuts(s.kv, AllOps(s.queue[..n])) else s.kv, WithVerdicts(s.peers, s.queue[..n], ok),
          s.queue[n..])
    case Finish(r) =>
      var p := s.peers[r];
      s.(peers := s.peers[r := Peer(if p.verdict.value then p.mem.AfterReady(p.pending.value) else p.mem, None, None)])
  }

  /** The queue holds exactly the submitted tasks without a verdict, one per region. */
  ghost predicate QueueMatches(s: State) {
    && DistinctRegions(s.queue)
    && (forall i | 0 <= i < |s.queue| :: Awaits(s, s.queue[i]))
    && (forall r | r in s.peers && s.peers[r].pending.Some? && s.peers[r].verdict.None? :: InBatch(s.queue, r))
    && (forall r | r in s.peers && s.peers[r].pending.None? :: s.peers[r].verdict.None?)
  }

  ghost predicate Awaits(s: State, t: Task) {
    t.region in s.peers && s.peers[t.region].pending == Some(t.rd) && s.peers[t.region].verdict.None?
  }

  /** The memory the peer will have once it has acted on its verdict. */
  ghost function Settled(p: Peer): Mem {
    if p.pending.Some? && p.verdict == Some(true) then p.mem.AfterReady(p.pending.value) else p.mem
  }

  /** The asynchronous state stands for the inline state reached by saving `order` one by one. */
  ghost predicate Refines(s: State, inl: Inline) {
    && s.kv == inl.kv && s.peers.Keys == inl.mems.Keys
    && forall r | r in s.peers :: Settled(s.peers[r]) == inl.mems[r]
  }

  /** The tasks that a step persists, in order. */
  ghost function Persisted(s: State, step: Step): seq<Task>
    requires Enabled(s, step)
  {
    if step.Process? && step.ok then s.queue[..step.n] else []
  }

  lemma StepKeepsQueue(s: State, step: Step)
    requires Enabled(s, step) && QueueMatches(s)
    ensures QueueMatches(Next(s, step))
  {
    var s' := Next(s, step);
    match step
    case Submit(r, rd) =>
      forall q | q in s'.peers && s'.peers[q].pending.Some? && s'.peers[q].verdict.None? ensures InBatch(s'.queue, q) {
        if q == r {
          assert s'.queue[|s.queue|].region == r;
        } else {
          var i :| 0 <= i < |s.queue| && s.queue[i].region == q;
          assert s'.queue[i].region == q;
        }
      }
      forall i | 0 <= i < |s'.queue| ensures Awaits(s', s'.queue[i]) {
        if i < |s.queue| {
          assert Awaits(s, s.queue[i]);
        }
      }
      forall i, j | 0 <= i < j < |s'.queue| ensures s'.queue[i].region != s'.queue[j].region {
        assert Awaits(s, s.queue[i]);
      }
    case Process(n, ok) => ProcessKeepsQueue(s, n, ok);
    case Finish(r) =>
      forall i | 0 <= i < |s'.queue| ensures Awaits(s', s'.queue[i]) {
        assert Awaits(s, s.queue[i]);
      }
  }

  lemma SplitBatch(queue: seq<Task>, n: nat, r: uint64)
    requires n <= |queue|
    ensures InBatch(queue, r) <==> InBatch(queue[..n], r) || InBatch(queue[n..], r)
  {
    forall i | 0 <= i < |queue| && queue[i].region == r ensures InBatch(queue[..n], r) || InBatch(queue[n..], r) {
      assert if i < n then queue[..n][i] == queue[i] else queue[n..][i - n] == queue[i];
    }
    forall i | 0 <= i < n && queue[..n][i].region == r ensures InBatch(queue, r) {
      assert queue[i].region == r;
    }
    forall i | 0 <= i < |queue| - n && queue[n..][i].region == r ensures InBatch(queue, r) {
      assert queue[n + i].region == r;
    }
  }

  lemma LaterNotInBatch(queue: seq<Task>, n: nat, i: nat)
    requires DistinctRegions(queue) && n + i < |queue|
    ensures !InBatch(queue[..n], queue[n + i].region)
  {
    forall j | 0 <= j < n ensures queue[..n][j].region != queue[n + i].region {
      assert queue[..n][j] == queue[j];
    }
  }

  lemma ProcessKeepsQueue(s: State, n: nat, ok: bool)
    requires Enabled(s, Process(n, ok)) && QueueMatches(s)
    ensures QueueMatches(Next(s, Process(n, ok)))
  {
    var s' := Next(s, Process(n, ok));
    forall i | 0 <= i < |s'.queue| ensures Awaits(s', s'.queue[i]) {
      assert s'.queue[i] == s.queue[n + i] && Awaits(s, s.queue[n + i]);
      LaterNotInBatch(s.queue, n, i);
    }
    forall r | r in s'.peers && s'.peers[r].pending.Some? && s'.peers[r].verdict.None? ensures InBatch(s'.queue, r) {
      SplitBatch(s.queue, n, r);
    }
    forall r | r in s'.peers && s'.peers[r].pending.None? ensures s'.peers[r].verdict.None? {
      if InBatch(s.queue[..n], r) {
        var i :| 0 <= i < n && s.queue[..n][i].region == r;
        assert Awaits(s, s.queue[i]);
      }
    }
  }

  /** Each step refines the inline saves of the tasks it persists, in queue order. */
  lemma StepRefines(s: State, step: Step, inl: Inline)
    requires Enabled(s, step) && QueueMatches(s) && Refines(s, inl)
    ensures Refines(Next(s, step), SaveAllInline(inl, Persisted(s, step)))
  {
    var s' := Next(s, step);
    if step.Process? {
      ProcessRefines(s, step.n, step.ok, inl);
    } else {
      forall r | r in s'.peers ensures Settled(s'.peers[r]) == inl.mems[r] {
        assert Settled(s.peers[r]) == inl.mems[r];
      }
    }
  }

  lemma ProcessRefines(s: State, n: nat, ok: bool, inl: Inline)
    requires Enabled(s, Process(n, ok)) && QueueMatches(s) && Refines(s, inl)
    ensures Refines(Next(s, Process(n, ok)), SaveAllInline(inl, Persisted(s, Process(n, ok))))
  {
    var s', batch := Next(s, Process(n, ok)), s.queue[..n];
    forall i | 0 <= i < n ensures batch[i].region in inl.mems {
      assert Awaits(s, s.queue[i]);
    }
    assert DistinctRegions(batch);
    BatchEngineIsInline(inl, batch);
    RegionsAreKept(inl, batch);
    var target := SaveAllInline(inl, Persisted(s, Process(n, ok)));
    forall r | r in s.peers ensures Settled(WithVerdicts(s.peers, batch, ok)[r]) == target.mems[r] {
      if ok {
        BatchMemoryIsInline(inl, batch, r);
      }
      SettledAfterVerdict(s, n, ok, r);
    }
  }

  /** A verdict settles the memories of the regions in the batch, and of no other. */
  lemma SettledAfterVerdict(s: State, n: nat, ok: bool, r: uint64)
    requires QueueMatches(s) && n <= |s.queue| && r in s.peers
    ensures var batch := s.queue[..n];
            Settled(WithVerdicts(s.peers, batch, ok)[r])
            == if ok then MemAfterBatch(Settled(s.peers[r]), batch, r) else Settled(s.peers[r])
  {
    var batch := s.queue[..n];
    forall i | 0 <= i < n && batch[i].region == r ensures Awaits(s, batch[i]) {
      assert batch[i] == s.queue[i];
    }
  }

  datatype Outcome = Outcome(state: State, order: seq<Task>)

  /** The state after a run, with the tasks it has persisted in order. */
  ghost function Run(s: State, steps: seq<Step>): Option<Outcome> {
    if steps == [] then Some(Outcome(s, []))
    else
      match Run(s, steps[..|steps| - 1])
      case None => None
      case Some(m) =>
        var step := steps[|steps| - 1];
        if Enabled(m.state, step) then Some(Outcome(Next(m.state, step), m.order + Persisted(m.state, step))) else None
  }

  /** However tasks of different regions are interleaved and batched, and whichever batches fail, the engine and the
      settled memories are those of inline SaveReady calls for the persisted tasks, in the order in which they
      were persisted. */
  lemma {:induction false} WriterRefinesInline(s: State, steps: seq<Step>, inl: Inline)
    requires QueueMatches(s) && Refines(s, inl) && Run(s, steps).Some?
    ensures var e := Run(s, steps).value; QueueMatches(e.state) && Refines(e.state, SaveAllInline(inl, e.order))
  {
    if steps == [] {
      assert SaveAllInline(inl, []) == inl;
    } else {
      var n := |steps| - 1;
      WriterRefinesInline(s, steps[..n], inl);
      var m := Run(s, steps[..n]).value;
      StepKeepsQueue(m.state, steps[n]);
      StepRefines(m.state, steps[n], SaveAllInline(inl, m.order));
      InlineConcat(inl, m.order, Persisted(m.state, steps[n]));
    }
  }

  /** Once no peer waits, the memories are exactly the inline ones. */
  lemma QuiescentIsInline(s: State, steps: seq<Step>, inl: Inline)
    requires QueueMatches(s) && Refines(s, inl) && Run(s, steps).Some?
    requires forall r | r in Run(s, steps).value.state.peers :: Run(s, steps).value.state.peers[r].pending.None?
    ensures var e := Run(s, steps).value;
            var i := SaveAllInline(inl, e.order);
            && e.state.kv == i.kv && e.state.queue == [] && e.state.peers.Keys == i.mems.Keys
            && forall r | r in e.state.peers :: e.state.peers[r].mem == i.mems[r]
  {
    WriterRefinesInline(s, steps, inl);
    var e := Run(s, steps).value;
    assert e.state.queue == [] || Awaits(e.state, e.state.queue[0]);
    forall r | r in e.state.peers ensures e.state.peers[r].mem == SaveAllInline(inl, e.order).mems[r] {
      assert Settled(e.state.peers[r]) == SaveAllInline(inl, e.order).mems[r];
    }
  }

  // ----- Nobody waits for ever -----

  ghost function Waiting(s: State): set<uint64> {
    set r | r in s.peers && s.peers[r].pending.Some?
  }

  lemma Extend(s: State, steps: seq<Step>, m: Outcome, step: Step)
    requires Run(s, steps) == Some(m) && Enabled(m.state, step)
    ensures Run(s, steps + [step]) == Some(Outcome(Next(m.state, step), m.order + Persisted(m.state, step)))
  {
    assert (steps + [step])[..|steps|] == steps;
  }

  /** Once the queue is empty a waiting peer has its verdict, and one fewer peer waits when it acts on it. */
  lemma PeerCanFinish(s: State, r: uint64)
    requires QueueMatches(s) && s.queue == [] && r in Waiting(s)
    ensures Enabled(s, Finish(r)) && Persisted(s, Finish(r)) == []
    ensures Next(s, Finish(r)).queue == [] && Waiting(Next(s, Finish(r))) == Waiting(s) - {r}
  {
    assert !InBatch(s.queue, r);
  }

  lemma {:induction false} PeersCanFinish(s: State, steps: seq<Step>, m: Outcome)
    returns (longer: seq<Step>, e: Outcome)
    requires Run(s, steps) == Some(m) && QueueMatches(m.state) && m.state.queue == []
    ensures steps <= longer && Run(s, longer) == Some(e) && Waiting(e.state) == {} && e.order == m.order
    decreases |Waiting(m.state)|
  {
    longer, e := steps, m;
    if Waiting(m.state) != {} {
      var r :| r in Waiting(m.state);
      PeerCanFinish(m.state, r);
      Extend(s, steps, m, Finish(r));
      StepKeepsQueue(m.state, Finish(r));
      longer, e := PeersCanFinish(s, steps + [Finish(r)], Outcome(Next(m.state, Finish(r)), m.order + []));
    }
  }

  /** From every state of every run the writer can persist what is queued and every peer can go on; nothing else is
      persisted on the way. */
  lemma WriterCanSettle(s: State, steps: seq<Step>, m: Outcome) returns (longer: seq<Step>, e: Outcome)
    requires Run(s, steps) == Some(m) && QueueMatches(m.state)
    ensures steps <= longer && Run(s, longer) == Some(e) && Waiting(e.state) == {} && e.order == m.order + m.state.queue
  {
    longer, e := steps, m;
    var n := |m.state.queue|;
    if n > 0 {
      Extend(s, steps, m, Process(n, true));
      StepKeepsQueue(m.state, Process(n, true));
      longer := steps + [Process(n, true)];
      e := Outcome(Next(m.state, Process(n, true)), m.order + Persisted(m.state, Process(n, true)));
      assert m.state.queue[..n] == m.state.queue;
    }
    longer, e := PeersCanFinish(s, longer, e);
  }
}
