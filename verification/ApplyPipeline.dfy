/** Applying committed entries (internal/raftstore/peer.go, apply_worker.go): the asynchronous pipeline with a worker
    pool refines inline application. */
module ApplyPipeline {
  import opened Bytes

  /** A committed entry; `normal` is false for configuration changes. */
  datatype Entry = Entry(index: uint64, normal: bool, data: Bytes)

  const TAG_COMPACT_LOG: byte := 0x01
  const TAG_SPLIT_ADMIN: byte := 0x02

  predicate IsSplitAdmin(d: Bytes) { |d| > 0 && d[0] == TAG_SPLIT_ADMIN }
  predicate IsCompactLog(d: Bytes) { |d| >= 1 && d[0] == TAG_COMPACT_LOG }

  predicate IsData(e: Entry) {
    e.normal && !IsSplitAdmin(e.data) && !IsCompactLog(e.data) && |e.data| > 8
  }

  /** The data entries of a batch, in order. */
  function DataOf(es: seq<Entry>): (r: seq<Entry>)
    ensures |r| <= |es|
  {
    if es == [] then [] else DataOf(es[..|es| - 1]) + if IsData(es[|es| - 1]) then [es[|es| - 1]] else []
  }

  lemma {:induction false} DataOfConcat(a: seq<Entry>, b: seq<Entry>)
    ensures DataOf(a + b) == DataOf(a) + DataOf(b)
  {
    if b == [] {
      assert a + b == a;
    } else {
      assert (a + b)[..|a + b| - 1] == a + b[..|b| - 1];
      DataOfConcat(a, b[..|b| - 1]);
    }
  }

  lemma {:induction false} DataOfIs(es: seq<Entry>, e: Entry)
    ensures e in DataOf(es) <==> e in es && IsData(e)
  {
    if es != [] {
      var n := |es| - 1;
      assert es == es[..n] + [es[n]];
      DataOfIs(es[..n], e);
    }
  }

  /** The filter loop shared by applyInline and submitToApplyWorker. */
  method FilterData(es: seq<Entry>) returns (data: seq<Entry>)
    ensures data == DataOf(es)
  {
    data := [];
    for i := 0 to |es|
      invariant data == DataOf(es[..i])
    {
      assert es[..i + 1][..i] == es[..i];
      if IsData(es[i]) {
        data := data + [es[i]];
      }
    }
    assert es[..|es|] == es;
  }

  datatype Task = Task(entries: seq<Entry>, lastCommittedIndex: uint64)

  function EntriesOf(tasks: seq<Task>): seq<Entry> {
    if tasks == [] then [] else tasks[0].entries + EntriesOf(tasks[1..])
  }

  /** One region: the peer's fields, the worker pool's share of its tasks, the results on their way back, and what
      ApplyFunc has been given since the start. Raft delivers the committed entries above `base`; the applied index
      starts as `restored`. A bootstrapped region has zero for both; on a restart they are the truncated index and the
      persisted applied index. */
  datatype State = State(
    base: uint64,
    restored: uint64,
    committed: seq<Entry>,        // everything committed and delivered so far, in log order
    appliedIndex: uint64,
    applyInFlight: bool,
    pendingTasks: seq<Task>,
    pool: seq<Task>,
    results: seq<uint64>,
    handed: seq<Entry>)           // entries handed to ApplyFunc, in order

  function Start(base: uint64, restored: uint64): State {
    State(base, restored, [], restored, false, [], [], [], [])
  }

  datatype Step =
    | Ready(es: seq<Entry>)       // a Ready with committed entries
    | Work                        // a worker processes the region's task and sends the result
    | Result                      // the peer handles an ApplyResult

  /** Committed batches are not empty and continue the committed sequence. */
  predicate Continues(s: State, es: seq<Entry>) {
    && es != [] && (forall i | 0 <= i < |es| :: es[i].index == LastCommitted(s) + 1 + i)
  }

  function LastCommitted(s: State): nat {
    if s.committed == [] then s.base else s.committed[|s.committed| - 1].index
  }

  predicate Enabled(s: State, step: Step) {
    match step
    case Ready(es) => Continues(s, es)
    case Work => s.pool != []
    case Result => s.results != []
  }

  /** submitToApplyWorker with a running pool. */
  function Submitted(s: State, es: seq<Entry>): State
    requires es != []
  {
    WithData(s.(committed := s.committed + es), es[|es| - 1].index, DataOf(es))
  }

  /** What becomes of the data of a batch that ends at `last`. */
  function WithData(s: State, last: uint64, data: seq<Entry>): State {
    if data == [] then s.(appliedIndex := last)
    else if s.applyInFlight then s.(pendingTasks := s.pendingTasks + [Task(data, last)])
    else s.(applyInFlight := true, pool := s.pool + [Task(data, last)])
  }

  function Next(s: State, step: Step): State
    requires Enabled(s, step)
  {
    match step
    case Ready(es) => Submitted(s, es)
    case Work =>
      s.(pool := s.pool[1..], handed := s.handed + s.pool[0].entries,
         results := s.results + [s.pool[0].lastCommittedIndex])
    case Result =>
      var idx := s.results[0];
      var s1 := s.(results := s.results[1..],
                   appliedIndex := if idx > 0 && idx > s.appliedIndex then idx else s.appliedIndex);
      if s.pendingTasks == [] then s1.(applyInFlight := false)
      else s1.(applyInFlight := true, pool := s.pool + [s.pendingTasks[0]], pendingTasks := s.pendingTasks[1..])
  }

  /** What has been handed over, is out, or waits is together the committed data. */
  ghost predicate FlowKept(s: State) {
    s.handed + EntriesOf(s.pool) + EntriesOf(s.pendingTasks) == DataOf(s.committed)
  }

  /** At most one task of the region is out, and queued tasks wait for it. */
  ghost predicate OneInFlight(s: State) {
    && |s.pool| + |s.results| == (if s.applyInFlight then 1 else 0)
    && (!s.applyInFlight ==> s.pendingTasks == [])
  }

  function Max(a: nat, b: nat): nat {
    if a < b then b else a
  }

  /** No index beyond the committed one is recorded or on its way, except the restored one. Once the log has reached
      that one, the last committed index is recorded or on its way. */
  ghost predicate IndicesKept(s: State) {
    var last := LastCommitted(s);
    && s.appliedIndex <= Max(last, s.restored)
    && (forall i | 0 <= i < |s.pool| :: s.pool[i].lastCommittedIndex <= last)
    && (forall i | 0 <= i < |s.pendingTasks| :: s.pendingTasks[i].lastCommittedIndex <= last)
    && (forall i | 0 <= i < |s.results| :: s.results[i] <= last)
    && (s.committed == [] ==> s.appliedIndex == s.restored && !s.applyInFlight)
    && (s.committed != [] && s.restored <= last ==> Reported(s))
  }

  ghost predicate Reported(s: State) {
    s.appliedIndex == LastCommitted(s) || (s.applyInFlight && LastReport(s) == LastCommitted(s))
  }

  /** The last index that a task on its way will report. */
  ghost function LastReport(s: State): int {
    if s.pendingTasks != [] then s.pendingTasks[|s.pendingTasks| - 1].lastCommittedIndex
    else if s.pool != [] then s.pool[|s.pool| - 1].lastCommittedIndex
    else if s.results != [] then s.results[|s.results| - 1]
    else -1
  }

  ghost predicate TasksHaveData(s: State) {
    && (forall i | 0 <= i < |s.pool| :: s.pool[i].entries != [])
    && (forall i | 0 <= i < |s.pendingTasks| :: s.pendingTasks[i].entries != [])
  }

  ghost predicate Inv(s: State) {
    FlowKept(s) && OneInFlight(s) && IndicesKept(s) && TasksHaveData(s)
  }

  lemma {:induction false} EntriesOfAppend(tasks: seq<Task>, t: Task)
    ensures EntriesOf(tasks + [t]) == EntriesOf(tasks) + t.entries
  {
    if tasks == [] {
      assert tasks + [t] == [t];
      assert EntriesOf([t]) == t.entries + EntriesOf([]);
    } else {
      assert (tasks + [t])[1..] == tasks[1..] + [t];
      EntriesOfAppend(tasks[1..], t);
    }
  }

  lemma ReadyKeepsFlow(s: State, es: seq<Entry>)
    requires FlowKept(s) && OneInFlight(s) && es != []
    ensures FlowKept(Submitted(s, es))
  {
    var data, t := DataOf(es), Task(DataOf(es), es[|es| - 1].index);
    DataOfConcat(s.committed, es);
    assert DataOf(s.committed + es) == s.handed + EntriesOf(s.pool) + EntriesOf(s.pendingTasks) + data;
    if data != [] {
      if s.applyInFlight {
        EntriesOfAppend(s.pendingTasks, t);
        assert s.handed + EntriesOf(s.pool) + (EntriesOf(s.pendingTasks) + data)
            == s.handed + EntriesOf(s.pool) + EntriesOf(s.pendingTasks) + data;
      } else {
        EntriesOfAppend(s.pool, t);
        assert EntriesOf(s.pendingTasks) == [];
      }
    }
  }

  lemma ReadyKeepsIndices(s: State, es: seq<Entry>)
    requires OneInFlight(s) && IndicesKept(s) && Continues(s, es)
    ensures OneInFlight(Submitted(s, es)) && IndicesKept(Submitted(s, es))
    ensures s.restored <= LastCommitted(s) ==> s.appliedIndex <= Submitted(s, es).appliedIndex
    ensures LastCommitted(Submitted(s, es)) == es[|es| - 1].index
  {
    assert (s.committed + es)[|s.committed + es| - 1] == es[|es| - 1];
    assert es[|es| - 1].index == LastCommitted(s) + |es|;
    DataKeepsIndices(s, s.committed + es, es[|es| - 1].index, DataOf(es));
  }

  lemma DataKeepsIndices(s: State, committed: seq<Entry>, last: uint64, data: seq<Entry>)
    requires OneInFlight(s) && IndicesKept(s)
    requires committed != [] && committed[|committed| - 1].index == last > LastCommitted(s)
    ensures var s' := WithData(s.(committed := committed), last, data);
            && OneInFlight(s') && IndicesKept(s') && LastCommitted(s') == last
            && (s.restored <= LastCommitted(s) ==> s.appliedIndex <= s'.appliedIndex)
  {
  }

  lemma ReadyKeepsInv(s: State, es: seq<Entry>)
    requires Inv(s) && Continues(s, es)
    ensures Inv(Submitted(s, es))
    ensures s.restored <= LastCommitted(s) ==> s.appliedIndex <= Submitted(s, es).appliedIndex
    ensures LastCommitted(Submitted(s, es)) == es[|es| - 1].index
  {
    ReadyKeepsFlow(s, es);
    ReadyKeepsIndices(s, es);
  }

  lemma WorkKeepsInv(s: State)
    requires Inv(s) && s.pool != []
    ensures Inv(Next(s, Work))
  {
    assert s.pool == [s.pool[0]] && s.pool[1..] == [];
    assert EntriesOf(s.pool) == s.pool[0].entries + EntriesOf([]);
  }

  lemma ResultKeepsInv(s: State)
    requires Inv(s) && s.results != []
    ensures Inv(Next(s, Result)) && s.appliedIndex <= Next(s, Result).appliedIndex
  {
    assert s.pool == [];
    if s.pendingTasks != [] {
      EntriesOfAppend(s.pool, s.pendingTasks[0]);
      assert EntriesOf(s.pendingTasks) == s.pendingTasks[0].entries + EntriesOf(s.pendingTasks[1..]);
    }
  }

  lemma StepKeepsInv(s: State, step: Step)
    requires Inv(s) && Enabled(s, step)
    ensures Inv(Next(s, step)) && LastCommitted(s) <= LastCommitted(Next(s, step))
    ensures Next(s, step).base == s.base && Next(s, step).restored == s.restored
    ensures s.restored <= LastCommitted(s) ==> s.appliedIndex <= Next(s, step).appliedIndex
  {
    match step
    case Ready(es) => ReadyKeepsInv(s, es);
    case Work => WorkKeepsInv(s);
    case Result => ResultKeepsInv(s);
  }

  function Run(base: uint64, restored: uint64, steps: seq<Step>): Option<State> {
    if steps == [] then Some(Start(base, restored))
    else
      match Run(base, restored, steps[..|steps| - 1])
      case None => None
      case Some(s) => if Enabled(s, steps[|steps| - 1]) then Some(Next(s, steps[|steps| - 1])) else None
  }

  /** What inline application has handed over and recorded after the same Readies. */
  datatype InlineState = InlineState(handed: seq<Entry>, appliedIndex: uint64)

  function InlineRun(restored: uint64, steps: seq<Step>): InlineState {
    if steps == [] then InlineState([], restored)
    else
      var s, step := InlineRun(restored, steps[..|steps| - 1]), steps[|steps| - 1];
      if step.Ready? && step.es != [] then InlineState(s.handed + DataOf(step.es), step.es[|step.es| - 1].index) else s
  }

  /** How a step changes what inline application is compared with. */
  lemma InlineStep(s: State, step: Step)
    requires Inv(s) && Enabled(s, step)
    ensures var s' := Next(s, step);
            if step.Ready? then DataOf(s'.committed) == DataOf(s.committed) + DataOf(step.es)
                                && LastCommitted(s') == step.es[|step.es| - 1].index
            else s'.committed == s.committed
  {
    if step.Ready? {
      DataOfConcat(s.committed, step.es);
      ReadyKeepsIndices(s, step.es);
    }
  }

  lemma {:induction false} RunKeepsInv(base: uint64, restored: uint64, steps: seq<Step>)
    requires Run(base, restored, steps).Some?
    ensures var s := Run(base, restored, steps).value;
            && Inv(s) && s.base == base && s.restored == restored
            && InlineRun(restored, steps)
               == InlineState(DataOf(s.committed), if s.committed == [] then restored else LastCommitted(s))
  {
    if steps != [] {
      var n := |steps| - 1;
      RunKeepsInv(base, restored, steps[..n]);
      var s := Run(base, restored, steps[..n]).value;
      StepKeepsInv(s, steps[n]);
      InlineStep(s, steps[n]);
    }
  }

  /** The pipeline refines inline application: at every point of every run at most one task is out, the entries handed
      to ApplyFunc are a prefix of the inline sequence (so each is handed over once and in log order), and the
      applied index is at most the inline one, or the restored one. */
  lemma PipelineRefinesInline(base: uint64, restored: uint64, steps: seq<Step>)
    requires Run(base, restored, steps).Some? && base <= restored
    ensures var s, inline := Run(base, restored, steps).value, InlineRun(restored, steps);
            |s.pool| <= 1 && s.handed <= inline.handed && s.appliedIndex <= Max(inline.appliedIndex, restored)
  {
    RunKeepsInv(base, restored, steps);
    var s := Run(base, restored, steps).value;
    assert s.handed <= s.handed + EntriesOf(s.pool) + EntriesOf(s.pendingTasks);
  }

  ghost predicate HasDataFree(steps: seq<Step>) {
    exists i :: 0 <= i < |steps| && steps[i].Ready? && DataOf(steps[i].es) == []
  }

  /** While a replay has not reached the restored index, that one stays recorded until a batch without data comes. */
  ghost predicate ReplayKept(s: State, dataFree: bool) {
    s.committed != [] && LastCommitted(s) < s.restored ==>
      if dataFree then s.appliedIndex <= LastCommitted(s) && Reported(s) else s.appliedIndex == s.restored
  }

  lemma StepKeepsReplay(s: State, step: Step, dataFree: bool)
    requires Inv(s) && Enabled(s, step) && ReplayKept(s, dataFree) && (s.committed == [] ==> !dataFree)
    ensures ReplayKept(Next(s, step), dataFree || (step.Ready? && DataOf(step.es) == []))
  {
    if step.Ready? {
      ReadyKeepsIndices(s, step.es);
      assert step.es[0].index == LastCommitted(s) + 1 <= step.es[|step.es| - 1].index;
    }
  }

  lemma HasDataFreeStep(steps: seq<Step>)
    requires steps != []
    ensures var n := |steps| - 1;
            HasDataFree(steps) <==> HasDataFree(steps[..n]) || (steps[n].Ready? && DataOf(steps[n].es) == [])
  {
    var n := |steps| - 1;
    if HasDataFree(steps[..n]) {
      var i :| 0 <= i < n && steps[..n][i].Ready? && DataOf(steps[..n][i].es) == [];
      assert steps[i].Ready?;
    }
    if i :| 0 <= i < |steps| && steps[i].Ready? && DataOf(steps[i].es) == [] && i < n {
      assert steps[..n][i].Ready?;
    }
  }

  lemma {:induction false} RunKeepsReplay(base: uint64, restored: uint64, steps: seq<Step>)
    requires Run(base, restored, steps).Some?
    ensures var s := Run(base, restored, steps).value;
            ReplayKept(s, HasDataFree(steps)) && (s.committed == [] ==> !HasDataFree(steps))
  {
    if steps != [] {
      var n := |steps| - 1;
      RunKeepsReplay(base, restored, steps[..n]);
      RunKeepsInv(base, restored, steps[..n]);
      HasDataFreeStep(steps);
      StepKeepsReplay(Run(base, restored, steps[..n]).value, steps[n], HasDataFree(steps[..n]));
    }
  }

  /** Once the pipeline is drained, both have handed over the same sequence. They have recorded the same applied index
      if and only if nothing was replayed, the replay has reached the restored index, or a batch without data came. */
  lemma DrainedPipelineIsInline(base: uint64, restored: uint64, steps: seq<Step>)
    requires Run(base, restored, steps).Some? && !Run(base, restored, steps).value.applyInFlight
    ensures var s, inline := Run(base, restored, steps).value, InlineRun(restored, steps);
            && s.handed == inline.handed
            && (s.appliedIndex == inline.appliedIndex
                <==> s.committed == [] || restored <= LastCommitted(s) || HasDataFree(steps))
  {
    RunKeepsInv(base, restored, steps);
    RunKeepsReplay(base, restored, steps);
    var s := Run(base, restored, steps).value;
    assert s.pool == [] && s.pendingTasks == [];
    assert s.handed + EntriesOf([]) + EntriesOf([]) == s.handed;
  }

  lemma {:induction false} PrefixIsRun(base: uint64, restored: uint64, steps: seq<Step>, i: nat)
    requires Run(base, restored, steps).Some? && i <= |steps|
    ensures Run(base, restored, steps[..i]).Some?
  {
    if i == |steps| {
      assert steps[..i] == steps;
    } else {
      assert steps[..|steps| - 1][..i] == steps[..i];
      PrefixIsRun(base, restored, steps[..|steps| - 1], i);
    }
  }

  ghost function StateAt(base: uint64, restored: uint64, steps: seq<Step>, i: nat): State
    requires Run(base, restored, steps).Some? && i <= |steps|
  {
    PrefixIsRun(base, restored, steps, i);
    Run(base, restored, steps[..i]).value
  }

  /** From the point where the log has reached the restored index, the applied index never decreases. */
  lemma {:induction false} AppliedIndexGrows(base: uint64, restored: uint64, steps: seq<Step>, i: nat)
    requires Run(base, restored, steps).Some? && i <= |steps|
    requires restored <= LastCommitted(StateAt(base, restored, steps, i))
    ensures StateAt(base, restored, steps, i).appliedIndex <= Run(base, restored, steps).value.appliedIndex
    ensures restored <= LastCommitted(Run(base, restored, steps).value)
  {
    if i == |steps| {
      assert steps[..i] == steps;
    } else {
      var n := |steps| - 1;
      assert steps[..n][..i] == steps[..i];
      AppliedIndexGrows(base, restored, steps[..n], i);
      RunKeepsInv(base, restored, steps[..n]);
      StepKeepsInv(Run(base, restored, steps[..n]).value, steps[n]);
    }
  }

  /** Before that point a batch without data moves it back: whatever is restored above the first replayed entry. */
  lemma ReplayMovesIndexBack(base: uint64, restored: uint64, e: Entry) returns (steps: seq<Step>)
    requires base + 1 < restored && e.index == base + 1 && !IsData(e)
    ensures Run(base, restored, steps).Some?
    ensures Run(base, restored, steps).value.appliedIndex == base + 1 < Run(base, restored, []).value.appliedIndex
  {
    DataOfOne(e);
    Extend(base, restored, [], Start(base, restored), Ready([e]));
    steps := [] + [Ready([e])];
  }

  lemma {:induction false} StaysAboveRestored(base: uint64, restored: uint64, steps: seq<Step>)
    requires Run(base, restored, steps).Some? && restored <= base + 1
    ensures restored <= Run(base, restored, steps).value.appliedIndex
  {
    if steps != [] {
      var n := |steps| - 1;
      StaysAboveRestored(base, restored, steps[..n]);
      RunKeepsInv(base, restored, steps[..n]);
      var s := Run(base, restored, steps[..n]).value;
      CommittedIsAbove(base, restored, steps[..n]);
      if steps[n].Ready? {
        assert steps[n].es[0].index <= steps[n].es[|steps[n].es| - 1].index;
      }
    }
  }

  lemma {:induction false} CommittedIsAbove(base: uint64, restored: uint64, steps: seq<Step>)
    requires Run(base, restored, steps).Some?
    ensures var s := Run(base, restored, steps).value;
            base <= LastCommitted(s) && (s.committed == [] <==> LastCommitted(s) == base)
  {
    if steps != [] {
      var n := |steps| - 1;
      CommittedIsAbove(base, restored, steps[..n]);
      RunKeepsInv(base, restored, steps[..n]);
      StepCommits(Run(base, restored, steps[..n]).value, steps[n]);
    }
  }

  lemma StepCommits(s: State, step: Step)
    requires Inv(s) && Enabled(s, step)
    ensures var s' := Next(s, step);
            && s'.base == s.base
            && if step.Ready? then s'.committed != [] && LastCommitted(s) < LastCommitted(s')
               else s'.committed == s.committed
  {
    if step.Ready? {
      ReadyKeepsIndices(s, step.es);
      assert step.es[0].index <= step.es[|step.es| - 1].index;
    }
  }

  ghost predicate IndexAlwaysGrows(base: uint64, restored: uint64) {
    forall steps, i | Run(base, restored, steps).Some? && 0 <= i <= |steps| ::
      StateAt(base, restored, steps, i).appliedIndex <= Run(base, restored, steps).value.appliedIndex
  }

  /** The applied index never decreases in any run from a start, if and only if at most one entry is replayed. */
  lemma IndexAlwaysGrowsExactly(base: uint64, restored: uint64)
    ensures IndexAlwaysGrows(base, restored) <==> restored <= base + 1
  {
    if restored <= base + 1 {
      forall steps, i | Run(base, restored, steps).Some? && 0 <= i <= |steps|
        ensures StateAt(base, restored, steps, i).appliedIndex <= Run(base, restored, steps).value.appliedIndex
      {
        PrefixIsRun(base, restored, steps, i);
        CommittedIsAbove(base, restored, steps[..i]);
        RunKeepsInv(base, restored, steps[..i]);
        if restored <= LastCommitted(StateAt(base, restored, steps, i)) {
          AppliedIndexGrows(base, restored, steps, i);
        } else {
          StaysAboveRestored(base, restored, steps);
        }
      }
    } else {
      var steps := ReplayMovesIndexBack(base, restored, Entry(base + 1, false, []));
      assert steps[..0] == [];
      assert StateAt(base, restored, steps, 0) == Start(base, restored);
    }
  }

  lemma {:induction false} EntriesOfNone(tasks: seq<Task>)
    requires forall i | 0 <= i < |tasks| :: tasks[i].entries != []
    ensures EntriesOf(tasks) == [] <==> tasks == []
  {
  }

  /** On the asynchronous path the applied index does not say that the data up to it has been handed over: a batch
      without data moves the index to the end of the log at once. All data has then been handed over exactly when no
      task is out and none is queued. */
  lemma AppliedIndexIsTrueExactly(s: State, es: seq<Entry>)
    requires Inv(s) && Continues(s, es) && DataOf(es) == []
    ensures var s' := Submitted(s, es);
            s'.appliedIndex == LastCommitted(s')
                && (s'.handed == DataOf(s'.committed) <==> s.pool == [] && s.pendingTasks == [])
  {
    ReadyKeepsInv(s, es);
    var s' := Submitted(s, es);
    var out := EntriesOf(s.pool) + EntriesOf(s.pendingTasks);
    EntriesOfNone(s.pool);
    EntriesOfNone(s.pendingTasks);
    assert s'.handed + EntriesOf(s'.pool) + EntriesOf(s'.pendingTasks) == s'.handed + out;
    assert |DataOf(s'.committed)| == |s'.handed| + |out|;
  }

  lemma Extend(base: uint64, restored: uint64, steps: seq<Step>, s: State, step: Step)
    requires Run(base, restored, steps) == Some(s) && Enabled(s, step)
    ensures Run(base, restored, steps + [step]) == Some(Next(s, step))
  {
    assert (steps + [step])[..|steps|] == steps;
  }

  /** A run on which the index runs ahead: one data entry is still with the worker when a configuration change moves the
      applied index past it. */
  lemma AppliedIndexRunsAhead(base: uint64, e: Entry, change: Entry) returns (steps: seq<Step>)
    requires IsData(e) && e.index == base + 1 && !change.normal && change.index == base + 2
    ensures Run(base, base, steps).Some? && Run(base, base, steps).value.appliedIndex == base + 2
    ensures Run(base, base, steps).value.committed == [e, change] && Run(base, base, steps).value.handed == []
  {
    DataOfOne(e);
    DataOfOne(change);
    var s := Start(base, base);
    Extend(base, base, [], s, Ready([e]));
    var t := s.(committed := [e], applyInFlight := true, pool := [Task([e], base + 1)]);
    assert Next(s, Ready([e])) == t;
    steps := [] + [Ready([e])];
    Extend(base, base, steps, t, Ready([change]));
    assert Next(t, Ready([change])) == t.(committed := [e, change], appliedIndex := base + 2);
    steps := steps + [Ready([change])];
  }

  /** How many steps the tasks of a state still need. */
  function Left(s: State): nat {
    2 * |s.pendingTasks| + 2 * |s.pool| + |s.results|
  }

  /** From every state of every run the workers can drain the pipeline. */
  lemma {:induction false} CanDrain(base: uint64, restored: uint64, steps: seq<Step>, s: State)
    returns (longer: seq<Step>, e: State)
    requires Run(base, restored, steps) == Some(s)
    ensures steps <= longer && Run(base, restored, longer) == Some(e) && !e.applyInFlight && e.committed == s.committed
    decreases Left(s)
  {
    longer, e := steps, s;
    RunKeepsInv(base, restored, steps);
    if s.applyInFlight {
      var step := if s.pool != [] then Work else Result;
      Extend(base, restored, steps, s, step);
      longer, e := steps + [step], Next(s, step);
      longer, e := CanDrain(base, restored, longer, e);
    }
  }

  lemma DataOfOne(e: Entry)
    ensures DataOf([e]) == if IsData(e) then [e] else []
  {
    assert [e][..0] == [];
  }

  // ----- The peer's and the worker's procedures -----

  class ApplyPeer {
    var appliedIndex: uint64
    var applyInFlight: bool
    var pendingApplyTasks: seq<Task>
    var pool: seq<Task>
    var mailbox: seq<uint64>
    var handed: seq<Entry>
    ghost const base: uint64
    ghost const restored: uint64
    ghost var committed: seq<Entry>

    ghost function View(): State
      reads this
    {
      State(base, restored, committed, appliedIndex, applyInFlight, pendingApplyTasks, pool, mailbox, handed)
    }

    constructor (ghost base: uint64, appliedIndex: uint64)
      ensures View() == Start(base, appliedIndex)
    {
      this.appliedIndex, applyInFlight, pendingApplyTasks, pool, mailbox, handed := appliedIndex, false, [], [], [], [];
      this.base, this.restored, committed := base, appliedIndex, [];
    }

    /** submitToApplyWorker: filters the data entries; without any, the index moves inline, otherwise a task is
        submitted or queued behind the one in flight. */
    method SubmitToApplyWorker(es: seq<Entry>)
      requires es != []
      modifies this
      ensures View() == Submitted(old(View()), es)
    {
      var lastCommittedIndex := es[|es| - 1].index;
      var data := FilterData(es);
      committed := committed + es;
      if |data| == 0 {
        appliedIndex := lastCommittedIndex;
        return;
      }
      var task := Task(data, lastCommittedIndex);
      if applyInFlight {
        pendingApplyTasks := pendingApplyTasks + [task];
      } else {
        applyInFlight := true;
        pool := pool + [task];
      }
    }

    /** A worker's processTask. */
    method ProcessTask()
      requires pool != []
      modifies this
      ensures View() == Next(old(View()), Work)
    {
      var task := pool[0];
      pool := pool[1..];
      if |task.entries| > 0 {
        handed := handed + task.entries;
      }
      mailbox := mailbox + [task.lastCommittedIndex];
    }

    /** onApplyResult: never moves the index back, then submits the next queued task. */
    method OnApplyResult()
      requires mailbox != []
      modifies this
      ensures View() == Next(old(View()), Result)
    {
      var result := mailbox[0];
      mailbox := mailbox[1..];
      if result > 0 {
        if result > appliedIndex {
          appliedIndex := result;
        }
      }
      applyInFlight := false;
      if |pendingApplyTasks| > 0 {
        var next := pendingApplyTasks[0];
        pendingApplyTasks := pendingApplyTasks[1..];
        applyInFlight := true;
        pool := pool + [next];
      }
    }
  }
}
