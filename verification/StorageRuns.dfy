/** Restart at the end of a whole run of writes, compactions, applies and collections. */
module StorageRuns {
  import opened Bytes
  import opened KvEngine
  import opened RaftKeys
  import opened RaftLog
  import opened LogGc
  import opened Recovery

  // ----- Which log keys survive -----

  /** Nothing survives above the persisted index, and an overwritten suffix survives up to it. */
  ghost predicate Bounded(s: State, r: uint64) {
    && r in s.regions
    && (forall i: uint64 | LogKey(r, i) in s.kv :: i <= s.regions[r].mem.persistedLast)
    && (s.regions[r].mem.persistedLast > s.regions[r].log.Last() ==> LogKey(r, s.regions[r].mem.persistedLast) in s.kv)
  }

  /** The region's log keys in the engine are exactly those from `lo` to the persisted index. */
  ghost predicate Spans(s: State, r: uint64, lo: nat) {
    && r in s.regions && lo <= s.regions[r].log.truncIndex + 1
    && forall i: uint64 :: LogKey(r, i) in s.kv <==> lo <= i <= s.regions[r].mem.persistedLast
  }

  /** A collection of the region leaves nothing behind below its interval. */
  ghost predicate Orderly(s: State, step: Step, r: uint64) {
    step.Collect? && step.task.region == r && step.task.start < step.task.end ==>
      forall i: uint64 | LogKey(r, i) in s.kv :: step.task.start <= i
  }

  ghost predicate OrderlyRun(s: State, steps: seq<Step>, r: uint64) {
    forall i | 0 <= i < |steps| && Run(s, steps[..i]).Some? :: Orderly(Run(s, steps[..i]).value, steps[i], r)
  }

  /** A step that is neither a save nor a collection of the region leaves its log keys alone. */
  lemma OtherStepsKeepKeys(s: State, step: Step, r: uint64, i: uint64)
    requires Legal(s, step) && r in s.regions
    requires step.Save? ==> step.region != r || step.rd.entries == []
    requires step.Collect? ==> step.task.region != r
    ensures SameAt(s.kv, Next(s, step).kv, LogKey(r, i))
    ensures r in Next(s, step).regions && Next(s, step).regions[r].mem.persistedLast == s.regions[r].mem.persistedLast
  {
    if step.Save? {
      PutKeys(step.region, step.rd);
      UnwrittenIsKept(s.kv, PutsOf(step.region, step.rd), LogKey(r, i));
    } else if step.Collect? {
      CollectKeeps(s.kv, step.task, r, i);
    }
  }

  /** A save of the region adds the keys of its batch. */
  lemma SaveAddsKeys(s: State, r: uint64, rd: Ready, i: uint64)
    requires Inv(s) && Legal(s, Save(r, rd)) && rd.entries != []
    ensures LogKey(r, i) in Next(s, Save(r, rd)).kv <==>
              LogKey(r, i) in s.kv || rd.entries[0].index <= i <= rd.entries[|rd.entries| - 1].index
  {
    ReadyWritesEntries(s.kv, r, rd, i);
    assert rd.entries[|rd.entries| - 1].index == rd.entries[0].index + |rd.entries| - 1;
  }

  // ----- Every run keeps the bound -----

  lemma SaveKeepsBounded(s: State, r: uint64, rd: Ready)
    requires Inv(s) && Legal(s, Save(r, rd)) && rd.entries != [] && Bounded(s, r)
    ensures Bounded(Next(s, Save(r, rd)), r)
  {
    var s', log := Next(s, Save(r, rd)), s.regions[r].log;
    assert Sound(s.kv, r, s.regions[r]);
    AppendWellFormed(log, rd.entries);
    forall i: uint64 | LogKey(r, i) in s'.kv ensures i <= s'.regions[r].mem.persistedLast {
      SaveAddsKeys(s, r, rd, i);
    }
    SaveAddsKeys(s, r, rd, s'.regions[r].mem.persistedLast);
    if s.regions[r].mem.persistedLast == log.Last() && log.entries != [] {
      var last: uint64 := log.Last();
      assert HoldsEntry(s.kv, r, last, log.At(last));
    }
  }

  lemma CollectKeepsBounded(s: State, t: GcTask, r: uint64)
    requires Inv(s) && Legal(s, Collect(t)) && Bounded(s, r)
    ensures Bounded(Next(s, Collect(t)), r)
  {
    var s', g := Next(s, Collect(t)), s.regions[r];
    assert Sound(s.kv, r, g);
    forall i: uint64 | LogKey(r, i) in s'.kv ensures i <= g.mem.persistedLast {
      assert LogKey(r, i) in s.kv;
    }
    if g.mem.persistedLast > g.log.Last() {
      assert Harmless(t, s.regions[t.region]);
      CollectKeeps(s.kv, t, r, g.mem.persistedLast);
    }
  }

  lemma StepKeepsBounded(s: State, step: Step, r: uint64)
    requires Inv(s) && Legal(s, step) && Bounded(s, r)
    ensures Bounded(Next(s, step), r)
  {
    if step.Save? && step.region == r && step.rd.entries != [] {
      SaveKeepsBounded(s, r, step.rd);
    } else if step.Collect? {
      CollectKeepsBounded(s, step.task, r);
    } else {
      forall i: uint64 ensures SameAt(s.kv, Next(s, step).kv, LogKey(r, i)) {
        OtherStepsKeepKeys(s, step, r, i);
      }
      LastIsKept(s, step, r);
    }
  }

  lemma LastIsKept(s: State, step: Step, r: uint64)
    requires Inv(s) && Legal(s, step) && r in s.regions && !(step.Save? && step.region == r && step.rd.entries != [])
    ensures r in Next(s, step).regions && Next(s, step).regions[r].log.Last() == s.regions[r].log.Last()
    ensures Next(s, step).regions[r].mem.persistedLast == s.regions[r].mem.persistedLast
  {
  }

  lemma {:induction false} RunKeepsBounded(s: State, steps: seq<Step>, r: uint64)
    requires Inv(s) && Run(s, steps).Some? && Bounded(s, r)
    ensures Bounded(Run(s, steps).value, r)
  {
    if steps != [] {
      var n := |steps| - 1;
      RunKeepsBounded(s, steps[..n], r);
      CollectionIsSafe(s, steps[..n]);
      StepKeepsBounded(Run(s, steps[..n]).value, steps[n], r);
    }
  }

  // ----- Orderly runs leave no hole -----

  lemma SaveKeepsSpan(s: State, r: uint64, rd: Ready, lo: nat)
    requires Inv(s) && Legal(s, Save(r, rd)) && rd.entries != [] && Spans(s, r, lo)
    ensures Spans(Next(s, Save(r, rd)), r, lo)
  {
    var s' := Next(s, Save(r, rd));
    assert Sound(s.kv, r, s.regions[r]);
    forall i: uint64 ensures LogKey(r, i) in s'.kv <==> lo <= i <= s'.regions[r].mem.persistedLast {
      SaveAddsKeys(s, r, rd, i);
    }
  }

  /** Where the survivors start after an orderly collection. */
  function NextLow(t: GcTask, lo: nat): nat {
    if 0 <= t.start < t.end <= MAX_UINT64 && lo < t.end then t.end else lo
  }

  lemma CollectKeepsSpan(s: State, t: GcTask, lo: nat)
    requires Inv(s) && Legal(s, Collect(t)) && Spans(s, t.region, lo) && Orderly(s, Collect(t), t.region)
    ensures Spans(Next(s, Collect(t)), t.region, NextLow(t, lo))
  {
    var s', r := Next(s, Collect(t)), t.region;
    assert Harmless(t, s.regions[r]);
    forall i: uint64 ensures LogKey(r, i) in s'.kv <==> NextLow(t, lo) <= i <= s'.regions[r].mem.persistedLast {
      if LogKey(r, i) in s.kv && t.start < t.end <= MAX_UINT64 {
        CollectIsExact(s.kv, t, LogKey(r, i));
      }
    }
  }

  /** A collection keeps the survivors of a log that is not empty in one piece exactly when it is orderly. */
  lemma CollectKeepsSpanExactly(s: State, t: GcTask, lo: nat)
    requires Inv(s) && Legal(s, Collect(t)) && Spans(s, t.region, lo) && s.regions[t.region].log.entries != []
    requires t.end <= MAX_UINT64
    ensures (exists low :: Spans(Next(s, Collect(t)), t.region, low)) <==> Orderly(s, Collect(t), t.region)
  {
    var s', r := Next(s, Collect(t)), t.region;
    if Orderly(s, Collect(t), r) {
      CollectKeepsSpan(s, t, lo);
    } else {
      assert Harmless(t, s.regions[r]) && Sound(s.kv, r, s.regions[r]);
      var i: uint64 :| LogKey(r, i) in s.kv && i < t.start;
      var hole: uint64, last: uint64 := t.start, s.regions[r].log.Last();
      assert HoldsEntry(s.kv, r, last, s.regions[r].log.At(last));
      CollectIsExact(s.kv, t, LogKey(r, i));
      CollectIsExact(s.kv, t, LogKey(r, hole));
      CollectIsExact(s.kv, t, LogKey(r, last));
      forall low ensures !Spans(s', r, low) {
        assert LogKey(r, i) in s'.kv && LogKey(r, hole) !in s'.kv && LogKey(r, last) in s'.kv;
      }
    }
  }

  lemma StepKeepsSpan(s: State, step: Step, r: uint64, lo: nat) returns (low: nat)
    requires Inv(s) && Legal(s, step) && Spans(s, r, lo) && Orderly(s, step, r)
    ensures Spans(Next(s, step), r, low)
  {
    low := lo;
    if step.Save? && step.region == r && step.rd.entries != [] {
      SaveKeepsSpan(s, r, step.rd, lo);
    } else if step.Collect? && step.task.region == r {
      low := NextLow(step.task, lo);
      CollectKeepsSpan(s, step.task, lo);
    } else {
      StepKeepsInv(s, step);
      forall i: uint64 ensures SameAt(s.kv, Next(s, step).kv, LogKey(r, i)) {
        OtherStepsKeepKeys(s, step, r, i);
      }
      LastIsKept(s, step, r);
    }
  }

  /** Along every orderly run, whatever it overwrites, the survivors are one interval up to the persisted index. */
  lemma {:induction false} OrderlyRunKeepsSpan(s: State, steps: seq<Step>, r: uint64, lo: nat) returns (low: nat)
    requires Inv(s) && Run(s, steps).Some? && OrderlyRun(s, steps, r) && Spans(s, r, lo)
    ensures Spans(Run(s, steps).value, r, low)
  {
    low := lo;
    if steps != [] {
      var n := |steps| - 1;
      forall i | 0 <= i < n && Run(s, steps[..n][..i]).Some?
        ensures Orderly(Run(s, steps[..n][..i]).value, steps[..n][i], r)
      {
        assert steps[..n][..i] == steps[..i];
      }
      low := OrderlyRunKeepsSpan(s, steps[..n], r, lo);
      CollectionIsSafe(s, steps[..n]);
      var m := Run(s, steps[..n]).value;
      assert Orderly(m, steps[n], r);
      low := StepKeepsSpan(m, steps[n], r, low);
    }
  }

  // ----- Restart -----

  /** Survivors that fill an interval have no hole. */
  lemma IntervalIsContiguous(kv: Store, r: uint64, lo: nat, last: nat, es: seq<Entry>)
    requires last <= MAX_UINT64 && Survivors(kv, r, es)
    requires forall i: uint64 :: LogKey(r, i) in kv <==> lo <= i <= last
    ensures Contiguous(es) && (es != [] ==> es[|es| - 1].index == last)
  {
    forall j | 0 <= j < |es| - 1 ensures es[j + 1].index == es[j].index + 1 {
      assert HoldsEntry(kv, r, es[j].index, es[j]) && HoldsEntry(kv, r, es[j + 1].index, es[j + 1]);
      var next: uint64 := es[j].index + 1;
      assert LogKey(r, next) in kv;
      var k :| 0 <= k < |es| && es[k].index == next;
      assert k == j + 1;
    }
    StepsMakeContiguous(es, |es|);
    if es != [] {
      assert HoldsEntry(kv, r, es[|es| - 1].index, es[|es| - 1]);
      var top: uint64 := last;
      LastSurvivor(kv, r, es, top);
    }
  }

  lemma {:induction false} StepsMakeContiguous(es: seq<Entry>, n: nat)
    requires n <= |es| && forall j | 0 <= j < |es| - 1 :: es[j + 1].index == es[j].index + 1
    ensures forall i | 0 <= i < n :: es[i].index == es[0].index + i
  {
    if n > 1 {
      StepsMakeContiguous(es, n - 1);
      assert es[n - 2 + 1].index == es[n - 2].index + 1;
    }
  }

  /** After any run whose collections are orderly, whatever its batches overwrite, a restart restores the region's log
      if and only if the persisted index is the log's last one; with no entry left, only the initial index fits. */
  lemma RestartAfterOrderlyRun(s: State, steps: seq<Step>, r: uint64, lo: nat, es: seq<Entry>)
    requires Inv(s) && Stored(s) && Run(s, steps).Some? && OrderlyRun(s, steps, r) && Spans(s, r, lo)
    requires r in Run(s, steps).value.regions && Survivors(Run(s, steps).value.kv, r, es)
    ensures var e := Run(s, steps).value;
            var g := e.regions[r];
            Represents(e.kv, r, Recovered(e.kv, r, es), g.log)
            <==> g.log.Last()
                 == if es != [] && g.mem.persistedLast > 0 then g.mem.persistedLast else RAFT_INIT_LOG_INDEX
  {
    var e := Run(s, steps).value;
    var g := e.regions[r];
    CollectionIsSafe(s, steps);
    RunKeepsStored(s, steps);
    assert Sound(e.kv, r, g) && StoredIn(e.kv, r, g.mem);
    var low := OrderlyRunKeepsSpan(s, steps, r, lo);
    IntervalIsContiguous(e.kv, r, low, g.mem.persistedLast, es);
    TrimContiguous(es);
    RestartRestoresLog(e.kv, r, g.mem, g.log, es);
  }

  /** A missing index among the newest that fit the cache, with an older entry still there. */
  ghost predicate RecentHole(kv: Store, r: uint64, last: nat) {
    exists i: uint64, h: uint64 :: MissingAbove(kv, r, last, i, h)
  }

  ghost predicate MissingAbove(kv: Store, r: uint64, last: nat, i: uint64, h: uint64) {
    i < h < last < h + MAX_CACHE && LogKey(r, i) in kv && LogKey(r, h) !in kv
  }

  lemma {:induction false} NewestAreContiguous(kv: Store, r: uint64, es: seq<Entry>, k: nat)
    requires Survivors(kv, r, es) && es != [] && !RecentHole(kv, r, es[|es| - 1].index)
    requires k < |es| && |es| <= k + MAX_CACHE
    ensures es[k].index == es[|es| - 1].index - (|es| - 1 - k)
    decreases |es| - k
  {
    if k < |es| - 1 {
      NewestAreContiguous(kv, r, es, k + 1);
      assert es[k].index < es[k + 1].index;
      var h: uint64 := es[k + 1].index - 1;
      assert HoldsEntry(kv, r, es[k].index, es[k]);
      assert !MissingAbove(kv, r, es[|es| - 1].index, es[k].index, h);
    }
  }

  lemma NoHoleInTrim(kv: Store, r: uint64, es: seq<Entry>)
    requires Survivors(kv, r, es) && es != [] && !RecentHole(kv, r, es[|es| - 1].index)
    ensures Contiguous(Trim(es))
  {
    var t, last := Trim(es), es[|es| - 1].index;
    forall j | 0 <= j < |t| ensures t[j].index == last - (|t| - 1 - j) {
      assert t[j] == es[|es| - |t| + j];
      NewestAreContiguous(kv, r, es, |es| - |t| + j);
    }
  }

  lemma TrimHasNoHole(kv: Store, r: uint64, es: seq<Entry>, i: uint64, h: uint64)
    requires Survivors(kv, r, es) && es != [] && Contiguous(Trim(es))
    requires LogKey(r, i) in kv && i < h < es[|es| - 1].index < h + MAX_CACHE
    ensures LogKey(r, h) in kv
  {
    TrimReaches(kv, r, es, i, h);
    TrimAt(es, es[|es| - 1].index - h);
    var e := es[|es| - 1 - (es[|es| - 1].index - h)];
    assert HoldsEntry(kv, r, e.index, e);
  }

  lemma TrimAt(es: seq<Entry>, d: nat)
    requires es != [] && Contiguous(Trim(es)) && d < |Trim(es)|
    ensures d < |es| && es[|es| - 1 - d].index == es[|es| - 1].index - d
  {
    var t := Trim(es);
    assert t[|t| - 1] == es[|es| - 1] && t[|t| - 1 - d] == es[|es| - 1 - d];
    assert t[|t| - 1].index == t[0].index + |t| - 1 && t[|t| - 1 - d].index == t[0].index + |t| - 1 - d;
  }

  /** The newest entries reach down to the hole, as there is an older one or the cache is full. */
  lemma TrimReaches(kv: Store, r: uint64, es: seq<Entry>, i: uint64, h: uint64)
    requires Survivors(kv, r, es) && es != [] && Contiguous(Trim(es))
    requires LogKey(r, i) in kv && i < h < es[|es| - 1].index < h + MAX_CACHE
    ensures es[|es| - 1].index - h < |Trim(es)|
  {
    if |es| <= MAX_CACHE {
      var j :| 0 <= j < |es| && es[j].index == i;
      assert es[j].index == es[0].index + j && es[|es| - 1].index == es[0].index + |es| - 1;
    }
  }

  /** The part of the survivors that fits the cache has no hole exactly when there is no recent hole. */
  lemma TrimIsContiguousExactly(kv: Store, r: uint64, es: seq<Entry>)
    requires Survivors(kv, r, es) && es != []
    ensures Contiguous(Trim(es)) <==> !RecentHole(kv, r, es[|es| - 1].index)
  {
    var last := es[|es| - 1].index;
    if Contiguous(Trim(es)) {
      if RecentHole(kv, r, last) {
        var i: uint64, h: uint64 :| MissingAbove(kv, r, last, i, h);
        TrimHasNoHole(kv, r, es, i, h);
      }
    } else if !RecentHole(kv, r, last) {
      NoHoleInTrim(kv, r, es);
    }
  }

  /** Something survives that a restart takes for the end of the log. */
  ghost predicate HoldsSome(kv: Store, r: uint64) {
    exists i: uint64 :: i > 0 && LogKey(r, i) in kv
  }

  /** The last index survives as the largest, with no recent hole below it; or nothing does and the log is the initial
      one. */
  ghost predicate Restorable(kv: Store, r: uint64, g: Region)
    requires g.log.Last() <= MAX_UINT64
  {
    if HoldsSome(kv, r)
    then g.mem.persistedLast == g.log.Last() && LogKey(r, g.log.Last()) in kv && !RecentHole(kv, r, g.log.Last())
    else g.log.Last() == RAFT_INIT_LOG_INDEX
  }

  lemma LargestSurvives(e: State, r: uint64, es: seq<Entry>)
    requires Bounded(e, r) && Survivors(e.kv, r, es) && e.regions[r].log.Last() <= MAX_UINT64
    ensures HoldsSome(e.kv, r) <==> es != [] && es[|es| - 1].index > 0
    ensures HoldsSome(e.kv, r) ==>
              var g := e.regions[r];
              es[|es| - 1].index == g.log.Last()
              <==> g.mem.persistedLast == g.log.Last() && LogKey(r, g.log.Last()) in e.kv
  {
    var g := e.regions[r];
    if es != [] {
      assert HoldsEntry(e.kv, r, es[|es| - 1].index, es[|es| - 1]);
    }
    if i: uint64 :| i > 0 && LogKey(r, i) in e.kv {
      LastSurvivor(e.kv, r, es, i);
      if g.mem.persistedLast > g.log.Last() {
        LastSurvivor(e.kv, r, es, g.mem.persistedLast);
      } else if LogKey(r, g.log.Last()) in e.kv {
        LastSurvivor(e.kv, r, es, g.log.Last());
      }
    }
  }

  lemma RestartExactly(e: State, r: uint64, es: seq<Entry>)
    requires Bounded(e, r) && Sound(e.kv, r, e.regions[r]) && StoredIn(e.kv, r, e.regions[r].mem)
    requires Survivors(e.kv, r, es)
    ensures var g := e.regions[r];
            && g.log.Last() <= MAX_UINT64
            && (Represents(e.kv, r, Recovered(e.kv, r, es), g.log) <==> Restorable(e.kv, r, g))
  {
    var g := e.regions[r];
    LargestSurvives(e, r, es);
    if es != [] {
      TrimIsContiguousExactly(e.kv, r, es);
    }
    RestartRestoresLog(e.kv, r, g.mem, g.log, es);
  }

  /** Whatever the survivors are, the restarted region has the hard state that was saved last, which memory held, and
      the apply state that memory held. */
  lemma RestartKeepsState(s: State, steps: seq<Step>, r: uint64, hs: HardState, es: seq<Entry>)
    requires Stored(s) && HardStateIs(s, r, hs) && Run(s, steps).Some?
    ensures var e := Run(s, steps).value;
            && r in e.regions
            && Recovered(e.kv, r, es).hardState == e.regions[r].mem.hardState == LastHardState(steps, r, hs)
            && Recovered(e.kv, r, es).progress == e.regions[r].mem.progress
  {
    RunKeepsHardState(s, steps, r, hs);
    RunKeepsStored(s, steps);
    var e := Run(s, steps).value;
    assert StoredIn(e.kv, r, e.regions[r].mem);
  }

  /** After any run at all, with collections dropped, delayed and repeated in any order, a restart restores the log if
      and only if no overwritten suffix and no recent hole is left; of a log without entries the last one must have
      survived, or all have gone and the index is the initial one. */
  lemma RestartAfterAnyRun(s: State, steps: seq<Step>, r: uint64, es: seq<Entry>)
    requires Inv(s) && Stored(s) && Run(s, steps).Some? && Bounded(s, r)
    requires r in Run(s, steps).value.regions && Survivors(Run(s, steps).value.kv, r, es)
    ensures var e := Run(s, steps).value;
            var g := e.regions[r];
            && g.log.Last() <= MAX_UINT64
            && (Represents(e.kv, r, Recovered(e.kv, r, es), g.log) <==> Restorable(e.kv, r, g))
            && (g.log.entries != [] ==>
                  (Restorable(e.kv, r, g)
                   <==> g.mem.persistedLast == g.log.Last() && !RecentHole(e.kv, r, g.log.Last())))
            && (HardStateIs(s, r, s.regions[r].mem.hardState) ==>
                  Recovered(e.kv, r, es).hardState == g.mem.hardState)
  {
    var e := Run(s, steps).value;
    var g := e.regions[r];
    if HardStateIs(s, r, s.regions[r].mem.hardState) {
      RestartKeepsState(s, steps, r, s.regions[r].mem.hardState, es);
    }
    CollectionIsSafe(s, steps);
    RunKeepsStored(s, steps);
    RunKeepsBounded(s, steps, r);
    assert Sound(e.kv, r, g) && StoredIn(e.kv, r, g.mem);
    RestartExactly(e, r, es);
    if g.log.entries != [] {
      var last: uint64 := g.log.Last();
      assert HoldsEntry(e.kv, r, last, g.log.At(last));
    }
  }

  // ----- There is something to recover from -----

  lemma {:induction false} PutsKeepLogTyped(kv: Store, ps: seq<Put<LocalKey, Value>>)
    requires LogTyped(kv)
    requires forall i | 0 <= i < |ps| && ps[i].key.LogKey? ::
               ps[i].value.EntryValue? && ps[i].value.entry.index == ps[i].key.index
    ensures LogTyped(AfterPuts(kv, ps))
  {
    if ps != [] {
      var n := |ps| - 1;
      PutsKeepLogTyped(kv, ps[..n]);
    }
  }

  lemma {:induction false} RunKeepsLogTyped(s: State, steps: seq<Step>)
    requires LogTyped(s.kv) && Run(s, steps).Some?
    ensures LogTyped(Run(s, steps).value.kv)
  {
    if steps != [] {
      var n := |steps| - 1;
      RunKeepsLogTyped(s, steps[..n]);
      var m := Run(s, steps[..n]).value;
      if steps[n].Save? {
        PutKeys(steps[n].region, steps[n].rd);
        PutsKeepLogTyped(m.kv, PutsOf(steps[n].region, steps[n].rd));
      }
    }
  }

  /** Log keys that hold their entries can be listed. */
  lemma SurvivorsExist(kv: Store, r: uint64) returns (es: seq<Entry>)
    requires LogTyped(kv)
    ensures Survivors(kv, r, es)
  {
    var s := ScanExists(ByteView(kv), RaftLogKey(r, 0), Some(RaftStateKey(r)));
    ScannedEntries(kv, r, s);
    es := seq(|s|, i requires 0 <= i < |s| => s[i].value.entry);
    ScanSurvives(kv, r, s, es);
  }

  // ----- A run that leaves a hole -----

  function EntryAt(i: uint64): Entry {
    Entry(i, 1, [], 0)
  }

  /** A store with one new region. */
  ghost predicate IsNew(s: State) {
    && s.kv == map[] && s.tasks == {}
    && s.regions == map[1 := Region(Mem(HardState(0, 0, 0), INIT_PROGRESS, [], RAFT_INIT_LOG_INDEX), Log(5, 5, []))]
  }

  lemma NewIsConsistent(s: State)
    requires IsNew(s)
    ensures Inv(s) && Stored(s) && Spans(s, 1, 6) && Bounded(s, 1)
  {
    assert Sound(s.kv, 1, s.regions[1]);
  }

  lemma Extend(s: State, steps: seq<Step>, m: State, step: Step)
    requires Run(s, steps) == Some(m) && Legal(m, step)
    ensures Run(s, steps + [step]) == Some(Next(m, step))
  {
    assert (steps + [step])[..|steps|] == steps;
  }

  /** Region 1 with entries up to 9, of which the seventh is in the engine, and the eighth unless there is a hole. */
  ghost predicate UpToNine(m: State, progress: Progress, log: Log, hole: bool) {
    && 1 in m.regions && m.regions[1].log == log
    && m.regions[1].mem.progress == progress && m.regions[1].mem.persistedLast == 9
    && LogKey(1, 7) in m.kv && (LogKey(1, 8) in m.kv <==> !hole)
  }

  /** Four entries are written. */
  lemma WritesUpToNine(s: State) returns (steps: seq<Step>, m: State)
    requires IsNew(s)
    ensures Run(s, steps) == Some(m) && m.tasks == {}
    ensures UpToNine(m, INIT_PROGRESS, Log(5, 5, [EntryAt(6), EntryAt(7), EntryAt(8), EntryAt(9)]), false)
  {
    NewIsConsistent(s);
    var rd := Ready(HardState(0, 0, 0), [EntryAt(6), EntryAt(7), EntryAt(8), EntryAt(9)]);
    SaveAddsKeys(s, 1, rd, 7);
    SaveAddsKeys(s, 1, rd, 8);
    Extend(s, [], s, Save(1, rd));
    steps, m := [] + [Save(1, rd)], Next(s, Save(1, rd));
  }

  lemma AppliesTo(m: State, p: Progress, log: Log, i: uint64)
    requires UpToNine(m, p, log, false) && p.applied <= i
    ensures Legal(m, Apply(1, i)) && UpToNine(Next(m, Apply(1, i)), p.(applied := i), log, false)
    ensures Next(m, Apply(1, i)).tasks == m.tasks
  {
  }

  lemma CompactsTo(m: State, p: Progress, log: Log, i: uint64, dropped: bool)
    requires UpToNine(m, p, log, false) && p.truncIndex == log.truncIndex && log.Has(i) && i <= p.applied
    ensures var step := Compact(1, CompactLogRequest(i, 1), false, dropped);
            && Legal(m, step)
            && UpToNine(Next(m, step), p.(truncIndex := i, truncTerm := 1), log.Truncate(i, 1), false)
            && Next(m, step).tasks == if dropped then m.tasks else m.tasks + {GcTask(1, p.truncIndex + 1, i + 1)}
  {
  }

  /** They are applied and compacted twice; the collection of the first compaction is dropped. */
  lemma CompactsTwice(s: State) returns (steps: seq<Step>, m: State)
    requires IsNew(s)
    ensures Run(s, steps) == Some(m) && m.tasks == {GcTask(1, 8, 9)}
    ensures UpToNine(m, Progress(9, 8, 1), Log(8, 1, [EntryAt(9)]), false)
  {
    steps, m := WritesUpToNine(s);
    var log := Log(5, 5, [EntryAt(6), EntryAt(7), EntryAt(8), EntryAt(9)]);
    AppliesTo(m, INIT_PROGRESS, log, 9);
    Extend(s, steps, m, Apply(1, 9));
    steps, m := steps + [Apply(1, 9)], Next(m, Apply(1, 9));
    var first := Compact(1, CompactLogRequest(7, 1), false, true);
    CompactsTo(m, Progress(9, 5, 5), log, 7, true);
    Extend(s, steps, m, first);
    steps, m := steps + [first], Next(m, first);
    var second := Compact(1, CompactLogRequest(8, 1), false, false);
    CompactsTo(m, Progress(9, 7, 1), log.Truncate(7, 1), 8, false);
    Extend(s, steps, m, second);
    steps, m := steps + [second], Next(m, second);
    assert log.Truncate(7, 1).Truncate(8, 1) == Log(8, 1, [EntryAt(9)]);
  }

  /** A dropped collection followed by an executed one leaves a hole: no suffix was overwritten, and yet no restart
      restores the log. */
  lemma DroppedCollectionLeavesHole(s: State) returns (steps: seq<Step>)
    requires IsNew(s)
    ensures Inv(s) && Stored(s) && Spans(s, 1, 6) && Run(s, steps).Some?
    ensures var e := Run(s, steps).value;
            && 1 in e.regions && e.regions[1].mem.persistedLast == e.regions[1].log.Last()
            && (exists es :: Survivors(e.kv, 1, es))
            && forall es | Survivors(e.kv, 1, es) :: !Represents(e.kv, 1, Recovered(e.kv, 1, es), e.regions[1].log)
  {
    NewIsConsistent(s);
    var m;
    steps, m := CompactsTwice(s);
    var t := GcTask(1, 8, 9);
    CollectIsExact(m.kv, t, LogKey(1, 7));
    CollectIsExact(m.kv, t, LogKey(1, 8));
    Extend(s, steps, m, Collect(t));
    steps := steps + [Collect(t)];
    var e := Next(m, Collect(t));
    assert MissingAbove(e.kv, 1, 9, 7, 8);
    RunKeepsLogTyped(s, steps);
    var left := SurvivorsExist(e.kv, 1);
    forall es | Survivors(e.kv, 1, es) ensures !Represents(e.kv, 1, Recovered(e.kv, 1, es), e.regions[1].log) {
      RestartAfterAnyRun(s, steps, 1, es);
    }
  }

  // ----- A run after which the cache cut hides the last index -----

  /** Region 1 after a batch that overwrote the entries 6 to 8 by one entry. */
  ghost predicate Overwritten(m: State, progress: Progress, log: Log) {
    && 1 in m.regions && m.regions[1].log == log && m.regions[1].mem.progress == progress
    && m.regions[1].mem.cache == [Entry(6, 2, [], 0)] && m.regions[1].mem.persistedLast == 8
  }

  lemma OverwritesSuffix(s: State) returns (steps: seq<Step>, m: State)
    requires IsNew(s)
    ensures Run(s, steps) == Some(m) && Overwritten(m, INIT_PROGRESS, Log(5, 5, [Entry(6, 2, [], 0)]))
  {
    var first := Save(1, Ready(HardState(0, 0, 0), [EntryAt(6), EntryAt(7), EntryAt(8)]));
    var second := Save(1, Ready(HardState(0, 0, 0), [Entry(6, 2, [], 0)]));
    Extend(s, [], s, first);
    steps, m := [] + [first], Next(s, first);
    Extend(s, steps, m, second);
    steps, m := steps + [second], Next(m, second);
  }

  lemma CompactsOverwritten(m: State)
    requires Overwritten(m, INIT_PROGRESS, Log(5, 5, [Entry(6, 2, [], 0)]))
    ensures Legal(m, Apply(1, 6)) && Legal(Next(m, Apply(1, 6)), Compact(1, CompactLogRequest(6, 2), false, false))
    ensures var e := Next(Next(m, Apply(1, 6)), Compact(1, CompactLogRequest(6, 2), false, false));
            Overwritten(e, Progress(6, 6, 2), Log(6, 2, []))
  {
  }

  /** A suffix is overwritten and the log compacted to its last index. The cut that follows a compaction, one above the
      truncated index, then empties the cache, and the storage reports the index of an entry that is no longer in its
      log. */
  lemma CutHidesLastIndex(s: State) returns (steps: seq<Step>, e: State)
    requires IsNew(s)
    ensures Run(s, steps) == Some(e) && Inv(e) && 1 in e.regions
    ensures var g := e.regions[1];
            && g.mem.LastIndex() == g.log.Last() == g.log.truncIndex == 6
            && g.mem.(cache := CutCache(g.mem.cache, 7)).LastIndex() == 8
  {
    NewIsConsistent(s);
    steps, e := OverwritesSuffix(s);
    CompactsOverwritten(e);
    Extend(s, steps, e, Apply(1, 6));
    steps, e := steps + [Apply(1, 6)], Next(e, Apply(1, 6));
    var compact := Compact(1, CompactLogRequest(6, 2), false, false);
    Extend(s, steps, e, compact);
    steps, e := steps + [compact], Next(e, compact);
    CollectionIsSafe(s, steps);
  }
}
