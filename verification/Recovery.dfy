/** Restart: RecoverFromEngine rebuilds the memory of a storage from what the engine holds. */
module Recovery {
  import opened Bytes
  import opened KvEngine
  import opened RaftKeys
  import opened RaftLog
  import opened PeerStorage

  // ----- The apply state record -----

  function ProgressBytes(p: Progress): (b: Bytes)
    ensures |b| == 24
  {
    BE(p.applied, 8) + BE(p.truncIndex, 8) + BE(p.truncTerm, 8)
  }

  function Uint64At(b: Bytes, pos: nat): uint64
    requires pos + 8 <= |b|
  {
    FromBEBound(b[pos..pos + 8]);
    Pow256Of8();
    FromBE(b[pos..pos + 8])
  }

  function ProgressFrom(b: Bytes): Progress
    requires |b| == 24
  {
    Progress(Uint64At(b, 0), Uint64At(b, 8), Uint64At(b, 16))
  }

  lemma ProgressRoundTrip(p: Progress)
    ensures ProgressFrom(ProgressBytes(p)) == p
  {
    var b := ProgressBytes(p);
    assert b[0..8] == BE(p.applied, 8) && b[8..16] == BE(p.truncIndex, 8) && b[16..24] == BE(p.truncTerm, 8);
    Pow256Of8();
    BERoundTrip(p.applied, 8);
    BERoundTrip(p.truncIndex, 8);
    BERoundTrip(p.truncTerm, 8);
  }

  // ----- What is recovered -----

  const INIT_PROGRESS := Progress(RAFT_INIT_LOG_INDEX, RAFT_INIT_LOG_INDEX, RAFT_INIT_LOG_TERM)

  function StoredProgress(kv: Store, region: uint64): Progress {
    var k := ApplyKey(region);
    if k in kv && kv[k].RawValue? && |kv[k].raw| == 24 then ProgressFrom(kv[k].raw) else INIT_PROGRESS
  }

  function StoredHardState(kv: Store, region: uint64): HardState {
    var k := StateKey(region);
    if k in kv && kv[k].HardStateValue? then kv[k].hs else HardState(0, 0, 0)
  }

  /** The recovered memory, given the surviving log entries in index order. */
  function Recovered(kv: Store, region: uint64, es: seq<Entry>): Mem {
    if es != [] && es[|es| - 1].index > 0
    then Mem(StoredHardState(kv, region), StoredProgress(kv, region), Trim(es), es[|es| - 1].index)
    else Mem(StoredHardState(kv, region), StoredProgress(kv, region), [], RAFT_INIT_LOG_INDEX)
  }

  /** Log keys hold the entry of their index. */
  ghost predicate LogTyped(kv: Store) {
    forall k | k in kv && k.LogKey? :: kv[k].EntryValue? && kv[k].entry.index == k.index
  }

  /** `es` are the region's surviving log entries in index order. */
  ghost predicate Survivors(kv: Store, region: uint64, es: seq<Entry>) {
    && (forall i, j | 0 <= i < j < |es| :: es[i].index < es[j].index)
    && (forall i | 0 <= i < |es| :: HoldsEntry(kv, region, es[i].index, es[i]))
    && (forall i: uint64 | LogKey(region, i) in kv :: exists j :: 0 <= j < |es| && es[j].index == i)
  }

  /** The condition under which a restart keeps the log: the largest surviving index is the log's last, and the
      survivors that fill the cache have no hole. An empty engine only fits the initial log. */
  ghost predicate RestartSafe(es: seq<Entry>, log: Log) {
    if es != [] && es[|es| - 1].index > 0 then es[|es| - 1].index == log.Last() && Contiguous(Trim(es))
    else log.Last() == RAFT_INIT_LOG_INDEX
  }

  lemma SurvivorsAgree(kv: Store, region: uint64, m: Mem, log: Log, es: seq<Entry>)
    requires Represents(kv, region, m, log) && Survivors(kv, region, es)
    requires es != [] && es[|es| - 1].index == log.Last() && Contiguous(Trim(es))
    ensures CacheAgrees(Trim(es), log)
  {
    var cache := Trim(es);
    forall j | 0 <= j < |cache| && cache[j].index > log.truncIndex
      ensures log.Has(cache[j].index) && cache[j] == log.At(cache[j].index)
    {
      var e := es[|es| - |cache| + j];
      assert cache[j] == e && e.index <= es[|es| - 1].index;
      assert HoldsEntry(kv, region, e.index, e) && HoldsEntry(kv, region, e.index, log.At(e.index));
    }
  }

  /** A restart restores exactly the log that was there before, if and only if `RestartSafe`. */
  lemma RestartRestoresLog(kv: Store, region: uint64, m: Mem, log: Log, es: seq<Entry>)
    requires Represents(kv, region, m, log) && Survivors(kv, region, es) && StoredProgress(kv, region) == m.progress
    ensures Represents(kv, region, Recovered(kv, region, es), log) <==> RestartSafe(es, log)
  {
    if es != [] && es[|es| - 1].index > 0 {
      if RestartSafe(es, log) {
        SurvivorsAgree(kv, region, m, log, es);
      }
      assert Trim(es) != [] && Trim(es)[|Trim(es)| - 1] == es[|es| - 1];
    }
  }

  /** An entry that survives above the log's last index becomes the last index after a restart. */
  lemma StaleEntryReturns(kv: Store, region: uint64, log: Log, es: seq<Entry>, i: uint64)
    requires Survivors(kv, region, es) && LogKey(region, i) in kv && i > log.Last()
    ensures Recovered(kv, region, es).LastIndex() >= i
    ensures !Represents(kv, region, Recovered(kv, region, es), log)
  {
    LastSurvivor(kv, region, es, i);
    RecoveredLast(kv, region, es);
  }

  lemma LastSurvivor(kv: Store, region: uint64, es: seq<Entry>, i: uint64)
    requires Survivors(kv, region, es) && LogKey(region, i) in kv
    ensures es != [] && es[|es| - 1].index >= i
  {
    var j :| 0 <= j < |es| && es[j].index == i;
    assert j < |es| - 1 ==> es[j].index < es[|es| - 1].index;
  }

  lemma RecoveredLast(kv: Store, region: uint64, es: seq<Entry>)
    requires es != [] && es[|es| - 1].index > 0
    ensures Recovered(kv, region, es).LastIndex() == es[|es| - 1].index
  {
    var r := Recovered(kv, region, es);
    assert r.cache != [] && r.cache[|r.cache| - 1] == es[|es| - 1];
  }

  /** A batch that ends below the last index leaves the old suffix in the engine; no restart after it restores
      the log. */
  lemma OverwrittenSuffixReturns(kv: Store, region: uint64, m: Mem, log: Log, rd: Ready, es: seq<Entry>)
    requires Represents(kv, region, m, log) && log.Accepts(rd.entries) && rd.entries != []
    requires rd.entries[|rd.entries| - 1].index < log.Last()
    requires Survivors(AfterPuts(kv, PutsOf(region, rd)), region, es)
    ensures !Represents(AfterPuts(kv, PutsOf(region, rd)), region,
                        Recovered(AfterPuts(kv, PutsOf(region, rd)), region, es),
                        log.Append(rd.entries))
  {
    AppendWellFormed(log, rd.entries);
    var last: uint64 := log.Last();
    assert HoldsEntry(kv, region, last, log.At(last));
    ReadyWritesEntries(kv, region, rd, last);
    StaleEntryReturns(AfterPuts(kv, PutsOf(region, rd)), region, log.Append(rd.entries), es, last);
  }

  lemma TrimContiguous(es: seq<Entry>)
    requires Contiguous(es)
    ensures Contiguous(Trim(es))
  {
    var t := Trim(es);
    forall i | 0 <= i < |t| ensures t[i].index == t[0].index + i {
      assert t[i] == es[|es| - |t| + i] && t[0] == es[|es| - |t|];
    }
  }

  /** Without an overwritten suffix and without holes among the survivors, a restart restores any non-empty log. */
  lemma RestartAfterPlainAppends(kv: Store, region: uint64, m: Mem, log: Log, es: seq<Entry>)
    requires Represents(kv, region, m, log) && Survivors(kv, region, es) && StoredProgress(kv, region) == m.progress
    requires log.entries != [] && Contiguous(es)
    requires forall i | 0 <= i < |es| :: es[i].index <= log.Last()
    ensures Represents(kv, region, Recovered(kv, region, es), log)
  {
    TrimContiguous(es);
    LastSurvives(kv, region, log, es);
    RestartRestoresLog(kv, region, m, log, es);
  }

  lemma LastSurvives(kv: Store, region: uint64, log: Log, es: seq<Entry>)
    requires log.Last() <= MAX_UINT64 && EngineHolds(kv, region, log) && log.entries != [] && Survivors(kv, region, es)
    ensures es != [] && es[|es| - 1].index >= log.Last()
  {
    var last: uint64 := log.Last();
    assert HoldsEntry(kv, region, last, log.At(last));
    var j :| 0 <= j < |es| && es[j].index == last;
    assert j < |es| - 1 ==> es[j].index < es[|es| - 1].index;
  }

  // ----- The procedure -----

  /** A key in the region's log range names a log entry of the region. */
  lemma ScannedKey(kv: Store, region: uint64, b: Bytes)
    requires LogTyped(kv) && b in ByteView(kv) && InRange(b, RaftLogKey(region, 0), Some(RaftStateKey(region)))
    ensures var v := ByteView(kv)[b];
            v.EntryValue? && b == RaftLogKey(region, v.entry.index) && HoldsEntry(kv, region, v.entry.index, v.entry)
  {
    var k :| k in kv && Encode(k) == b;
    LogKeyRangeIsExact(region, k);
  }

  ghost predicate IsLogScan(kv: Store, region: uint64, s: seq<Pair<Value>>) {
    IsScan(ByteView(kv), RaftLogKey(region, 0), Some(RaftStateKey(region)), s)
  }

  /** Scanned values are entries in ascending index order. */
  lemma ScannedEntries(kv: Store, region: uint64, s: seq<Pair<Value>>)
    requires LogTyped(kv) && IsLogScan(kv, region, s)
    ensures forall i | 0 <= i < |s| :: s[i].value.EntryValue?
    ensures forall i, j | 0 <= i < j < |s| :: s[i].value.entry.index < s[j].value.entry.index
  {
    forall i | 0 <= i < |s| ensures s[i].value.EntryValue? && s[i].key == RaftLogKey(region, s[i].value.entry.index) {
      ScannedKey(kv, region, s[i].key);
    }
    forall i, j | 0 <= i < j < |s| ensures s[i].value.entry.index < s[j].value.entry.index {
      LogKeyOrder(region, s[i].value.entry.index, s[j].value.entry.index);
    }
  }

  /** Scanning the region's log range lists the survivors. */
  lemma ScanSurvives(kv: Store, region: uint64, s: seq<Pair<Value>>, es: seq<Entry>)
    requires LogTyped(kv) && IsLogScan(kv, region, s)
    requires |es| == |s| && forall i | 0 <= i < |s| :: s[i].value == EntryValue(es[i])
    ensures Survivors(kv, region, es)
  {
    ScannedEntries(kv, region, s);
    forall i | 0 <= i < |s| ensures s[i].key == RaftLogKey(region, es[i].index)
        && HoldsEntry(kv, region, es[i].index, es[i]) {
      ScannedKey(kv, region, s[i].key);
    }
    forall i, j | 0 <= i < j < |es| ensures es[i].index < es[j].index {
      assert s[i].value.entry.index < s[j].value.entry.index;
    }
    forall i: uint64 | LogKey(region, i) in kv ensures exists j :: 0 <= j < |es| && es[j].index == i {
      LogKeyRangeIsExact(region, LogKey(region, i));
      var j :| 0 <= j < |s| && s[j].key == RaftLogKey(region, i);
      EncodeInjective(LogKey(region, i), LogKey(region, es[j].index));
    }
  }

  /** The region's log entries in key order, and the largest index among them. */
  method ReadLog(kv: Store, region: uint64) returns (entries: seq<Entry>, lastIdx: uint64)
    requires LogTyped(kv)
    ensures Survivors(kv, region, entries)
    ensures lastIdx == if entries == [] then 0 else entries[|entries| - 1].index
  {
    var scan := Scan(ByteView(kv), RaftLogKey(region, 0), Some(RaftStateKey(region)));
    ScannedEntries(kv, region, scan);
    entries, lastIdx := Collect(scan);
    ScanSurvives(kv, region, scan, entries);
  }

  method Collect(scan: seq<Pair<Value>>) returns (entries: seq<Entry>, lastIdx: uint64)
    requires forall i | 0 <= i < |scan| :: scan[i].value.EntryValue?
    requires forall i, j | 0 <= i < j < |scan| :: scan[i].value.entry.index < scan[j].value.entry.index
    ensures |entries| == |scan| && forall i | 0 <= i < |scan| :: scan[i].value == EntryValue(entries[i])
    ensures lastIdx == if entries == [] then 0 else entries[|entries| - 1].index
  {
    lastIdx, entries := 0, [];
    for i := 0 to |scan|
      invariant |entries| == i && forall j | 0 <= j < i :: scan[j].value == EntryValue(entries[j])
      invariant lastIdx == if i == 0 then 0 else entries[i - 1].index
    {
      var entry := scan[i].value.entry;
      assert i > 0 ==> scan[i - 1].value.entry.index < entry.index;
      entries := entries + [entry];
      if entry.index > lastIdx {
        lastIdx := entry.index;
      }
    }
  }

  /** RecoverFromEngine: hard state, then all log entries in key order with the newest kept as cache, then the
      apply state. The memory of a new storage becomes the recovered one. */
  method RecoverFromEngine(s: Storage) returns (ghost es: seq<Entry>)
    requires LogTyped(s.engine.kv) && s.Memory() == Mem(HardState(0, 0, 0), INIT_PROGRESS, [], RAFT_INIT_LOG_INDEX)
    requires StateKey(s.region) in s.engine.kv ==> s.engine.kv[StateKey(s.region)].HardStateValue?
    modifies s
    ensures Survivors(s.engine.kv, s.region, es)
    ensures s.Memory() == Recovered(s.engine.kv, s.region, es)
  {
    var kv := s.engine.kv;
    if StateKey(s.region) in kv {
      s.hardState := kv[StateKey(s.region)].hs;
    }
    var entries, lastIdx := ReadLog(kv, s.region);
    es := entries;
    if lastIdx > 0 {
      s.persistedLastIndex := lastIdx;
      if |entries| > MAX_CACHE {
        entries := entries[|entries| - MAX_CACHE..];
      }
      s.entries := entries;
    }
    var k := ApplyKey(s.region);
    if k in kv && kv[k].RawValue? && |kv[k].raw| == 24 {
      s.applyState := ProgressFrom(kv[k].raw);
    }
  }

  /** PersistApplyState: what a restart will read back. */
  method PersistApplyState(s: Storage)
    requires s.Valid()
    modifies s.engine
    ensures s.Valid() && StoredProgress(s.engine.kv, s.region) == s.applyState
    ensures forall b | b != ApplyKey(s.region) :: SameAt(old(s.engine.kv), s.engine.kv, b)
  {
    ProgressRoundTrip(s.applyState);
    s.engine.kv := s.engine.kv[ApplyKey(s.region) := RawValue(ProgressBytes(s.applyState))];
    forall i: uint64 | s.log.Has(i) ensures HoldsEntry(s.engine.kv, s.region, i, s.log.At(i)) {
      assert HoldsEntry(old(s.engine.kv), s.region, i, s.log.At(i));
    }
  }
}
