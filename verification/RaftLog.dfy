/** The abstract Raft log of one region, and how an engine and a bounded cache represent it. */
module RaftLog {
  import opened Bytes
  import opened KvEngine
  import opened RaftKeys

  /** `size` is the entry's protobuf size. */
  datatype Entry = Entry(index: uint64, term: uint64, data: Bytes, size: nat)

  datatype HardState = HardState(term: uint64, vote: uint64, commit: uint64) {
    predicate IsEmpty() { term == 0 && vote == 0 && commit == 0 }
  }

  datatype Progress = Progress(applied: uint64, truncIndex: uint64, truncTerm: uint64)

  /** Values of the Raft column family; protobuf messages are kept as what they decode to. */
  datatype Value = EntryValue(entry: Entry) | HardStateValue(hs: HardState) | RawValue(raw: Bytes)

  type Store = LocalMap<Value>

  const MAX_CACHE := 1024
  const RAFT_INIT_LOG_INDEX: uint64 := 5
  const RAFT_INIT_LOG_TERM: uint64 := 5

  predicate Contiguous(es: seq<Entry>) {
    forall i | 0 <= i < |es| :: es[i].index == es[0].index + i
  }

  /** The entries above a truncation point. */
  datatype Log = Log(truncIndex: uint64, truncTerm: uint64, entries: seq<Entry>) {
    ghost predicate WellFormed() {
      forall i | 0 <= i < |entries| :: entries[i].index == truncIndex + 1 + i
    }

    function Last(): nat { truncIndex + |entries| }

    predicate Has(i: int) { truncIndex < i <= Last() }

    function At(i: int): Entry
      requires Has(i)
    {
      entries[i - truncIndex - 1]
    }

    function Slice(lo: int, hi: int): seq<Entry>
      requires truncIndex < lo <= hi <= Last() + 1
    {
      entries[lo - truncIndex - 1..hi - truncIndex - 1]
    }

    /** A batch that starts above the truncation point and leaves no gap. */
    predicate Accepts(batch: seq<Entry>) {
      Contiguous(batch) && (batch != [] ==> truncIndex < batch[0].index <= Last() + 1)
    }

    /** The batch replaces everything from its first index on. */
    function Append(batch: seq<Entry>): Log
      requires Accepts(batch)
    {
      if batch == [] then this
      else Log(truncIndex, truncTerm, entries[..batch[0].index - truncIndex - 1] + batch)
    }

    /** Drops the entries up to `i`. */
    function Truncate(i: uint64, term: uint64): Log
      requires Has(i)
    {
      Log(i, term, entries[i - truncIndex..])
    }
  }

  // ----- The cache -----

  function Trim(es: seq<Entry>): seq<Entry> {
    if |es| > MAX_CACHE then es[|es| - MAX_CACHE..] else es
  }

  /** appendToCache: overlapping cache entries are dropped, then the oldest beyond the limit. */
  function AppendToCache(cache: seq<Entry>, batch: seq<Entry>): seq<Entry>
    requires batch != []
  {
    if cache == [] then batch
    else if batch[0].index <= cache[0].index then Trim(batch)
    else
      var keepTo := batch[0].index - cache[0].index;
      Trim(cache[..if keepTo > |cache| then |cache| else keepTo] + batch)
  }

  /** The memory of one region's storage. */
  datatype Mem = Mem(hardState: HardState, progress: Progress, cache: seq<Entry>, persistedLast: uint64) {
    function LastIndex(): uint64 {
      if cache != [] then cache[|cache| - 1].index else persistedLast
    }

    /** Memory after a Ready has been persisted. */
    function AfterReady(rd: Ready): Mem {
      Mem(if rd.hardState.IsEmpty() then hardState else rd.hardState,
          progress,
          if rd.entries == [] then cache else AppendToCache(cache, rd.entries),
          if rd.entries != [] && rd.entries[|rd.entries| - 1].index > persistedLast
          then rd.entries[|rd.entries| - 1].index else persistedLast)
    }
  }

  /** The persistent part of a raft.Ready. */
  datatype Ready = Ready(hardState: HardState, entries: seq<Entry>)

  function EntryPuts(region: uint64, es: seq<Entry>): (ps: seq<Put<LocalKey, Value>>)
    ensures |ps| == |es|
  {
    seq(|es|, i requires 0 <= i < |es| => Put(LogKey(region, es[i].index), EntryValue(es[i])))
  }

  /** The write batch of a Ready. */
  function PutsOf(region: uint64, rd: Ready): seq<Put<LocalKey, Value>> {
    (if rd.hardState.IsEmpty() then [] else [Put(StateKey(region), HardStateValue(rd.hardState))])
    + EntryPuts(region, rd.entries)
  }

  // ----- Representation -----

  ghost predicate EngineHolds(kv: Store, region: uint64, log: Log)
    requires log.Last() <= MAX_UINT64
  {
    forall i: uint64 | log.Has(i) :: HoldsEntry(kv, region, i, log.At(i))
  }

  predicate HoldsEntry(kv: Store, region: uint64, i: uint64, e: Entry) {
    LogKey(region, i) in kv && kv[LogKey(region, i)] == EntryValue(e)
  }

  /** The cache ends where the log ends and agrees with it; it may also hold older entries. */
  ghost predicate CacheAgrees(cache: seq<Entry>, log: Log) {
    && Contiguous(cache)
    && (cache != [] ==> cache[|cache| - 1].index == log.Last())
    && (forall j | 0 <= j < |cache| && cache[j].index > log.truncIndex ::
          log.Has(cache[j].index) && cache[j] == log.At(cache[j].index))
  }

  ghost predicate Represents(kv: Store, region: uint64, m: Mem, log: Log) {
    && log.WellFormed() && log.Last() <= MAX_UINT64
    && m.progress.truncIndex == log.truncIndex && m.progress.truncTerm == log.truncTerm
    && EngineHolds(kv, region, log)
    && CacheAgrees(m.cache, log)
    && m.persistedLast >= log.Last() && (m.cache == [] ==> m.persistedLast == log.Last())
  }

  lemma TrimAgrees(cache: seq<Entry>, log: Log)
    requires CacheAgrees(cache, log)
    ensures CacheAgrees(Trim(cache), log)
  {
    if |cache| > MAX_CACHE {
      var t := Trim(cache);
      forall j | 0 <= j < |t| ensures t[j].index == t[0].index + j {
        assert t[j] == cache[|cache| - MAX_CACHE + j];
      }
    }
  }

  /** Appending keeps the log well-formed, with the batch at its end. */
  lemma AppendWellFormed(log: Log, batch: seq<Entry>)
    requires log.WellFormed() && log.Accepts(batch) && batch != []
    ensures log.Append(batch).WellFormed()
        && log.Append(batch).Last() == batch[|batch| - 1].index == batch[0].index + |batch| - 1
  {
    assert batch[|batch| - 1].index == batch[0].index + |batch| - 1;
  }

  lemma AppendAt(log: Log, batch: seq<Entry>, i: int)
    requires log.WellFormed() && log.Accepts(batch) && batch != [] && log.truncIndex < i < batch[0].index + |batch|
    ensures log.Append(batch).Has(i)
    ensures i < batch[0].index ==> log.Has(i)
    ensures log.Append(batch).At(i) == if i < batch[0].index then log.At(i) else batch[i - batch[0].index]
  {
    AppendWellFormed(log, batch);
  }

  lemma BatchAgrees(log: Log, batch: seq<Entry>)
    requires log.WellFormed() && log.Accepts(batch) && batch != []
    ensures CacheAgrees(batch, log.Append(batch))
  {
    AppendWellFormed(log, batch);
    forall j | 0 <= j < |batch| ensures log.Append(batch).Has(batch[j].index)
        && batch[j] == log.Append(batch).At(batch[j].index) {
      AppendAt(log, batch, batch[j].index);
    }
  }

  lemma JoinedAgrees(cache: seq<Entry>, log: Log, batch: seq<Entry>)
    requires log.WellFormed() && CacheAgrees(cache, log) && log.Accepts(batch) && batch != []
    requires cache != [] && cache[0].index < batch[0].index
    ensures batch[0].index - cache[0].index <= |cache|
    ensures CacheAgrees(cache[..batch[0].index - cache[0].index] + batch, log.Append(batch))
  {
    var keepTo := batch[0].index - cache[0].index;
    assert cache[|cache| - 1].index == cache[0].index + |cache| - 1;
    var joined, l := cache[..keepTo] + batch, log.Append(batch);
    AppendWellFormed(log, batch);
    forall j | 0 <= j < |joined| ensures joined[j].index == joined[0].index + j {
    }
    forall j | 0 <= j < |joined| && joined[j].index > l.truncIndex
        ensures l.Has(joined[j].index) && joined[j] == l.At(joined[j].index) {
      AppendAt(log, batch, joined[j].index);
    }
  }

  lemma AppendedCacheAgrees(cache: seq<Entry>, log: Log, batch: seq<Entry>)
    requires log.WellFormed() && CacheAgrees(cache, log) && log.Accepts(batch) && batch != []
    ensures CacheAgrees(AppendToCache(cache, batch), log.Append(batch))
  {
    if cache == [] || batch[0].index <= cache[0].index {
      BatchAgrees(log, batch);
      TrimAgrees(batch, log.Append(batch));
    } else {
      JoinedAgrees(cache, log, batch);
      TrimAgrees(cache[..batch[0].index - cache[0].index] + batch, log.Append(batch));
    }
  }

  /** The cache keeps its entries below the batch and takes the whole batch, except that only the newest 1024 indices
      stay. A batch that finds the cache empty is taken whole. */
  lemma NewestAreCached(cache: seq<Entry>, batch: seq<Entry>, e: Entry)
    requires Contiguous(cache) && Contiguous(batch) && batch != []
    requires cache != [] ==> batch[0].index <= cache[|cache| - 1].index + 1
    ensures e in AppendToCache(cache, batch) <==>
              && (e in batch || (e in cache && e.index < batch[0].index))
              && (cache == [] || batch[|batch| - 1].index < e.index + 1024)
  {
    if cache != [] {
      var keepTo := batch[0].index - cache[0].index;
      var joined := if keepTo <= 0 then batch else cache[..keepTo] + batch;
      assert keepTo <= |cache| && cache[|cache| - 1].index == cache[0].index + |cache| - 1;
      BelowIsKept(cache, batch, e);
      TrimmedExactly(joined, e);
    }
  }

  lemma BelowIsKept(cache: seq<Entry>, batch: seq<Entry>, e: Entry)
    requires Contiguous(cache) && Contiguous(batch) && batch != [] && cache != []
    requires batch[0].index - cache[0].index <= |cache|
    ensures var keepTo := batch[0].index - cache[0].index;
            var joined := if keepTo <= 0 then batch else cache[..keepTo] + batch;
            && Contiguous(joined) && joined != [] && joined[|joined| - 1] == batch[|batch| - 1]
            && (e in joined <==> e in batch || (e in cache && e.index < batch[0].index))
  {
  }

  lemma TrimmedExactly(es: seq<Entry>, e: Entry)
    requires Contiguous(es) && es != []
    ensures e in Trim(es) <==> e in es && es[|es| - 1].index < e.index + 1024
  {
    if e in es {
      var i :| 0 <= i < |es| && es[i] == e;
      assert i >= |es| - MAX_CACHE && |es| > MAX_CACHE ==> Trim(es)[i - (|es| - MAX_CACHE)] == e;
    }
  }

  /** Under the log key `i` the batch has left its own entry, or what was there before. */
  ghost predicate WroteAt(kv: Store, after: Store, region: uint64, es: seq<Entry>, i: uint64) {
    if es != [] && es[0].index <= i < es[0].index + |es| then HoldsEntry(after, region, i, es[i - es[0].index])
    else SameAt(kv, after, LogKey(region, i))
  }

  ghost predicate SameAt(kv: Store, after: Store, k: LocalKey) {
    (k in after <==> k in kv) && (k in kv ==> after[k] == kv[k])
  }

  /** A Ready of the region writes its entries, and nothing else under the region's log keys. */
  lemma ReadyWritesEntries(kv: Store, region: uint64, rd: Ready, i: uint64)
    requires Contiguous(rd.entries)
    ensures WroteAt(kv, AfterPuts(kv, PutsOf(region, rd)), region, rd.entries, i)
  {
    var ps, es := PutsOf(region, rd), rd.entries;
    PutKeys(region, rd);
    if es != [] && es[0].index <= i < es[0].index + |es| {
      EntryIsWritten(kv, region, ps, es, i);
    } else {
      var n := |ps| - |es|;
      UnwrittenIsKept(kv, ps, LogKey(region, i));
    }
  }

  lemma EntryIsWritten(kv: Store, region: uint64, ps: seq<Put<LocalKey, Value>>, es: seq<Entry>, i: uint64)
    requires Contiguous(es) && es != [] && es[0].index <= i < es[0].index + |es| && |ps| >= |es|
    requires forall k | |ps| - |es| <= k < |ps| ::
               ps[k] == Put(LogKey(region, es[k - (|ps| - |es|)].index), EntryValue(es[k - (|ps| - |es|)]))
    ensures HoldsEntry(AfterPuts(kv, ps), region, i, es[i - es[0].index])
  {
    var n := |ps| - |es|;
    var j := n + (i - es[0].index);
    assert es[j - n].index == i;
    LastPutWins(kv, ps, j);
  }

  /** The keys a Ready writes: at most the state key, then one log key per entry. */
  lemma PutKeys(region: uint64, rd: Ready)
    ensures var ps, es := PutsOf(region, rd), rd.entries;
            var n := |ps| - |es|;
            && 0 <= n <= 1
            && (forall k | 0 <= k < n :: ps[k].key == StateKey(region))
            && (forall k | n <= k < |ps| :: ps[k] == Put(LogKey(region, es[k - n].index), EntryValue(es[k - n])))
  {
  }

  /** A Ready writes its whole hard state under its region's state key, unless it carries none, and under no other. */
  lemma ReadyWritesHardState(kv: Store, region: uint64, rd: Ready, q: uint64)
    ensures var after := AfterPuts(kv, PutsOf(region, rd));
            if q == region && rd.hardState != HardState(0, 0, 0)
            then StateKey(q) in after && after[StateKey(q)] == HardStateValue(rd.hardState)
            else SameAt(kv, after, StateKey(q))
  {
    var ps := PutsOf(region, rd);
    PutKeys(region, rd);
    if q == region && rd.hardState != HardState(0, 0, 0) {
      LastPutWins(kv, ps, 0);
    } else {
      UnwrittenIsKept(kv, ps, StateKey(q));
    }
  }

  lemma SaveKeepsEngine(kv: Store, after: Store, region: uint64, log: Log, es: seq<Entry>)
    requires log.WellFormed() && log.Last() <= MAX_UINT64 && EngineHolds(kv, region, log) && log.Accepts(es)
    requires forall i: uint64 :: WroteAt(kv, after, region, es, i)
    ensures log.Append(es).Last() <= MAX_UINT64 && EngineHolds(after, region, log.Append(es))
  {
    var l := log.Append(es);
    if es != [] {
      AppendWellFormed(log, es);
    }
    forall i: uint64 | l.Has(i) ensures HoldsEntry(after, region, i, l.At(i)) {
      assert WroteAt(kv, after, region, es, i);
      if es != [] {
        AppendAt(log, es, i);
      }
      if log.Has(i) {
        assert HoldsEntry(kv, region, i, log.At(i));
      }
    }
  }

  /** Saving a Ready, whatever it overwrites and however the cache is trimmed, represents the log with the
      batch appended. */
  lemma SaveRepresents(kv: Store, region: uint64, m: Mem, log: Log, rd: Ready)
    requires Represents(kv, region, m, log) && log.Accepts(rd.entries)
    ensures Represents(AfterPuts(kv, PutsOf(region, rd)), region, m.AfterReady(rd), log.Append(rd.entries))
  {
    var after := AfterPuts(kv, PutsOf(region, rd));
    forall i: uint64 ensures WroteAt(kv, after, region, rd.entries, i) {
      ReadyWritesEntries(kv, region, rd, i);
    }
    SaveKeepsEngine(kv, after, region, log, rd.entries);
    if rd.entries != [] {
      AppendWellFormed(log, rd.entries);
      AppendedCacheAgrees(m.cache, log, rd.entries);
    }
  }

  /** A Ready of one region leaves the representation of every other region's log alone. */
  lemma OtherRegionKept(kv: Store, region: uint64, rd: Ready, other: uint64, m: Mem, log: Log)
    requires region != other && Represents(kv, other, m, log)
    ensures Represents(AfterPuts(kv, PutsOf(region, rd)), other, m, log)
  {
    var after, ps := AfterPuts(kv, PutsOf(region, rd)), PutsOf(region, rd);
    var n := |ps| - |rd.entries|;
    PutKeys(region, rd);
    forall i: uint64 | log.Has(i) ensures HoldsEntry(after, other, i, log.At(i)) {
      assert HoldsEntry(kv, other, i, log.At(i));
      UnwrittenIsKept(kv, ps, LogKey(other, i));
    }
  }
}
