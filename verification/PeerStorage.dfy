/** PeerStorage (internal/raftstore/storage.go): raft.Storage over an engine and a bounded entry cache.
    `log` is the abstract log that the object represents. */
module PeerStorage {
  import opened Bytes
  import opened KvEngine
  import opened RaftKeys
  import opened RaftLog

  datatype EntriesResult = Entries(entries: seq<Entry>) | InvalidRange | EntriesCompacted | EntriesUnavailable | Gap
  datatype TermResult = Term(term: uint64) | TermCompacted | TermUnavailable | TermGap

  ghost function TotalSize(es: seq<Entry>): nat {
    if es == [] then 0 else TotalSize(es[..|es| - 1]) + es[|es| - 1].size
  }

  /** `r` is the longest prefix of `es` within `maxSize`, but at least one entry if there is one;
      a zero `maxSize` means no limit. */
  ghost predicate IsLimited(es: seq<Entry>, maxSize: nat, r: seq<Entry>) {
    && r <= es
    && (es != [] ==> r != [])
    && (maxSize == 0 ==> r == es)
    && (maxSize > 0 && |r| > 1 ==> TotalSize(r) <= maxSize)
    && (|r| < |es| ==> TotalSize(es[..|r| + 1]) > maxSize)
  }

  method LimitSize(es: seq<Entry>, maxSize: nat) returns (r: seq<Entry>)
    ensures IsLimited(es, maxSize, r)
  {
    if maxSize == 0 || |es| == 0 {
      return es;
    }
    var size := 0;
    for i := 0 to |es|
      invariant size == TotalSize(es[..i])
      invariant i > 1 ==> size <= maxSize
    {
      assert es[..i + 1][..i] == es[..i];
      size := size + es[i].size;
      if size > maxSize && i > 0 {
        return es[..i];
      }
    }
    assert es[..|es|] == es;
    return es;
  }

  /** The shared engine. */
  class Engine {
    var kv: Store

    constructor ()
      ensures kv == map[]
    {
      kv := map[];
    }

    /** Commits a write batch atomically. */
    method Write(batch: seq<Put<LocalKey, Value>>)
      modifies this
      ensures kv == AfterPuts(old(kv), batch)
    {
      kv := AfterPuts(kv, batch);
    }
  }

  class Storage {
    const region: uint64
    const engine: Engine
    var hardState: HardState
    var applyState: Progress
    var entries: seq<Entry>
    var persistedLastIndex: uint64
    ghost var log: Log

    /** NewPeerStorage: an empty log truncated at the initial index. */
    constructor (region: uint64, engine: Engine)
      ensures Valid() && this.region == region && this.engine == engine
      ensures log == Log(RAFT_INIT_LOG_INDEX, RAFT_INIT_LOG_TERM, [])
    {
      this.region, this.engine := region, engine;
      hardState := HardState(0, 0, 0);
      applyState := Progress(RAFT_INIT_LOG_INDEX, RAFT_INIT_LOG_INDEX, RAFT_INIT_LOG_TERM);
      entries, persistedLastIndex := [], RAFT_INIT_LOG_INDEX;
      log := Log(RAFT_INIT_LOG_INDEX, RAFT_INIT_LOG_TERM, []);
    }

    function Memory(): Mem
      reads this
    {
      Mem(hardState, applyState, entries, persistedLastIndex)
    }

    ghost predicate Valid()
      reads this, engine
    {
      Represents(engine.kv, region, Memory(), log)
    }

    method FirstIndex() returns (i: int)
      requires Valid()
      ensures i == log.truncIndex + 1
    {
      i := applyState.truncIndex + 1;
    }

    method LastIndex() returns (i: int)
      requires Valid()
      ensures i == log.Last()
    {
      i := if |entries| > 0 then entries[|entries| - 1].index else persistedLastIndex;
    }

    /** readEntriesFromEngine: reads indices [lo, hi) one by one. */
    method ReadEntriesFromEngine(lo: uint64, hi: int) returns (r: EntriesResult)
      requires Valid() && log.truncIndex < lo <= hi <= log.Last() + 1
      ensures r == EntriesResult.Entries(log.Slice(lo, hi))
    {
      var es: seq<Entry> := [];
      var idx: int := lo;
      while idx < hi
        invariant lo <= idx <= hi
        invariant es == log.Slice(lo, idx)
      {
        var key := LogKey(region, idx);
        assert log.Has(idx) && HoldsEntry(engine.kv, region, idx, log.At(idx));
        if key !in engine.kv {
          if idx == lo {
            break;
          }
          return Gap;
        }
        es := es + [engine.kv[key].entry];
        idx := idx + 1;
      }
      return EntriesResult.Entries(es);
    }

    lemma CachedSlice(lo: uint64, hi: uint64)
      requires Valid() && entries != [] && log.truncIndex < lo
          && entries[0].index <= lo <= hi <= entries[|entries| - 1].index + 1
      ensures hi <= log.Last() + 1 && hi - entries[0].index <= |entries|
      ensures entries[lo - entries[0].index..hi - entries[0].index] == log.Slice(lo, hi)
    {
      var first := entries[0].index;
      assert entries[|entries| - 1].index == first + |entries| - 1;
      forall k | 0 <= k < hi - lo ensures entries[lo - first + k] == log.Slice(lo, hi)[k] {
        assert entries[lo - first + k].index == lo + k;
      }
    }

    /** Entries: the log's own slice up to the size limit, whether it comes from the cache or the engine;
        errors exactly for a range that is reversed, truncated or beyond the end. */
    method Entries(lo: uint64, hi: uint64, maxSize: nat) returns (r: EntriesResult)
      requires Valid()
      ensures lo > hi <==> r.InvalidRange?
      ensures r.EntriesCompacted? <==> lo <= hi && lo <= log.truncIndex
      ensures r.EntriesUnavailable? <==> log.truncIndex < lo <= hi && hi > log.Last() + 1
      ensures log.truncIndex < lo <= hi <= log.Last() + 1 ==>
          r.Entries? && IsLimited(log.Slice(lo, hi), maxSize, r.entries)
    {
      if lo > hi {
        return InvalidRange;
      }
      var first := FirstIndex();
      if lo < first {
        return EntriesCompacted;
      }
      var last := LastIndex();
      if hi > last + 1 {
        return EntriesUnavailable;
      }
      var slice := ReadRange(lo, hi);
      var es := LimitSize(slice, maxSize);
      return EntriesResult.Entries(es);
    }

    /** The log's slice, from the cache if it covers the range, else from the engine. */
    method ReadRange(lo: uint64, hi: uint64) returns (es: seq<Entry>)
      requires Valid() && log.truncIndex < lo <= hi <= log.Last() + 1
      ensures es == log.Slice(lo, hi)
    {
      if |entries| > 0 {
        var cacheFirst: int, cacheLast: int := entries[0].index, entries[|entries| - 1].index;
        if lo >= cacheFirst && hi <= cacheLast + 1 {
          CachedSlice(lo, hi);
          return entries[lo - cacheFirst..hi - cacheFirst];
        }
      }
      var r := ReadEntriesFromEngine(lo, hi);
      return r.entries;
    }

    /** Term: the log's own term, also at the truncation point. */
    method TermAt(i: uint64) returns (r: TermResult)
      requires Valid()
      ensures i < log.truncIndex <==> r.TermCompacted?
      ensures i > log.Last() <==> r.TermUnavailable?
      ensures i == log.truncIndex ==> r == Term(log.truncTerm)
      ensures log.Has(i) ==> r == Term(log.At(i).term)
    {
      if i == applyState.truncIndex {
        return Term(applyState.truncTerm);
      }
      var first := FirstIndex();
      if i < first {
        return TermCompacted;
      }
      var last := LastIndex();
      if i > last {
        return TermUnavailable;
      }
      if |entries| > 0 {
        var cacheFirst, cacheLast := entries[0].index, entries[|entries| - 1].index;
        if cacheFirst <= i <= cacheLast {
          assert entries[i - cacheFirst].index == i;
          return Term(entries[i - cacheFirst].term);
        }
      }
      var read := ReadEntriesFromEngine(i, i + 1);
      if |read.entries| == 0 {
        return TermUnavailable;
      }
      return Term(read.entries[0].term);
    }

    /** The write batch of a Ready, hard state first, then each entry under its log key. */
    method BuildPuts(rd: Ready) returns (batch: seq<Put<LocalKey, Value>>)
      ensures batch == PutsOf(region, rd)
    {
      batch := [];
      if !rd.hardState.IsEmpty() {
        batch := batch + [Put(StateKey(region), HardStateValue(rd.hardState))];
      }
      ghost var head := batch;
      for i := 0 to |rd.entries|
        invariant batch == head + EntryPuts(region, rd.entries)[..i]
      {
        batch := batch + [Put(LogKey(region, rd.entries[i].index), EntryValue(rd.entries[i]))];
      }
    }

    /** SaveReady: one atomic batch, then the memory. A failed commit leaves the log as it was, although the
        in-memory hard state has already moved. */
    method SaveReady(rd: Ready, commitSucceeds: bool) returns (ok: bool)
      requires Valid() && log.Accepts(rd.entries)
      modifies this, engine
      ensures Valid() && ok == commitSucceeds
      ensures ok ==> log == old(log).Append(rd.entries) && engine.kv == AfterPuts(old(engine.kv), PutsOf(region, rd))
      ensures ok ==> Memory() == old(Memory()).AfterReady(rd)
      ensures hardState == if rd.hardState != HardState(0, 0, 0) then rd.hardState else old(hardState)
      ensures ok && rd.hardState != HardState(0, 0, 0) ==>
                StateKey(region) in engine.kv && engine.kv[StateKey(region)] == HardStateValue(hardState)
      ensures !ok ==> log == old(log) && engine.kv == old(engine.kv)
      ensures !ok ==> Memory() == old(Memory()).(
          hardState := if rd.hardState.IsEmpty() then old(hardState) else rd.hardState)
    {
      if !rd.hardState.IsEmpty() {
        hardState := rd.hardState;
      }
      var batch := BuildPuts(rd);
      if !commitSucceeds {
        return false;
      }
      SaveRepresents(engine.kv, region, Memory(), log, rd);
      ReadyWritesHardState(engine.kv, region, rd, region);
      engine.Write(batch);
      UpdateAfterPersist(rd.entries);
      log := log.Append(rd.entries);
      return true;
    }

    /** The cache and the persisted index after entries have reached the engine. */
    method UpdateAfterPersist(es: seq<Entry>)
      modifies this`entries, this`persistedLastIndex
      ensures Memory() == old(Memory()).AfterReady(Ready(HardState(0, 0, 0), es))
    {
      if |es| > 0 {
        UpdateCache(es);
        var lastEntry := es[|es| - 1];
        if lastEntry.index > persistedLastIndex {
          persistedLastIndex := lastEntry.index;
        }
      }
    }

    /** appendToCache on the object's cache. */
    method UpdateCache(batch: seq<Entry>)
      requires batch != []
      modifies this`entries
      ensures entries == AppendToCache(old(entries), batch)
    {
      if |entries| == 0 {
        entries := entries + batch;
        return;
      }
      var first, cacheFirst := batch[0].index, entries[0].index;
      if first <= cacheFirst {
        entries := batch;
      } else {
        var keepTo := first - cacheFirst;
        if keepTo > |entries| {
          keepTo := |entries|;
        }
        entries := entries[..keepTo] + batch;
      }
      if |entries| > MAX_CACHE {
        entries := entries[|entries| - MAX_CACHE..];
      }
    }

    /** CompactTo shortens the cache only. The object keeps representing its log, and keeps reporting its last
        index, exactly when the cut stays at or below the last index or no overwritten suffix is left behind
        in the persisted index. */
    method CompactTo(compactTo: uint64)
      requires Valid()
      modifies this`entries
      ensures Memory() == old(Memory()).(cache := entries)
      ensures Memory().LastIndex() == old(log).Last() <==> old(CutIsSafe(compactTo))
      ensures old(CutIsSafe(compactTo)) ==> Valid()
      ensures |entries| <= |old(entries)| && entries == old(entries)[|old(entries)| - |entries|..]
      ensures forall j | 0 <= j < |old(entries)| ::
                j >= |old(entries)| - |entries| <==> old(entries)[j].index >= compactTo
    {
      if |entries| == 0 {
        return;
      }
      var cacheFirst := entries[0].index;
      if compactTo <= cacheFirst {
        return;
      }
      var offset := compactTo - cacheFirst;
      if offset >= |entries| {
        entries := [];
        return;
      }
      ghost var was := entries;
      entries := entries[offset..];
      assert forall j | 0 <= j < |entries| :: entries[j] == was[offset + j];
    }

    predicate CutIsSafe(compactTo: uint64)
      reads this
    {
      |entries| == 0 || compactTo <= entries[|entries| - 1].index || persistedLastIndex == entries[|entries| - 1].index
    }
  }
}
