/** The client's cache of regions (pkg/client/region_cache.go): a slice sorted by start key with an index by region ID.
    Every operation keeps the ranges disjoint and the index exact, except the replacement of a cached ID by a range that
    does not fit its slot. */
module RegionCache {
  import opened Bytes
  import opened MemComparable

  /** A cached region; an empty end key means no upper bound. */
  datatype Region = Region(id: nat, start: Bytes, end: Bytes, leader: nat, addr: string)

  predicate Contains(r: Region, key: Bytes) {
    Le(r.start, key) && (r.end == [] || Lt(key, r.end))
  }

  predicate NonEmpty(r: Region) {
    r.end == [] || Lt(r.start, r.end)
  }

  /** `a` ends where `b` starts, or before. */
  predicate Before(a: Region, b: Region) {
    a.end != [] && Le(a.end, b.start)
  }

  /** regionsOverlap. */
  predicate RegionsOverlap(a: Region, b: Region) {
    if b.end != [] && Le(b.end, a.start) then false
    else if a.end != [] && Le(a.end, b.start) then false
    else true
  }

  /** The comparison of bounds decides whether two ranges share a key. */
  lemma OverlapMeansSharedKey(a: Region, b: Region)
    requires NonEmpty(a) && NonEmpty(b)
    ensures RegionsOverlap(a, b) <==> exists k :: Contains(a, k) && Contains(b, k)
    ensures !RegionsOverlap(a, b) <==> Before(a, b) || Before(b, a)
  {
    if RegionsOverlap(a, b) {
      LtTrichotomy(a.start, b.start);
      LtIrreflexive(a.start);
      LtIrreflexive(b.start);
      if Lt(a.start, b.start) {
        LtAsymmetric(a.start, b.start);
        assert Contains(a, b.start) && Contains(b, b.start);
      } else {
        assert Contains(a, a.start) && Contains(b, a.start);
      }
    }
    if k :| Contains(a, k) && Contains(b, k) {
      BeforeExcludes(a, b, k);
      BeforeExcludes(b, a, k);
    }
  }

  /** Ranges one before the other share no key. */
  lemma BeforeExcludes(a: Region, b: Region, k: Bytes)
    ensures !(Before(a, b) && Contains(a, k) && Contains(b, k))
  {
    if Before(a, b) && Contains(a, k) && Contains(b, k) {
      LtLeTransitive(k, a.end, b.start);
    }
  }

  lemma BeforeIsStrict(a: Region, b: Region)
    requires Before(a, b) && NonEmpty(a)
    ensures Lt(a.start, b.start) && Le(a.start, b.start)
  {
    LtLeTransitive(a.start, a.end, b.start);
    LtAsymmetric(a.start, b.start);
  }

  lemma BeforeTransitive(a: Region, b: Region, c: Region)
    requires Before(a, b) && NonEmpty(b) && Before(b, c)
    ensures Before(a, c)
  {
    LeLtTransitive(a.end, b.start, b.end);
    LtLeTransitive(a.end, b.end, c.start);
    LtAsymmetric(a.end, c.start);
  }

  // ----- The slice -----

  ghost predicate Sorted(rs: seq<Region>) {
    forall i, j | 0 <= i < j < |rs| :: Before(rs[i], rs[j])
  }

  ghost predicate AllNonEmpty(rs: seq<Region>) {
    forall i | 0 <= i < |rs| :: NonEmpty(rs[i])
  }

  ghost predicate DistinctIDs(rs: seq<Region>) {
    forall i, j | 0 <= i < j < |rs| :: rs[i].id != rs[j].id
  }

  ghost predicate WellFormed(rs: seq<Region>) {
    Sorted(rs) && AllNonEmpty(rs) && DistinctIDs(rs)
  }

  /** The simple lookup: the first region that contains the key. */
  function LinearFind(rs: seq<Region>, key: Bytes): Option<Region> {
    if rs == [] then None else if Contains(rs[0], key) then Some(rs[0]) else LinearFind(rs[1..], key)
  }

  lemma {:induction false} LinearFindOnly(rs: seq<Region>, key: Bytes, i: nat)
    requires i < |rs| && Contains(rs[i], key) && forall j | 0 <= j < |rs| && j != i :: !Contains(rs[j], key)
    ensures LinearFind(rs, key) == Some(rs[i])
  {
    if i > 0 {
      LinearFindOnly(rs[1..], key, i - 1);
    }
  }

  lemma {:induction false} LinearFindIs(rs: seq<Region>, key: Bytes)
    requires LinearFind(rs, key).Some?
    ensures exists i :: 0 <= i < |rs| && Contains(rs[i], key)
  {
    if Contains(rs[0], key) {
    } else {
      LinearFindIs(rs[1..], key);
      var i :| 0 <= i < |rs[1..]| && Contains(rs[1..][i], key);
      assert Contains(rs[i + 1], key);
    }
  }

  lemma {:induction false} LinearFindNone(rs: seq<Region>, key: Bytes)
    requires forall j | 0 <= j < |rs| :: !Contains(rs[j], key)
    ensures LinearFind(rs, key) == None
  {
    if rs != [] {
      LinearFindNone(rs[1..], key);
    }
  }

  /** sort.Search for the first region that starts after `key`. */
  method SearchAfter(rs: seq<Region>, key: Bytes) returns (idx: nat)
    requires Sorted(rs) && AllNonEmpty(rs)
    ensures idx <= |rs|
    ensures forall i | 0 <= i < idx :: Le(rs[i].start, key)
    ensures forall i | idx <= i < |rs| :: Lt(key, rs[i].start)
  {
    var lo, hi := 0, |rs|;
    while lo < hi
      invariant 0 <= lo <= hi <= |rs|
      invariant forall i | 0 <= i < lo :: Le(rs[i].start, key)
      invariant forall i | hi <= i < |rs| :: Lt(key, rs[i].start)
    {
      var mid := (lo + hi) / 2;
      if Lt(key, rs[mid].start) {
        forall i | mid <= i < hi ensures Lt(key, rs[i].start) {
          if mid < i {
            BeforeIsStrict(rs[mid], rs[i]);
            LtTransitive(key, rs[mid].start, rs[i].start);
          }
        }
        hi := mid;
      } else {
        forall i | lo <= i <= mid ensures Le(rs[i].start, key) {
          if i < mid {
            BeforeIsStrict(rs[i], rs[mid]);
            LeTransitive(rs[i].start, rs[mid].start, key);
          }
        }
        lo := mid + 1;
      }
    }
    return lo;
  }

  /** No region left of the last one starting at or before the key, and none after it, contains the key. */
  lemma OnlyCandidate(rs: seq<Region>, key: Bytes, idx: nat, j: nat)
    requires Sorted(rs) && 0 < idx <= |rs| && j < |rs| && j != idx - 1
    requires Le(rs[idx - 1].start, key) && forall i | idx <= i < |rs| :: Lt(key, rs[i].start)
    ensures !Contains(rs[j], key)
  {
    if j < idx - 1 && Contains(rs[j], key) {
      LtLeTransitive(key, rs[j].end, rs[idx - 1].start);
    }
  }

  /** findInCache: binary search finds what the simple lookup finds. */
  method FindInCache(rs: seq<Region>, key: Bytes) returns (r: Option<Region>)
    requires Sorted(rs) && AllNonEmpty(rs)
    ensures r == LinearFind(rs, key)
    ensures r.Some? ==> r.value in rs && Contains(r.value, key)
    ensures r.None? ==> forall i | 0 <= i < |rs| :: !Contains(rs[i], key)
  {
    if |rs| == 0 {
      return None;
    }
    var idx := SearchAfter(rs, key);
    if idx == 0 {
      LinearFindNone(rs, key);
      return None;
    }
    forall j | 0 <= j < |rs| && j != idx - 1 ensures !Contains(rs[j], key) {
      OnlyCandidate(rs, key, idx, j);
    }
    var info := rs[idx - 1];
    if info.end != [] && !Lt(key, info.end) {
      LinearFindNone(rs, key);
      return None;
    }
    LinearFindOnly(rs, key, idx - 1);
    return Some(info);
  }

  // ----- Eviction and insertion -----

  /** The regions that do not overlap `info`, in order. */
  function Kept(rs: seq<Region>, info: Region): (ks: seq<Region>)
    ensures forall r :: r in ks <==> r in rs && !RegionsOverlap(r, info)
  {
    if rs == [] then []
    else
      var r := rs[|rs| - 1];
      assert forall x :: x in rs <==> x in rs[..|rs| - 1] || x == r;
      Kept(rs[..|rs| - 1], info) + (if RegionsOverlap(r, info) then [] else [r])
  }

  lemma {:induction false} KeptWellFormed(rs: seq<Region>, info: Region)
    requires WellFormed(rs)
    ensures WellFormed(Kept(rs, info))
  {
    if rs != [] {
      var init, r := rs[..|rs| - 1], rs[|rs| - 1];
      KeptWellFormed(init, info);
      var ks := Kept(init, info);
      forall i | 0 <= i < |ks| ensures Before(ks[i], r) && ks[i].id != r.id {
        assert ks[i] in init;
      }
    }
  }

  function Inserted(ks: seq<Region>, pos: nat, info: Region): (ns: seq<Region>)
    requires pos <= |ks|
    ensures |ns| == |ks| + 1
    ensures forall i | 0 <= i < |ns| :: ns[i] == if i < pos then ks[i] else if i == pos then info else ks[i - 1]
  {
    ks[..pos] + [info] + ks[pos..]
  }

  /** A region that overlaps none has those that start no later before it and the others after it. */
  lemma DisjointIsOrdered(r: Region, info: Region)
    requires NonEmpty(r) && NonEmpty(info) && !RegionsOverlap(r, info)
    ensures Le(r.start, info.start) ==> Before(r, info)
    ensures Lt(info.start, r.start) ==> Before(info, r)
  {
    OverlapMeansSharedKey(r, info);
    if Before(info, r) {
      BeforeIsStrict(info, r);
    } else {
      BeforeIsStrict(r, info);
    }
  }

  lemma InsertSorted(ks: seq<Region>, pos: nat, info: Region)
    requires Sorted(ks) && pos <= |ks|
    requires forall i | 0 <= i < pos :: Before(ks[i], info)
    requires forall i | pos <= i < |ks| :: Before(info, ks[i])
    ensures Sorted(Inserted(ks, pos, info))
  {
  }

  lemma InsertMembers(ks: seq<Region>, pos: nat, info: Region)
    requires pos <= |ks|
    ensures forall r :: r in Inserted(ks, pos, info) <==> r == info || r in ks
  {
    forall r ensures r in Inserted(ks, pos, info) <==> r == info || r in ks {
      assert ks == ks[..pos] + ks[pos..];
    }
  }

  /** Inserting behind the last region that starts no later keeps everything in order. */
  lemma InsertWellFormed(ks: seq<Region>, pos: nat, info: Region)
    requires WellFormed(ks) && NonEmpty(info) && pos <= |ks|
    requires forall i | 0 <= i < |ks| :: !RegionsOverlap(ks[i], info) && ks[i].id != info.id
    requires forall i | 0 <= i < pos :: Le(ks[i].start, info.start)
    requires forall i | pos <= i < |ks| :: Lt(info.start, ks[i].start)
    ensures WellFormed(Inserted(ks, pos, info))
  {
    forall i | 0 <= i < pos ensures Before(ks[i], info) {
      DisjointIsOrdered(ks[i], info);
    }
    forall i | pos <= i < |ks| ensures Before(info, ks[i]) {
      DisjointIsOrdered(ks[i], info);
    }
    InsertSorted(ks, pos, info);
  }

  method Evict(rs: seq<Region>, info: Region) returns (kept: seq<Region>)
    ensures kept == Kept(rs, info)
  {
    kept := [];
    for i := 0 to |rs|
      invariant kept == Kept(rs[..i], info)
    {
      assert rs[..i + 1][..i] == rs[..i];
      if !RegionsOverlap(rs[i], info) {
        kept := kept + [rs[i]];
      }
    }
    assert rs[..|rs|] == rs;
  }

  // ----- Removal -----

  function Removed(rs: seq<Region>, idx: nat): (ns: seq<Region>)
    requires idx < |rs|
    ensures |ns| == |rs| - 1
    ensures forall i | 0 <= i < |ns| :: ns[i] == if i < idx then rs[i] else rs[i + 1]
  {
    rs[..idx] + rs[idx + 1..]
  }

  lemma RemovedWellFormed(rs: seq<Region>, idx: nat)
    requires WellFormed(rs) && idx < |rs|
    ensures WellFormed(Removed(rs, idx))
  {
  }

  lemma RemovedMembers(rs: seq<Region>, idx: nat)
    requires DistinctIDs(rs) && idx < |rs|
    ensures forall r :: r in Removed(rs, idx) <==> r in rs && r.id != rs[idx].id
  {
    forall r | r in rs && r.id != rs[idx].id ensures r in Removed(rs, idx) {
      var i :| 0 <= i < |rs| && rs[i] == r;
      assert Removed(rs, idx)[if i < idx then i else i - 1] == r;
    }
  }

  // ----- Replacement -----

  /** The new range fits between the neighbours of slot `idx`. */
  ghost predicate SlotFits(rs: seq<Region>, idx: nat, info: Region) {
    && (0 < idx <= |rs| ==> Before(rs[idx - 1], info))
    && (idx + 1 < |rs| ==> Before(info, rs[idx + 1]))
  }

  /** Replacing a region keeps the slice well-formed exactly when the new range fits its slot. */
  lemma ReplaceWellFormedExactly(rs: seq<Region>, idx: nat, info: Region)
    requires WellFormed(rs) && idx < |rs| && NonEmpty(info) && info.id == rs[idx].id
    ensures WellFormed(rs[idx := info]) <==> SlotFits(rs, idx, info)
  {
    var ns := rs[idx := info];
    if SlotFits(rs, idx, info) {
      forall i | 0 <= i < idx ensures Before(ns[i], info) {
        if i < idx - 1 {
          BeforeTransitive(rs[i], rs[idx - 1], info);
        }
      }
      forall i | idx < i < |rs| ensures Before(info, ns[i]) {
        if idx + 1 < i {
          BeforeTransitive(info, rs[idx + 1], rs[i]);
        }
      }
    }
    if WellFormed(ns) {
      assert idx > 0 ==> Before(ns[idx - 1], ns[idx]);
      assert idx + 1 < |rs| ==> Before(ns[idx], ns[idx + 1]);
    }
  }

  /** A range that lies inside the one it replaces always fits, as after a split. */
  lemma ShrunkRangeFits(rs: seq<Region>, idx: nat, info: Region)
    requires WellFormed(rs) && idx < |rs| && NonEmpty(info)
    requires forall k | Contains(info, k) :: Contains(rs[idx], k)
    ensures SlotFits(rs, idx, info)
  {
    LtIrreflexive(info.start);
    assert Contains(info, info.start);
    if 0 < idx {
      var prev := rs[idx - 1];
      assert Before(prev, rs[idx]);
      LeTransitive(prev.end, rs[idx].start, info.start);
    }
    if idx + 1 < |rs| {
      ShrunkEnd(rs[idx], info, rs[idx + 1]);
    }
  }

  lemma ShrunkEnd(r: Region, info: Region, next: Region)
    requires Before(r, next) && NonEmpty(info)
    requires forall k | Contains(info, k) :: Contains(r, k)
    ensures Before(info, next)
  {
    var k := if Lt(r.end, info.start) then info.start else r.end;
    LtIrreflexive(r.end);
    LtIrreflexive(info.start);
    assert !Contains(r, k) by {
      if Lt(r.end, info.start) && Lt(k, r.end) {
        LtTransitive(r.end, k, r.end);
      }
    }
    assert !Contains(info, k);
    assert info.end != [] && Le(info.end, r.end) by {
      if Lt(r.end, info.start) {
        assert Contains(info, info.start);
      }
    }
    LeTransitive(info.end, r.end, next.start);
  }

  /** A region that grew over its neighbour, as after a merge, leaves two cached regions for the same key. */
  lemma GrownRangeOverlaps()
    ensures var rs := [Region(1, [1], [2], 0, ""), Region(2, [2], [3], 0, "")];
            var info := Region(1, [1], [3], 0, "");
            WellFormed(rs) && NonEmpty(info) && !SlotFits(rs, 0, info) && !WellFormed(rs[0 := info])
            && Contains(rs[0 := info][0], [2]) && Contains(rs[0 := info][1], [2])
  {
    var rs := [Region(1, [1], [2], 0, ""), Region(2, [2], [3], 0, "")];
    var info := Region(1, [1], [3], 0, "");
    assert Lt([1], [2]) && Lt([2], [3]) && Lt([1], [3]) && !Lt([2], [2]) && !Lt([2], [1]);
    assert !Before(info, rs[1]);
    ReplaceWellFormedExactly(rs, 0, info);
  }

  // ----- The cache -----

  ghost predicate IndexExact(rs: seq<Region>, byID: map<nat, nat>) {
    && (forall i | 0 <= i < |rs| :: rs[i].id in byID && byID[rs[i].id] == i)
    && (forall id | id in byID :: byID[id] < |rs| && rs[byID[id]].id == id)
  }

  class Cache {
    var regions: seq<Region>
    var byID: map<nat, nat>

    ghost predicate Valid()
      reads this
    {
      WellFormed(regions) && IndexExact(regions, byID)
    }

    constructor ()
      ensures Valid() && regions == []
    {
      regions, byID := [], map[];
    }

    /** rebuildByID. */
    method RebuildByID()
      requires DistinctIDs(regions)
      modifies this`byID
      ensures IndexExact(regions, byID)
    {
      byID := map[];
      for i := 0 to |regions|
        invariant IndexExact(regions[..i], byID)
      {
        byID := byID[regions[i].id := i];
      }
      assert regions[..|regions|] == regions;
    }

    /** insertLocked. A known ID is replaced in its slot, which keeps the cache valid exactly when the new range fits
        there; a new ID evicts what it overlaps and nothing else. */
    method InsertLocked(info: Region)
      requires Valid() && NonEmpty(info)
      modifies this
      ensures info.id in old(byID) ==>
                var idx := old(byID)[info.id];
                && regions == old(regions)[idx := info] && byID == old(byID)
                && (Valid() <==> SlotFits(old(regions), idx, info))
      ensures info.id !in old(byID) ==>
                && Valid()
                && forall r :: r in regions <==> r == info || (r in old(regions) && !RegionsOverlap(r, info))
    {
      if info.id in byID {
        var idx := byID[info.id];
        ReplaceWellFormedExactly(regions, idx, info);
        regions := regions[idx := info];
        return;
      }
      var kept := Evict(regions, info);
      KeptWellFormed(regions, info);
      forall i | 0 <= i < |kept| ensures !RegionsOverlap(kept[i], info) && kept[i].id != info.id {
        assert kept[i] in regions;
      }
      var pos := SearchAfter(kept, info.start);
      InsertWellFormed(kept, pos, info);
      InsertMembers(kept, pos, info);
      regions := Inserted(kept, pos, info);
      RebuildByID();
    }

    /** InvalidateRegion. */
    method InvalidateRegion(id: nat)
      requires Valid()
      modifies this
      ensures Valid()
      ensures forall r :: r in regions <==> r in old(regions) && r.id != id
    {
      if id !in byID {
        return;
      }
      var idx := byID[id];
      RemovedWellFormed(regions, idx);
      RemovedMembers(regions, idx);
      regions := Removed(regions, idx);
      RebuildByID();
    }

    /** UpdateLeader: only the leader of the region changes. */
    method UpdateLeader(id: nat, leader: nat, addr: string)
      requires Valid()
      modifies this`regions
      ensures Valid() && |regions| == |old(regions)|
      ensures forall i | 0 <= i < |regions| ::
                regions[i] == if old(regions)[i].id == id
                    then old(regions)[i].(leader := leader, addr := addr) else old(regions)[i]
    {
      if id !in byID {
        return;
      }
      var idx := byID[id];
      regions := regions[idx := regions[idx].(leader := leader, addr := addr)];
    }

    /** LocateKey: the cached region that contains the encoded key, or what PD answers, which is then cached. The cache
        stays valid, unless PD answers a cached ID with a range that does not fit its slot. */
    method LocateKey(key: Bytes, pd: Option<Region>) returns (r: Option<Region>)
      requires Valid() && (pd.Some? ==> NonEmpty(pd.value))
      modifies this
      ensures old(LinearFind(regions, Encoded(key))).Some? ==>
                && r == old(LinearFind(regions, Encoded(key))) && Contains(r.value, Encoded(key))
                && regions == old(regions) && byID == old(byID)
      ensures old(LinearFind(regions, Encoded(key))).None? ==> r == pd && (pd.Some? ==> pd.value in regions)
      ensures pd.None? ==> regions == old(regions) && byID == old(byID)
      ensures Valid() <==> old(LinearFind(regions, Encoded(key))).Some? || pd.None? || pd.value.id !in old(byID)
                           || SlotFits(old(regions), old(byID)[pd.value.id], pd.value)
    {
      var encodedKey := EncodeKey(key);
      r := FindInCache(regions, encodedKey);
      if r.Some? {
        return;
      }
      r := pd;
      if pd.Some? {
        ghost var idx := if pd.value.id in byID then byID[pd.value.id] else 0;
        InsertLocked(pd.value);
        assert pd.value.id in old(byID) ==> regions[idx] == pd.value;
      }
    }
  }

  method EncodeKey(key: Bytes) returns (e: Bytes)
    ensures e == Encoded(key)
  {
    var buf := EncodeBytes([], key);
    e := buf[..];
  }

  /** Looking up a region that was just inserted as new finds it for each of its keys. */
  lemma InsertedIsFound(rs: seq<Region>, info: Region, key: Bytes)
    requires WellFormed(rs) && info in rs && Contains(info, key)
    ensures LinearFind(rs, key) == Some(info)
  {
    var i :| 0 <= i < |rs| && rs[i] == info;
    forall j | 0 <= j < |rs| && j != i ensures !Contains(rs[j], key) {
      if j < i {
        BeforeExcludes(rs[j], rs[i], key);
      } else {
        BeforeExcludes(rs[i], rs[j], key);
      }
    }
    LinearFindOnly(rs, key, i);
  }
}
