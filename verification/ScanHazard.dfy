/** When a scan with buffered writes is right (pkg/client/txn.go). The limit is applied to the snapshot before the
    buffer is merged in, so a buffered delete can cost a pair that was not fetched. Whether it can is decided by the
    buffer, the range and the limit alone. */
module ScanHazard {
  import opened Bytes
  import opened KvEngine
  import opened TxnScan
  import opened TxnMerge
  import MemComparable
  import RegionCache

  // ----- The strings from a key on -----

  function NthFrom(lo: Bytes, j: nat): Bytes {
    lo + MemComparable.Zeros(j)
  }

  /** Nothing lies between a string and that string with a zero byte appended. */
  lemma {:induction false} Successor(x: Bytes, y: Bytes)
    ensures Lt(x, y + [0]) <==> Le(x, y)
  {
    if x != [] && y != [] {
      assert (y + [0])[1..] == y[1..] + [0];
      Successor(x[1..], y[1..]);
    }
  }

  lemma NthStep(lo: Bytes, j: nat)
    ensures NthFrom(lo, j + 1) == NthFrom(lo, j) + [0]
  {
    assert MemComparable.Zeros(j + 1) == MemComparable.Zeros(j) + [0];
  }

  /** The first `m` strings from `lo` on. */
  ghost function FirstFrom(lo: Bytes, m: nat): set<Bytes> {
    if m == 0 then {} else FirstFrom(lo, m - 1) + {NthFrom(lo, m - 1)}
  }

  /** Adding zero bytes enumerates the strings from `lo` on without gap. */
  lemma {:induction false} FirstFromIs(lo: Bytes, m: nat, x: Bytes)
    requires Le(lo, x)
    ensures Lt(x, NthFrom(lo, m)) <==> x in FirstFrom(lo, m)
  {
    if m == 0 {
      assert NthFrom(lo, 0) == lo;
    } else {
      FirstFromIs(lo, m - 1, x);
      NthStep(lo, m - 1);
      Successor(x, NthFrom(lo, m - 1));
      LtTrichotomy(x, NthFrom(lo, m - 1));
      LtIrreflexive(x);
    }
  }

  lemma {:induction false} FirstFromCount(lo: Bytes, m: nat)
    ensures |FirstFrom(lo, m)| == m && forall x | x in FirstFrom(lo, m) :: |x| < |lo| + m && Le(lo, x)
  {
    if m > 0 {
      FirstFromCount(lo, m - 1);
      NotBelowPrefix(lo, m - 1);
    }
  }

  lemma {:induction false} NotBelowPrefix(lo: Bytes, j: nat)
    ensures Le(lo, NthFrom(lo, j))
  {
    LtIrreflexive(lo);
    if j == 0 {
      assert NthFrom(lo, 0) == lo;
    } else {
      NotBelowPrefix(lo, j - 1);
      NthStep(lo, j - 1);
      Successor(lo, NthFrom(lo, j - 1));
      LtAsymmetric(lo, NthFrom(lo, j));
    }
  }

  /** There are `n` strings in [lo, u) exactly when the n-th one from `lo` on lies below `u`. */
  lemma RoomExactly(lo: Bytes, u: Bytes, n: nat)
    requires n > 0
    ensures (exists ks: set<Bytes> :: |ks| == n && AllIn(ks, lo, u)) <==> Lt(NthFrom(lo, n - 1), u)
  {
    if Lt(NthFrom(lo, n - 1), u) {
      RoomBelow(lo, u, n);
    }
    if ks: set<Bytes> :| |ks| == n && AllIn(ks, lo, u) {
      NthIsBelow(lo, u, n, ks);
    }
  }

  lemma RoomBelow(lo: Bytes, u: Bytes, n: nat)
    requires n > 0 && Lt(NthFrom(lo, n - 1), u)
    ensures |FirstFrom(lo, n)| == n && AllIn(FirstFrom(lo, n), lo, u)
  {
    FirstFromCount(lo, n);
    forall k | k in FirstFrom(lo, n) ensures InRange(k, lo, Some(u)) {
      FirstFromIs(lo, n, k);
      NthStep(lo, n - 1);
      Successor(k, NthFrom(lo, n - 1));
      LeLtTransitive(k, NthFrom(lo, n - 1), u);
    }
  }

  lemma NthIsBelow(lo: Bytes, u: Bytes, n: nat, ks: set<Bytes>)
    requires n > 0 && |ks| == n && AllIn(ks, lo, u)
    ensures Lt(NthFrom(lo, n - 1), u)
  {
    if !Lt(NthFrom(lo, n - 1), u) {
      forall k | k in ks ensures k in FirstFrom(lo, n - 1) {
        LtLeTransitive(k, u, NthFrom(lo, n - 1));
        FirstFromIs(lo, n - 1, k);
      }
      FirstFromCount(lo, n - 1);
      SubsetCount(ks, FirstFrom(lo, n - 1));
    }
  }

  // ----- The condition on the buffer -----

  ghost function PutsBelow(buf: Buffer, lo: Bytes, u: Bytes): set<Bytes> {
    set k | k in buf && buf[k].Some? && InRange(k, lo, Some(u))
  }

  ghost predicate DeleteAt(buf: Buffer, lo: Bytes, u: Bytes, d: Bytes) {
    d in buf && buf[d].None? && InRange(d, lo, Some(u))
  }

  ghost predicate DeleteBelow(buf: Buffer, lo: Bytes, u: Bytes) {
    exists d :: DeleteAt(buf, lo, u, d)
  }

  /** A key `u` of the range that the buffer does not mention can be lost: the buffer deletes a key before it, puts
      fewer than `n` there, and there is room for `n` keys before it. */
  ghost predicate Hazard(q: Query, buf: Buffer, u: Bytes) {
    && q.n > 0 && q.In(u) && u !in buf && DeleteBelow(buf, q.lo, u)
    && |PutsBelow(buf, q.lo, u)| < q.n && Lt(NthFrom(q.lo, q.n - 1), u)
  }

  ghost predicate NoHazard(q: Query, buf: Buffer) {
    forall u :: !Hazard(q, buf, u)
  }

  /** Whatever the snapshot, the scan returns the first pairs the transaction sees. */
  ghost predicate AlwaysRight(q: Query, buf: Buffer) {
    forall snap, rpc, r | IsMerge(q, snap, buf, rpc, r) :: q.Answers(Overlay(snap, buf), r)
  }

  // ----- Without hazard the scan is right -----

  lemma KeysAreBelow(q: Query, snap: Snapshot, rpc: seq<KvPair>, k: Bytes)
    requires q.Answers(snap, rpc) && Beyond(rpc, k)
    ensures AllIn(Keys(rpc), q.lo, k) && |Keys(rpc)| == |rpc|
  {
    KeysCount(rpc);
  }

  lemma UnfetchedIsBeyond(q: Query, snap: Snapshot, buf: Buffer, rpc: seq<KvPair>, r: seq<KvPair>, k: Bytes)
    requires IsMerge(q, snap, buf, rpc, r) && Unfetched(q, snap, buf, rpc, k) && !Hazard(q, buf, k)
    ensures |r| == q.n && Beyond(r, k)
  {
    var part := Overlay(Fetched(snap, rpc), buf);
    assert |rpc| == q.n && Beyond(rpc, k) && k !in part;
    KeysAreBelow(q, snap, rpc, k);
    if q.n > 0 && DeleteBelow(buf, q.lo, k) {
      NthIsBelow(q.lo, k, q.n, Keys(rpc));
      ManyBelow(q, part, r, k, PutsBelow(buf, q.lo, k));
    } else {
      FetchedSurvive(q, snap, buf, rpc, k);
      ManyBelow(q, part, r, k, Keys(rpc));
    }
  }

  /** Without a delete before `k` the fetched keys all stay. */
  lemma FetchedSurvive(q: Query, snap: Snapshot, buf: Buffer, rpc: seq<KvPair>, k: Bytes)
    requires q.Answers(snap, rpc) && Beyond(rpc, k) && (q.n == 0 || !DeleteBelow(buf, q.lo, k))
    ensures Keys(rpc) <= Overlay(Fetched(snap, rpc), buf).Keys
  {
    forall i | 0 <= i < |rpc| ensures rpc[i].key in Overlay(Fetched(snap, rpc), buf) {
      assert HasKey(rpc, rpc[i].key) && !DeleteAt(buf, q.lo, k, rpc[i].key);
    }
  }

  lemma SafeIsRight(q: Query, buf: Buffer, snap: Snapshot, rpc: seq<KvPair>, r: seq<KvPair>)
    requires IsMerge(q, snap, buf, rpc, r) && NoHazard(q, buf)
    ensures q.Answers(Overlay(snap, buf), r)
  {
    forall k | Unfetched(q, snap, buf, rpc, k) ensures |r| == q.n && Beyond(r, k) {
      UnfetchedIsBeyond(q, snap, buf, rpc, r, k);
    }
    ScanIsExact(q, snap, buf, rpc, r);
  }

  // ----- A hazard makes some scan wrong -----

  lemma {:induction false} Between(a: set<Bytes>, c: set<Bytes>, n: nat) returns (b: set<Bytes>)
    requires a <= c && |a| <= n <= |c|
    ensures a <= b <= c && |b| == n
    decreases n - |a|
  {
    if |a| == n {
      b := a;
    } else {
      assert |c - a| == |c| - |a|;
      var x :| x in c - a;
      b := Between(a + {x}, c, n);
    }
  }

  /** A page of `n` keys before `u` that holds all the buffer puts there and one key it deletes. */
  lemma HazardousPage(q: Query, buf: Buffer, u: Bytes) returns (page: set<Bytes>, d: Bytes)
    requires Hazard(q, buf, u)
    ensures DeleteAt(buf, q.lo, u, d) && PutsBelow(buf, q.lo, u) + {d} <= page
    ensures |page| == q.n && AllIn(page, q.lo, u)
  {
    d :| DeleteAt(buf, q.lo, u, d);
    RoomBelow(q.lo, u, q.n);
    var must := PutsBelow(buf, q.lo, u) + {d};
    var room := must + FirstFrom(q.lo, q.n);
    SubsetCount(FirstFrom(q.lo, q.n), room);
    page := Between(must, room, q.n);
  }

  ghost function Filled(ks: set<Bytes>): Snapshot {
    map k | k in ks :: []
  }

  lemma PageIsScanned(q: Query, page: set<Bytes>, u: Bytes) returns (rpc: seq<KvPair>)
    requires AllIn(page, q.lo, u) && q.In(u)
    ensures IsScan(Filled(page), q.lo, q.hi, rpc) && Keys(rpc) == page && |rpc| == |page|
  {
    rpc := ScanExists(Filled(page), q.lo, q.hi);
    forall k | k in page ensures k in Keys(rpc) {
      if q.hi.Some? {
        LtTransitive(k, u, q.hi.value);
      }
      ScanMembers(Filled(page), q.lo, q.hi, rpc, k);
    }
    KeysCount(rpc);
    assert Keys(rpc) == page;
  }

  /** The snapshot of the page and `u`: the page is what is fetched. */
  lemma PageIsFetched(q: Query, page: set<Bytes>, u: Bytes) returns (rpc: seq<KvPair>)
    requires |page| == q.n && AllIn(page, q.lo, u) && q.In(u)
    ensures q.Answers(Filled(page + {u}), rpc) && Keys(rpc) == page
  {
    rpc := PageIsScanned(q, page, u);
    forall k | k in Filled(page + {u}) && q.In(k) ensures HasKey(rpc, k) || Beyond(rpc, k) {
      if k in page {
        ScanMembers(Filled(page), q.lo, q.hi, rpc, k);
      } else {
        BeyondPage(page, q.lo, u, rpc);
      }
    }
  }

  lemma BeyondPage(page: set<Bytes>, lo: Bytes, u: Bytes, rpc: seq<KvPair>)
    requires AllIn(page, lo, u) && Keys(rpc) == page
    ensures Beyond(rpc, u)
  {
    forall i | 0 <= i < |rpc| ensures Lt(rpc[i].key, u) {
      assert rpc[i].key in Keys(rpc);
    }
  }

  lemma MergeExists(q: Query, snap: Snapshot, buf: Buffer, rpc: seq<KvPair>) returns (r: seq<KvPair>)
    requires q.Answers(snap, rpc)
    ensures IsMerge(q, snap, buf, rpc, r)
  {
    var part := Overlay(Fetched(snap, rpc), buf);
    var all := ScanExists(part, q.lo, q.hi);
    PrefixIsFirst(part, q.lo, q.hi, q.n, all);
    r := CapAt(all, q.n);
  }

  lemma KeyIsLeft(q: Query, buf: Buffer, page: set<Bytes>, u: Bytes, d: Bytes, rpc: seq<KvPair>, k: Bytes)
    requires DeleteAt(buf, q.lo, u, d) && PutsBelow(buf, q.lo, u) <= page && Keys(rpc) == page
    requires k in Overlay(Fetched(Filled(page + {u}), rpc), buf) && InRange(k, q.lo, Some(u))
    ensures k in page - {d}
  {
    if k in buf {
      assert k in PutsBelow(buf, q.lo, u);
    } else {
      assert HasKey(rpc, k);
    }
  }

  /** The page loses one key to the delete and gains none from the puts, so fewer than `n` keys are left before `u`. */
  lemma TooFewBelow(q: Query, buf: Buffer, page: set<Bytes>, u: Bytes, d: Bytes, rpc: seq<KvPair>, r: seq<KvPair>)
    requires DeleteAt(buf, q.lo, u, d) && PutsBelow(buf, q.lo, u) + {d} <= page && |page| == q.n && u !in buf
    requires Keys(rpc) == page && IsMerge(q, Filled(page + {u}), buf, rpc, r)
    ensures !(|r| == q.n && Beyond(r, u))
  {
    if Beyond(r, u) {
      var left := page - {d};
      forall k | k in Keys(r) ensures k in left {
        var i :| 0 <= i < |r| && r[i].key == k;
        KeyIsLeft(q, buf, page, u, d, rpc, k);
      }
      KeysCount(r);
      SubsetCount(Keys(r), left);
    }
  }

  lemma HazardIsReal(q: Query, buf: Buffer, u: Bytes) returns (snap: Snapshot, rpc: seq<KvPair>, r: seq<KvPair>)
    requires Hazard(q, buf, u)
    ensures IsMerge(q, snap, buf, rpc, r) && !q.Answers(Overlay(snap, buf), r)
  {
    var page, d := HazardousPage(q, buf, u);
    snap := Filled(page + {u});
    rpc := PageIsFetched(q, page, u);
    r := MergeExists(q, snap, buf, rpc);
    TooFewBelow(q, buf, page, u, d, rpc, r);
    LtIrreflexive(u);
    assert u !in page;
    assert Unfetched(q, snap, buf, rpc, u);
    ScanIsExact(q, snap, buf, rpc, r);
  }

  /** The scan is right for every snapshot if and only if the buffer puts no key of the range at hazard. */
  lemma ScanIsRightExactly(q: Query, buf: Buffer)
    ensures AlwaysRight(q, buf) <==> NoHazard(q, buf)
  {
    if NoHazard(q, buf) {
      forall snap, rpc, r | IsMerge(q, snap, buf, rpc, r) ensures q.Answers(Overlay(snap, buf), r) {
        SafeIsRight(q, buf, snap, rpc, r);
      }
    } else {
      var u :| Hazard(q, buf, u);
      var snap, rpc, r := HazardIsReal(q, buf, u);
    }
  }

  ghost predicate NoDeletes(q: Query, buf: Buffer) {
    forall k | k in buf && q.In(k) :: buf[k].Some?
  }

  /** In particular, with no buffered delete in the range the scan is always right. */
  lemma ScanWithoutDeletes(q: Query, buf: Buffer)
    requires NoDeletes(q, buf)
    ensures AlwaysRight(q, buf)
  {
    forall u ensures !Hazard(q, buf, u) {
      if Hazard(q, buf, u) {
        var d :| DeleteAt(buf, q.lo, u, d);
        assert q.In(d) by {
          if q.hi.Some? {
            LtTransitive(d, u, q.hi.value);
          }
        }
      }
    }
    ScanIsRightExactly(q, buf);
  }

  /** A scan that ran out of pairs before the limit is right whatever the buffer holds. */
  lemma ScanBelowLimit(q: Query, snap: Snapshot, buf: Buffer, rpc: seq<KvPair>, r: seq<KvPair>)
    requires IsMerge(q, snap, buf, rpc, r) && |rpc| < q.n
    ensures q.Answers(Overlay(snap, buf), r)
  {
    ScanIsExact(q, snap, buf, rpc, r);
  }

  /** One buffered delete and a limit of one: the scan returns nothing although a pair is visible. */
  lemma DeleteHidesNextPair()
    ensures var q, snap: Snapshot, buf: Buffer := Query([], None, 1), map[[1] := [10], [2] := [20]], map[[1] := None];
            && IsMerge(q, snap, buf, [Pair([1], [10])], [])
            && !q.Answers(Overlay(snap, buf), [])
            && q.Answers(Overlay(snap, buf), [Pair([2], [20])])
  {
    var snap: Snapshot, buf: Buffer := map[[1] := [10], [2] := [20]], map[[1] := None];
    var rpc: seq<KvPair> := [Pair([1], [10])];
    assert Lt([1], [2]) && HasKey(rpc, rpc[0].key);
    assert Overlay(snap, buf) == map[[2] := [20]];
    assert Overlay(Fetched(snap, rpc), buf) == map[];
    assert [2] in Overlay(snap, buf) && InRange([2], [], None);
    var right: seq<KvPair> := [Pair([2], [20])];
    assert HasKey(right, right[0].key);
  }

  // ----- TxnHandle.Scan -----

  /** What Scan returns on an open transaction, for every limit. */
  ghost function ScanResult(rs: seq<RegionCache.Region>, snap: Snapshot, membuf: Buffer, startKey: Bytes, endKey: Bytes,
                            limit: nat): seq<KvPair>
    requires IsLayout(rs)
  {
    var entries := Listing(membuf, startKey, UpperBound(endKey));
    CapAt(Merge(Scanned(rs, snap, startKey, endKey, limit), entries), limit)
  }

  lemma ResultIsMerge(rs: seq<RegionCache.Region>, snap: Snapshot, membuf: Buffer, startKey: Bytes, endKey: Bytes,
      limit: nat)
    requires IsLayout(rs) && limit <= REQUEST_LIMITS
    ensures IsMerge(Query(startKey, UpperBound(endKey), limit), snap, membuf,
                    Scanned(rs, snap, startKey, endKey, limit), ScanResult(rs, snap, membuf, startKey, endKey, limit))
  {
    ScannedIsFirst(rs, snap, startKey, endKey, limit);
    MergeIsFirst(Query(startKey, UpperBound(endKey), limit), snap, membuf, Scanned(rs, snap, startKey, endKey, limit),
                 Listing(membuf, startKey, UpperBound(endKey)));
  }

  /** Scan on an open transaction, the buffer included. */
  method Scan(rs: seq<RegionCache.Region>, snap: Snapshot, membuf: Buffer, startKey: Bytes, endKey: Bytes, limit: nat)
    returns (r: seq<KvPair>)
    requires IsLayout(rs)
    ensures r == ScanResult(rs, snap, membuf, startKey, endKey, limit)
    ensures limit <= REQUEST_LIMITS && NoHazard(Query(startKey, UpperBound(endKey), limit), membuf) ==>
              Query(startKey, UpperBound(endKey), limit).Answers(Overlay(snap, membuf), r)
  {
    var rpc := ScanRegions(rs, snap, startKey, endKey, limit);
    var entries := KvEngine.Scan(membuf, startKey, UpperBound(endKey));
    ListingIs(membuf, startKey, UpperBound(endKey), entries);
    if |entries| == 0 {
      MergeWithNothing(rpc);
      r := rpc;
    } else {
      r := MergeResults(rpc, entries, limit);
    }
    ghost var q := Query(startKey, UpperBound(endKey), limit);
    if limit <= REQUEST_LIMITS && NoHazard(q, membuf) {
      ResultIsMerge(rs, snap, membuf, startKey, endKey, limit);
      SafeIsRight(q, membuf, snap, rpc, r);
    }
  }
}
