/** When a scan's limit is safe (pkg/client/txn.go). What is left of the limit is sent to each region in 32 bits, and
    zero means no limit there, so beyond 2^32 a region can answer too few pairs while the scan goes on or stops as if it
    had answered all. */
module ScanLimit {
  import opened Bytes
  import opened KvEngine
  import opened TxnScan
  import opened TxnMerge
  import opened ScanHazard
  import MemComparable
  import RegionCache

  // ----- Layouts -----

  /** One region that holds every key. */
  const WHOLE: seq<RegionCache.Region> := [RegionCache.Region(1, [], [], 0, "")]

  lemma WholeIsLayout()
    ensures IsLayout(WHOLE)
  {
    forall key: Bytes ensures RegionCache.LinearFind(WHOLE, MemComparable.Encoded(key)).Some? {
      assert RegionCache.Contains(WHOLE[0], MemComparable.Encoded(key));
    }
  }

  /** Two regions that meet at a user key. */
  function Halves(mid: Bytes): seq<RegionCache.Region> {
    var b := MemComparable.Encoded(mid);
    [RegionCache.Region(1, [], b, 0, ""), RegionCache.Region(2, b, [], 0, "")]
  }

  lemma HalvesAreLayout(mid: Bytes)
    requires mid != []
    ensures IsLayout(Halves(mid))
  {
    var rs := Halves(mid);
    MemComparable.EncodedLength(mid);
    LtIrreflexive(rs[1].start);
    forall key: Bytes ensures RegionCache.LinearFind(rs, MemComparable.Encoded(key)).Some? {
      var k := MemComparable.Encoded(key);
      assert RegionCache.Contains(rs[0], k) || RegionCache.Contains(rs[1], k);
      assert rs[1..] == [rs[1]];
      assert RegionCache.LinearFind(rs[1..], k).Some? <==> RegionCache.Contains(rs[1], k);
    }
  }

  lemma HalvesHomes(mid: Bytes)
    requires mid != []
    ensures IsLayout(Halves(mid)) && EndOf(Halves(mid), []) == mid && EndOf(Halves(mid), mid) == []
  {
    HalvesAreLayout(mid);
    var rs, e, b := Halves(mid), MemComparable.Encoded([]), MemComparable.Encoded(mid);
    assert e + [] == e && b + [] == b;
    MemComparable.EncodedOrder([], mid, [], []);
    LtIrreflexive(b);
    HomeIsOnly(rs, [], 0);
    HomeIsOnly(rs, mid, 1);
    EndIsOnly(rs, [], mid, EndOf(rs, []));
  }

  // ----- Snapshots of many keys -----

  /** The snapshot of the first `n` byte strings. */
  ghost function FirstKeys(n: nat): Snapshot {
    Filled(FirstFrom([], n))
  }

  lemma CountKeys(n: nat)
    ensures |Listing(FirstKeys(n), [], None)| == n
  {
    var s := Listing(FirstKeys(n), [], None);
    FirstFromCount([], n);
    KeysCount(s);
    forall k ensures k in Keys(s) <==> k in FirstFrom([], n) {
      ScanMembers(FirstKeys(n), [], None, s, k);
    }
    assert Keys(s) == FirstFrom([], n);
  }

  /** The first of them lies before `[0]`, the others do not. */
  lemma CountParts(n: nat)
    requires n > 0
    ensures |Listing(FirstKeys(n), [], Some([0]))| == 1 && |Listing(FirstKeys(n), [0], None)| == n - 1
  {
    var kv, zero: Bytes := FirstKeys(n), [0];
    var a, b := Listing(kv, [], Some(zero)), Listing(kv, zero, None);
    assert NthFrom([], 0) == [] && NthFrom([], n) != [];
    FirstFromIs([], n, []);
    assert [] in kv;
    forall k ensures k in Keys(a) <==> k == [] {
      ScanMembers(kv, [], Some(zero), a, k);
      Successor(k, []);
      assert [] + [0] == zero;
    }
    assert Keys(a) == {[]};
    KeysCount(a);
    PrefixIsFirst(kv, zero, None, |b|, b);
    JoinFirst(kv, [], zero, None, 1 + |b|, a, b);
    JoinFirst(kv, [], zero, None, 2 + |b|, a, b);
    FewerThanLimitIsScan(kv, [], None, 2 + |b|, a + b);
    ListingIs(kv, [], None, a + b);
    CountKeys(n);
  }

  // ----- One region -----

  /** From a single region the scan is one answer, with the limit of the one request. */
  lemma WholeIsOneAnswer(snap: Snapshot, startKey: Bytes, endKey: Bytes, limit: nat)
    requires limit > 0
    ensures IsLayout(WHOLE)
    ensures Scanned(WHOLE, snap, startKey, endKey, limit)
         == CapAt(Answer(snap, startKey, UpperBound(endKey), RequestLimit(limit)), limit)
  {
    WholeIsLayout();
    HomeIsOnly(WHOLE, startKey, 0);
    assert EndOf(WHOLE, startKey) == [];
  }

  ghost predicate IsRight(rs: seq<RegionCache.Region>, snap: Snapshot, startKey: Bytes, endKey: Bytes, limit: nat)
    requires IsLayout(rs)
  {
    IsFirst(snap, startKey, UpperBound(endKey), limit, Scanned(rs, snap, startKey, endKey, limit))
  }

  ghost predicate RightOnWhole(limit: nat) {
    IsLayout(WHOLE) && forall snap: Snapshot, startKey, endKey :: IsRight(WHOLE, snap, startKey, endKey, limit)
  }

  /** One region with more pairs than the request's limit answers too few. */
  lemma CutLimitLosesPairs(limit: nat)
    requires limit > REQUEST_LIMITS && RequestLimit(limit) > 0
    ensures IsLayout(WHOLE) && !IsRight(WHOLE, FirstKeys(RequestLimit(limit) + 1), [], [], limit)
  {
    var m := RequestLimit(limit);
    var snap := FirstKeys(m + 1);
    WholeIsOneAnswer(snap, [], [], limit);
    CountKeys(m + 1);
    FirstIsPrefix(snap, [], None, limit, Scanned(WHOLE, snap, [], [], limit), Listing(snap, [], None));
  }

  /** From a single region the scan is right for every snapshot and range if and only if the limit fits its field or is
      a multiple of 2^32, which is sent as no limit. */
  lemma WholeIsRightExactly(limit: nat)
    ensures RightOnWhole(limit) <==> limit <= REQUEST_LIMITS || RequestLimit(limit) == 0
  {
    WholeIsLayout();
    if limit <= REQUEST_LIMITS {
      forall snap: Snapshot, startKey, endKey ensures IsRight(WHOLE, snap, startKey, endKey, limit) {
        ScannedIsFirst(WHOLE, snap, startKey, endKey, limit);
      }
    } else if RequestLimit(limit) == 0 {
      forall snap: Snapshot, startKey, endKey ensures IsRight(WHOLE, snap, startKey, endKey, limit) {
        WholeIsOneAnswer(snap, startKey, endKey, limit);
        PrefixIsFirst(snap, startKey, UpperBound(endKey), limit, Listing(snap, startKey, UpperBound(endKey)));
      }
    } else {
      CutLimitLosesPairs(limit);
    }
  }

  // ----- Any regions -----

  ghost predicate RightOn(rs: seq<RegionCache.Region>, limit: nat)
    requires IsLayout(rs)
  {
    forall snap: Snapshot, startKey, endKey :: IsRight(rs, snap, startKey, endKey, limit)
  }

  ghost predicate RightEverywhere(limit: nat) {
    forall rs | IsLayout(rs) :: RightOn(rs, limit)
  }

  /** With a multiple of 2^32, the first of two regions answers without limit, and one pair of it makes the second
      request's limit fall short by one. */
  lemma MultipleLosesPairs(limit: nat)
    requires limit > REQUEST_LIMITS && RequestLimit(limit) == 0
    ensures IsLayout(Halves([0])) && !IsRight(Halves([0]), FirstKeys(REQUEST_LIMITS + 1), [], [], limit)
  {
    var n, zero: Bytes := REQUEST_LIMITS, [0];
    var snap, rs := FirstKeys(n + 1), Halves(zero);
    HalvesHomes(zero);
    CountKeys(n + 1);
    CountParts(n + 1);
    TwoAnswers(snap, zero, limit, n);
    FirstIsPrefix(snap, [], None, limit, Scanned(rs, snap, [], [], limit), Listing(snap, [], None));
  }

  lemma RestOfMultiple(limit: nat)
    requires limit > REQUEST_LIMITS && RequestLimit(limit) == 0
    ensures RequestLimit(limit - 1) == REQUEST_LIMITS - 1
  {
    var k := limit / REQUEST_LIMITS;
    assert limit - 1 == REQUEST_LIMITS * (k - 1) + (REQUEST_LIMITS - 1);
  }

  lemma TwoAnswers(snap: Snapshot, mid: Bytes, limit: nat, n: nat)
    requires mid != [] && n == REQUEST_LIMITS < limit && RequestLimit(limit) == 0
    requires |Listing(snap, [], Some(mid))| == 1 && |Listing(snap, mid, None)| == n
    ensures IsLayout(Halves(mid)) && |Scanned(Halves(mid), snap, [], [], limit)| == n
  {
    HalvesHomes(mid);
    RestOfMultiple(limit);
    var rs, first := Halves(mid), Listing(snap, [], Some(mid));
    CollectedGoesOn(rs, snap, [], limit, [], [], first);
    CollectedStops(rs, snap, [], limit, mid, first, first + CapAt(Listing(snap, mid, None), n - 1));
  }

  lemma CollectedGoesOn(rs: seq<RegionCache.Region>, snap: Snapshot, endKey: Bytes, limit: nat, key: Bytes,
      before: seq<KvPair>, now: seq<KvPair>)
    requires IsLayout(rs) && |before| < limit && WithRegion(rs, snap, endKey, limit, key, before) == now
    requires |now| < limit && !IsLast(EndOf(rs, key), endKey)
    ensures Collected(rs, snap, endKey, limit, key, before)
         == Collected(rs, snap, endKey, limit, EndOf(rs, key), now)
  {
  }

  lemma CollectedStops(rs: seq<RegionCache.Region>, snap: Snapshot, endKey: Bytes, limit: nat, key: Bytes,
      before: seq<KvPair>, now: seq<KvPair>)
    requires IsLayout(rs) && |before| < limit && WithRegion(rs, snap, endKey, limit, key, before) == now
    requires |now| >= limit || IsLast(EndOf(rs, key), endKey)
    ensures Collected(rs, snap, endKey, limit, key, before) == now
  {
  }

  lemma WrongAtStart(limit: nat) returns (rs: seq<RegionCache.Region>, snap: Snapshot)
    requires limit > REQUEST_LIMITS
    ensures IsLayout(rs) && !IsRight(rs, snap, [], [], limit)
  {
    if RequestLimit(limit) > 0 {
      CutLimitLosesPairs(limit);
      rs, snap := WHOLE, FirstKeys(RequestLimit(limit) + 1);
    } else {
      MultipleLosesPairs(limit);
      rs, snap := Halves([0]), FirstKeys(REQUEST_LIMITS + 1);
    }
  }

  /** The scan of the regions is right for every layout, snapshot and range if and only if the limit is at most 2^32. */
  lemma ScanIsRightEverywhereExactly(limit: nat)
    ensures RightEverywhere(limit) <==> limit <= REQUEST_LIMITS
  {
    if limit <= REQUEST_LIMITS {
      forall rs, snap: Snapshot, startKey, endKey | IsLayout(rs) ensures IsRight(rs, snap, startKey, endKey, limit) {
        ScannedIsFirst(rs, snap, startKey, endKey, limit);
      }
    } else {
      var rs, snap := WrongAtStart(limit);
      assert !RightOn(rs, limit);
    }
  }

  /** A limit one beyond 2^32 is sent as one: of the pairs of a region the scan returns one. */
  lemma OneOfMany(snap: Snapshot, all: seq<KvPair>, limit: nat)
    requires IsScan(snap, [], None, all) && 1 < |all| <= limit && RequestLimit(limit) == 1
    ensures IsLayout(WHOLE) && Scanned(WHOLE, snap, [], [], limit) == all[..1] && !IsRight(WHOLE, snap, [], [], limit)
  {
    ListingIs(snap, [], None, all);
    WholeIsOneAnswer(snap, [], [], limit);
    FirstIsPrefix(snap, [], None, limit, all[..1], all);
  }

  lemma LimitBecomesOne()
    ensures var snap: Snapshot := map[[] := [10], [1] := [20]];
            && IsLayout(WHOLE)
            && Scanned(WHOLE, snap, [], [], REQUEST_LIMITS + 1) == [Pair([], [10])]
            && !IsRight(WHOLE, snap, [], [], REQUEST_LIMITS + 1)
  {
    var snap: Snapshot, both: seq<KvPair> := map[[] := [10], [1] := [20]], [Pair([], [10]), Pair([1], [20])];
    assert both[0].key == [] && both[1].key == [1] && Lt([], [1]);
    assert IsScan(snap, [], None, both);
    OneOfMany(snap, both, REQUEST_LIMITS + 1);
    assert both[..1] == [Pair([], [10])];
  }

  // ----- With the buffer -----

  /** On every layout and snapshot, Scan returns what the transaction sees first. */
  ghost predicate ScanAlwaysRight(buf: Buffer, startKey: Bytes, endKey: Bytes, limit: nat) {
    forall rs, snap: Snapshot | IsLayout(rs) :: ResultIsRight(rs, snap, buf, startKey, endKey, limit)
  }

  ghost predicate ResultIsRight(rs: seq<RegionCache.Region>, snap: Snapshot, buf: Buffer, startKey: Bytes,
                                endKey: Bytes, limit: nat)
    requires IsLayout(rs)
  {
    Query(startKey, UpperBound(endKey), limit).Answers(Overlay(snap, buf),
      ScanResult(rs, snap, buf, startKey, endKey, limit))
  }

  /** Up to 2^32 a call is right for every layout and snapshot if and only if the buffer puts no key at hazard. */
  lemma CallIsRightExactly(buf: Buffer, startKey: Bytes, endKey: Bytes, limit: nat)
    requires limit <= REQUEST_LIMITS
    ensures ScanAlwaysRight(buf, startKey, endKey, limit) <==> NoHazard(Query(startKey, UpperBound(endKey), limit), buf)
  {
    var q := Query(startKey, UpperBound(endKey), limit);
    if NoHazard(q, buf) {
      forall rs, snap: Snapshot | IsLayout(rs) ensures ResultIsRight(rs, snap, buf, startKey, endKey, limit) {
        ResultIsMerge(rs, snap, buf, startKey, endKey, limit);
        SafeIsRight(q, buf, snap, Scanned(rs, snap, startKey, endKey, limit),
                    ScanResult(rs, snap, buf, startKey, endKey, limit));
      }
    } else {
      var u :| Hazard(q, buf, u);
      var snap, rpc, r := HazardIsReal(q, buf, u);
      WholeIsLayout();
      ResultIsMerge(WHOLE, snap, buf, startKey, endKey, limit);
      MergeIsOnly(q, snap, buf, rpc, r, Scanned(WHOLE, snap, startKey, endKey, limit),
                  ScanResult(WHOLE, snap, buf, startKey, endKey, limit));
      assert !ResultIsRight(WHOLE, snap, buf, startKey, endKey, limit);
    }
  }

  lemma MergeIsOnly(q: Query, snap: Snapshot, buf: Buffer, rpc: seq<KvPair>, r: seq<KvPair>, rpc': seq<KvPair>,
      r': seq<KvPair>)
    requires IsMerge(q, snap, buf, rpc, r) && IsMerge(q, snap, buf, rpc', r')
    ensures rpc == rpc' && r == r'
  {
    FirstIsPrefix(snap, q.lo, q.hi, q.n, rpc, Listing(snap, q.lo, q.hi));
    FirstIsPrefix(snap, q.lo, q.hi, q.n, rpc', Listing(snap, q.lo, q.hi));
    var part := Overlay(Fetched(snap, rpc), buf);
    FirstIsPrefix(part, q.lo, q.hi, q.n, r, Listing(part, q.lo, q.hi));
    FirstIsPrefix(part, q.lo, q.hi, q.n, r', Listing(part, q.lo, q.hi));
  }

  /** Beyond 2^32 not even a transaction without writes is safe. */
  lemma LargeLimitIsNeverSafe(limit: nat)
    requires limit > REQUEST_LIMITS
    ensures !ScanAlwaysRight(map[], [], [], limit)
  {
    var buf: Buffer := map[];
    var rs, snap := WrongAtStart(limit);
    ListingIs(buf, [], None, []);
    MergeWithNothing(Scanned(rs, snap, [], [], limit));
    assert Overlay(snap, buf) == snap;
    assert !ResultIsRight(rs, snap, buf, [], [], limit);
  }

  /** Calls without hazard are right. */
  ghost predicate LimitIsSafe(limit: nat) {
    forall buf: Buffer, startKey, endKey | NoHazard(Query(startKey, UpperBound(endKey), limit), buf) ::
      ScanAlwaysRight(buf, startKey, endKey, limit)
  }

  /** The buffer's condition is enough if and only if the limit is at most 2^32. */
  lemma LimitIsSafeExactly(limit: nat)
    ensures LimitIsSafe(limit) <==> limit <= REQUEST_LIMITS
  {
    if limit <= REQUEST_LIMITS {
      forall buf: Buffer, startKey, endKey | NoHazard(Query(startKey, UpperBound(endKey), limit), buf)
        ensures ScanAlwaysRight(buf, startKey, endKey, limit)
      {
        CallIsRightExactly(buf, startKey, endKey, limit);
      }
    } else {
      LargeLimitIsNeverSafe(limit);
      assert NoHazard(Query([], UpperBound([]), limit), map[]);
    }
  }
}
