/** Scanning within a transaction (pkg/client/txn.go): region by region over the snapshot, then merged with the buffer
    of local writes. */
module TxnScan {
  import opened Bytes
  import opened KvEngine
  import MemComparable
  import RegionCache

  type KvPair = Pair<Bytes>

  // ----- The first entries of a range -----

  ghost predicate HasKey<V>(s: seq<Pair<V>>, k: Bytes) {
    exists i :: 0 <= i < |s| && s[i].key == k
  }

  /** `k` sorts after every key of `s`. */
  ghost predicate Beyond<V>(s: seq<Pair<V>>, k: Bytes) {
    forall i | 0 <= i < |s| :: Lt(s[i].key, k)
  }

  ghost predicate From<V>(kv: map<Bytes, V>, lo: Bytes, hi: Option<Bytes>, s: seq<Pair<V>>) {
    forall i | 0 <= i < |s| :: s[i].key in kv && kv[s[i].key] == s[i].value && InRange(s[i].key, lo, hi)
  }

  /** `s` is the first `n` entries of `kv` in the range, or all of them if there are fewer. */
  ghost predicate IsFirst<V>(kv: map<Bytes, V>, lo: Bytes, hi: Option<Bytes>, n: nat, s: seq<Pair<V>>) {
    && Ascending(s) && From(kv, lo, hi, s) && |s| <= n
    && forall k | k in kv && InRange(k, lo, hi) :: HasKey(s, k) || (|s| == n && Beyond(s, k))
  }

  lemma ScanHasKeys<V>(kv: map<Bytes, V>, lo: Bytes, hi: Option<Bytes>, s: seq<Pair<V>>)
    requires IsScan(kv, lo, hi, s)
    ensures Ascending(s) && From(kv, lo, hi, s) && forall k | k in kv && InRange(k, lo, hi) :: HasKey(s, k)
  {
  }

  lemma FewerThanLimitIsScan<V>(kv: map<Bytes, V>, lo: Bytes, hi: Option<Bytes>, n: nat, s: seq<Pair<V>>)
    requires IsFirst(kv, lo, hi, n, s) && |s| < n
    ensures IsScan(kv, lo, hi, s)
  {
    forall k | k in kv && InRange(k, lo, hi) ensures exists i :: 0 <= i < |s| && s[i].key == k {
      assert HasKey(s, k);
    }
  }

  /** The prefix of a scan is the first entries of the range. */
  lemma PrefixIsFirst<V>(kv: map<Bytes, V>, lo: Bytes, hi: Option<Bytes>, n: nat, s: seq<Pair<V>>)
    requires IsScan(kv, lo, hi, s)
    ensures IsFirst(kv, lo, hi, n, if |s| <= n then s else s[..n])
  {
    var p := if |s| <= n then s else s[..n];
    forall k | k in kv && InRange(k, lo, hi) ensures HasKey(p, k) || (|p| == n && Beyond(p, k)) {
      var i :| 0 <= i < |s| && s[i].key == k;
      if i < |p| {
        assert p[i].key == k;
      }
    }
  }

  lemma {:induction false} FirstAgrees<V>(kv: map<Bytes, V>, lo: Bytes, hi: Option<Bytes>, n: nat, r: seq<Pair<V>>,
      s: seq<Pair<V>>, i: nat)
    requires IsFirst(kv, lo, hi, n, r) && IsScan(kv, lo, hi, s) && i <= |r|
    ensures i <= |s| && r[..i] == s[..i]
  {
    if i > 0 {
      var m := i - 1;
      FirstAgrees(kv, lo, hi, n, r, s, m);
      NextAgrees(kv, lo, hi, n, r, s, m);
      assert r[..i] == r[..m] + [r[m]] && s[..i] == s[..m] + [s[m]];
    }
  }

  lemma NextAgrees<V>(kv: map<Bytes, V>, lo: Bytes, hi: Option<Bytes>, n: nat, r: seq<Pair<V>>, s: seq<Pair<V>>, m: nat)
    requires IsFirst(kv, lo, hi, n, r) && IsScan(kv, lo, hi, s) && m < |r| && m <= |s| && r[..m] == s[..m]
    ensures m < |s| && r[m] == s[m]
  {
    ScanHasKeys(kv, lo, hi, s);
    assert HasKey(s, r[m].key);
    var j :| 0 <= j < |s| && s[j].key == r[m].key;
    NotEarlier(r, s, m, j);
    NotLater(kv, lo, hi, n, r, s, m, j);
  }

  lemma NotEarlier<V>(r: seq<Pair<V>>, s: seq<Pair<V>>, m: nat, j: nat)
    requires Ascending(r) && m < |r| && m <= |s| && r[..m] == s[..m] && j < |s| && s[j].key == r[m].key
    ensures m <= j
  {
    LtIrreflexive(r[m].key);
    assert forall i | 0 <= i < m :: r[i] == r[..m][i] && s[i] == s[..m][i];
  }

  lemma NotLater<V>(kv: map<Bytes, V>, lo: Bytes, hi: Option<Bytes>, n: nat, r: seq<Pair<V>>, s: seq<Pair<V>>,
      m: nat, j: nat)
    requires IsFirst(kv, lo, hi, n, r) && IsScan(kv, lo, hi, s) && m < |r| && m <= j < |s| && r[..m] == s[..m]
    requires s[j].key == r[m].key
    ensures j == m
  {
    if m < j {
      var k := s[m].key;
      assert Lt(k, r[m].key);
      LtIrreflexive(k);
      if Lt(r[m].key, k) {
        LtTransitive(k, r[m].key, k);
      }
      assert !Beyond(r, k);
      assert HasKey(r, k);
      var i :| 0 <= i < |r| && r[i].key == k;
      NotEarlier(s, r, m, i);
    }
  }

  lemma FirstLength<V>(kv: map<Bytes, V>, lo: Bytes, hi: Option<Bytes>, n: nat, r: seq<Pair<V>>, s: seq<Pair<V>>)
    requires IsFirst(kv, lo, hi, n, r) && IsScan(kv, lo, hi, s)
    ensures |r| == if |s| <= n then |s| else n
  {
    FirstAgrees(kv, lo, hi, n, r, s, |r|);
    if |r| < n {
      FewerThanLimitIsScan(kv, lo, hi, n, r);
      PrefixIsFirst(kv, lo, hi, |s|, s);
      FirstAgrees(kv, lo, hi, |s|, s, r, |s|);
    }
  }

  /** There is only one answer: the first entries are the prefix of the scan. */
  lemma FirstIsPrefix<V>(kv: map<Bytes, V>, lo: Bytes, hi: Option<Bytes>, n: nat, r: seq<Pair<V>>, s: seq<Pair<V>>)
    requires IsScan(kv, lo, hi, s)
    ensures IsFirst(kv, lo, hi, n, r) <==> r == if |s| <= n then s else s[..n]
  {
    PrefixIsFirst(kv, lo, hi, n, s);
    if IsFirst(kv, lo, hi, n, r) {
      FirstAgrees(kv, lo, hi, n, r, s, |r|);
      FirstLength(kv, lo, hi, n, r, s);
      assert r[..|r|] == r && s[..|s|] == s;
    }
  }

  /** The entries of a range in key order. */
  ghost function Listing<V(!new)>(kv: map<Bytes, V>, lo: Bytes, hi: Option<Bytes>): (s: seq<Pair<V>>)
    ensures IsScan(kv, lo, hi, s)
  {
    SomeScan(kv, lo, hi);
    var s :| IsScan(kv, lo, hi, s);
    s
  }

  lemma ListingIs<V(!new)>(kv: map<Bytes, V>, lo: Bytes, hi: Option<Bytes>, s: seq<Pair<V>>)
    ensures IsScan(kv, lo, hi, s) <==> s == Listing(kv, lo, hi)
  {
    var l := Listing(kv, lo, hi);
    if IsScan(kv, lo, hi, s) {
      PrefixIsFirst(kv, lo, hi, |s| + |l|, s);
      FirstIsPrefix(kv, lo, hi, |s| + |l|, s, l);
    }
  }

  function CapAt<T>(s: seq<T>, n: nat): seq<T> {
    if |s| <= n then s else s[..n]
  }

  // ----- One region after the other -----

  /** The answer of a region's server: the first `limit` visible pairs of the range, all of them for limit zero. */
  method KvScan(snap: map<Bytes, Bytes>, startKey: Bytes, endKey: Bytes, limit: nat) returns (pairs: seq<KvPair>)
    ensures limit == 0 ==> IsScan(snap, startKey, UpperBound(endKey), pairs)
    ensures limit > 0 ==> IsFirst(snap, startKey, UpperBound(endKey), limit, pairs)
  {
    var all := Scan(snap, startKey, UpperBound(endKey));
    PrefixIsFirst(snap, startKey, UpperBound(endKey), limit, all);
    pairs := if limit == 0 || |all| <= limit then all else all[..limit];
  }

  const REQUEST_LIMITS: nat := 0x1_0000_0000

  /** The limit field of a request has 32 bits. */
  function RequestLimit(remaining: nat): nat {
    remaining % REQUEST_LIMITS
  }

  /** A server's answer as a value. */
  ghost function Answer(snap: map<Bytes, Bytes>, lo: Bytes, hi: Option<Bytes>, limit: nat): seq<KvPair> {
    if limit == 0 then Listing(snap, lo, hi) else CapAt(Listing(snap, lo, hi), limit)
  }

  lemma AnswerIs(snap: map<Bytes, Bytes>, lo: Bytes, hi: Option<Bytes>, limit: nat, pairs: seq<KvPair>)
    ensures pairs == Answer(snap, lo, hi, limit)
            <==> if limit == 0 then IsScan(snap, lo, hi, pairs) else IsFirst(snap, lo, hi, limit, pairs)
  {
    ListingIs(snap, lo, hi, pairs);
    FirstIsPrefix(snap, lo, hi, limit, pairs, Listing(snap, lo, hi));
  }

  /** The upper bound is at or beyond key `k`. */
  predicate NotBefore(hi: Option<Bytes>, k: Bytes) {
    hi.None? || Le(k, hi.value)
  }

  predicate Within(inner: Option<Bytes>, outer: Option<Bytes>) {
    outer.None? || (inner.Some? && Le(inner.value, outer.value))
  }

  lemma RangeSplits(k: Bytes, lo: Bytes, mid: Bytes, hi: Option<Bytes>)
    requires Le(lo, mid) && (lo == mid || NotBefore(hi, mid))
    ensures InRange(k, lo, hi) <==> InRange(k, lo, Some(mid)) || InRange(k, mid, hi)
  {
    if InRange(k, mid, hi) {
      LeTransitive(lo, mid, k);
    }
    if InRange(k, lo, Some(mid)) && hi.Some? {
      LtLeTransitive(k, mid, hi.value);
    }
  }

  lemma RangeGrows(k: Bytes, lo: Bytes, mid: Option<Bytes>, hi: Option<Bytes>)
    requires Within(mid, hi) && InRange(k, lo, mid)
    ensures InRange(k, lo, hi)
  {
    if hi.Some? {
      LtLeTransitive(k, mid.value, hi.value);
    }
  }

  lemma JoinedAscending<V>(a: seq<Pair<V>>, b: seq<Pair<V>>, mid: Bytes)
    requires Ascending(a) && Ascending(b)
    requires forall i | 0 <= i < |a| :: Lt(a[i].key, mid)
    requires forall i | 0 <= i < |b| :: Le(mid, b[i].key)
    ensures Ascending(a + b)
  {
    forall i, j | 0 <= i < |a| && 0 <= j < |b| ensures Lt(a[i].key, b[j].key) {
      LtLeTransitive(a[i].key, mid, b[j].key);
    }
  }

  lemma HasKeyConcat<V>(a: seq<Pair<V>>, b: seq<Pair<V>>, k: Bytes)
    ensures HasKey(a + b, k) <==> HasKey(a, k) || HasKey(b, k)
  {
    if HasKey(a, k) {
      var i :| 0 <= i < |a| && a[i].key == k;
      assert (a + b)[i].key == k;
    }
    if HasKey(b, k) {
      var i :| 0 <= i < |b| && b[i].key == k;
      assert (a + b)[|a| + i].key == k;
    }
    if HasKey(a + b, k) {
      var i :| 0 <= i < |a + b| && (a + b)[i].key == k;
      assert if i < |a| then a[i].key == k else b[i - |a|].key == k;
    }
  }

  /** All of [lo, mid) and the first `n - |a|` of [mid, hi) are the first `n` of [lo, hi). */
  lemma JoinFirst<V>(kv: map<Bytes, V>, lo: Bytes, mid: Bytes, hi: Option<Bytes>, n: nat, a: seq<Pair<V>>,
      b: seq<Pair<V>>)
    requires Le(lo, mid) && (lo == mid || NotBefore(hi, mid)) && |a| <= n
    requires IsScan(kv, lo, Some(mid), a) && IsFirst(kv, mid, hi, n - |a|, b)
    ensures IsFirst(kv, lo, hi, n, a + b)
  {
    JoinedAscending(a, b, mid);
    forall k ensures InRange(k, lo, hi) <==> InRange(k, lo, Some(mid)) || InRange(k, mid, hi) {
      RangeSplits(k, lo, mid, hi);
    }
    ScanHasKeys(kv, lo, Some(mid), a);
    JoinFrom(kv, lo, mid, hi, a, b);
    forall k | k in kv && InRange(k, lo, hi) ensures HasKey(a + b, k) || (|a + b| == n && Beyond(a + b, k)) {
      HasKeyConcat(a, b, k);
      if InRange(k, mid, hi) && !HasKey(b, k) {
        forall i | 0 <= i < |a| ensures Lt(a[i].key, k) {
          LtLeTransitive(a[i].key, mid, k);
        }
      }
    }
  }

  lemma JoinFrom<V>(kv: map<Bytes, V>, lo: Bytes, mid: Bytes, hi: Option<Bytes>, a: seq<Pair<V>>, b: seq<Pair<V>>)
    requires From(kv, lo, Some(mid), a) && From(kv, mid, hi, b)
    requires forall k :: InRange(k, lo, hi) <==> InRange(k, lo, Some(mid)) || InRange(k, mid, hi)
    ensures From(kv, lo, hi, a + b)
  {
  }

  /** Reaching the limit before `mid` is reaching it before any later bound. */
  lemma LimitReached<V>(kv: map<Bytes, V>, lo: Bytes, mid: Option<Bytes>, hi: Option<Bytes>, n: nat, s: seq<Pair<V>>)
    requires IsFirst(kv, lo, mid, n, s) && |s| == n && Within(mid, hi)
    ensures IsFirst(kv, lo, hi, n, s)
  {
    forall k | InRange(k, lo, mid) ensures InRange(k, lo, hi) {
      RangeGrows(k, lo, mid, hi);
    }
    forall k | k in kv && InRange(k, lo, hi) ensures HasKey(s, k) || Beyond(s, k) {
      if !InRange(k, lo, mid) {
        assert Le(mid.value, k);
        forall i | 0 <= i < |s| ensures Lt(s[i].key, k) {
          LtLeTransitive(s[i].key, mid.value, k);
        }
      }
    }
  }

  ghost predicate EncodedEnd(r: RegionCache.Region) {
    r.end == [] || exists b :: r.end == MemComparable.Encoded(b)
  }

  /** Regions that cover every user key, with encoded user keys as bounds. */
  ghost predicate IsLayout(rs: seq<RegionCache.Region>) {
    && RegionCache.WellFormed(rs)
    && (forall i | 0 <= i < |rs| :: EncodedEnd(rs[i]))
    && (forall key: Bytes :: RegionCache.LinearFind(rs, MemComparable.Encoded(key)).Some?)
  }

  /** The region of a user key, by its position. */
  ghost function Home(rs: seq<RegionCache.Region>, key: Bytes): (i: nat)
    requires IsLayout(rs)
    ensures i < |rs| && RegionCache.Contains(rs[i], MemComparable.Encoded(key))
  {
    RegionCache.LinearFindIs(rs, MemComparable.Encoded(key));
    var i :| 0 <= i < |rs| && RegionCache.Contains(rs[i], MemComparable.Encoded(key));
    i
  }

  lemma HomeIsOnly(rs: seq<RegionCache.Region>, key: Bytes, i: nat)
    requires IsLayout(rs) && i < |rs| && RegionCache.Contains(rs[i], MemComparable.Encoded(key))
    ensures i == Home(rs, key)
  {
    var h := Home(rs, key);
    if i < h {
      RegionCache.BeforeExcludes(rs[i], rs[h], MemComparable.Encoded(key));
    } else if h < i {
      RegionCache.BeforeExcludes(rs[h], rs[i], MemComparable.Encoded(key));
    }
  }

  /** `e` is the end of the key's region as a user key, empty for none. */
  ghost predicate IsEnd(rs: seq<RegionCache.Region>, key: Bytes, e: Bytes)
    requires IsLayout(rs)
  {
    var end := rs[Home(rs, key)].end;
    if end == [] then e == [] else end == MemComparable.Encoded(e)
  }

  lemma EndIsOnly(rs: seq<RegionCache.Region>, key: Bytes, e: Bytes, e': Bytes)
    requires IsLayout(rs) && IsEnd(rs, key, e) && IsEnd(rs, key, e')
    ensures e == e'
  {
    if rs[Home(rs, key)].end != [] {
      MemComparable.EncodedDecodes(e, []);
      MemComparable.EncodedDecodes(e', []);
    }
  }

  lemma EndLiesBeyond(rs: seq<RegionCache.Region>, key: Bytes, e: Bytes)
    requires IsLayout(rs) && IsEnd(rs, key, e)
    ensures e == [] <==> rs[Home(rs, key)].end == []
    ensures e != [] ==> Lt(key, e)
  {
    if rs[Home(rs, key)].end != [] {
      var a, b := MemComparable.Encoded(key), MemComparable.Encoded(e);
      assert a + [] == a && b + [] == b;
      MemComparable.EncodedOrder(key, e, [], []);
    }
  }

  ghost function EndOf(rs: seq<RegionCache.Region>, key: Bytes): (e: Bytes)
    requires IsLayout(rs)
    ensures IsEnd(rs, key, e)
  {
    var end := rs[Home(rs, key)].end;
    if end == [] then []
    else
      var e :| end == MemComparable.Encoded(e);
      e
  }

  /** The region of a user key and its end as a user key, empty for none. */
  method LocateEnd(rs: seq<RegionCache.Region>, key: Bytes) returns (end: Bytes)
    requires IsLayout(rs)
    ensures end == EndOf(rs, key) && (end == [] || Lt(key, end))
  {
    var encoded := RegionCache.EncodeKey(key);
    var info := RegionCache.FindInCache(rs, encoded);
    ghost var idx :| 0 <= idx < |rs| && rs[idx] == info.value;
    HomeIsOnly(rs, key, idx);
    end := info.value.end;
    if |end| > 0 {
      ghost var b :| end == MemComparable.Encoded(b);
      MemComparable.EncodedDecodes(b, []);
      assert MemComparable.Encoded(b) + [] == end;
      var d := MemComparable.DecodeBytes(end);
      end := d.value;
    }
    EndIsOnly(rs, key, end, EndOf(rs, key));
    EndLiesBeyond(rs, key, end);
  }

  /** Moving to the end of a region leaves that region and all before it behind. */
  lemma RegionsBehind(rs: seq<RegionCache.Region>, idx: nat, key: Bytes, j: nat)
    requires RegionCache.WellFormed(rs) && idx < |rs| && j <= idx && rs[idx].end == key && key != []
    ensures !RegionCache.Contains(rs[j], key)
  {
    LtIrreflexive(key);
    if j < idx && RegionCache.Contains(rs[j], key) {
      assert RegionCache.Before(rs[j], rs[idx]);
      LtLeTransitive(key, rs[j].end, rs[idx].start);
      LtTransitive(key, rs[idx].start, key);
    }
  }

  lemma HomeAdvances(rs: seq<RegionCache.Region>, key: Bytes, e: Bytes)
    requires IsLayout(rs) && IsEnd(rs, key, e) && e != []
    ensures Home(rs, key) < Home(rs, e)
  {
    EndLiesBeyond(rs, key, e);
    if Home(rs, e) <= Home(rs, key) {
      RegionsBehind(rs, Home(rs, key), MemComparable.Encoded(e), Home(rs, e));
    }
  }

  // ----- What the loop computes -----

  /** The end of a request: the region's or the range's, whichever comes first. */
  function ScanEnd(regionEnd: Bytes, endKey: Bytes): Bytes {
    if regionEnd != [] && (endKey == [] || Lt(regionEnd, endKey)) then regionEnd else endKey
  }

  /** The loop stops after a region without end, or whose end is that of the range or beyond. */
  predicate IsLast(regionEnd: Bytes, endKey: Bytes) {
    regionEnd == [] || (endKey != [] && Le(endKey, regionEnd))
  }

  /** `before` and what the region of `key` answers. */
  ghost function WithRegion(rs: seq<RegionCache.Region>, snap: map<Bytes, Bytes>, endKey: Bytes, limit: nat, key: Bytes,
                            before: seq<KvPair>): seq<KvPair>
    requires IsLayout(rs) && |before| < limit
  {
    before + Answer(snap, key, UpperBound(ScanEnd(EndOf(rs, key), endKey)), RequestLimit(limit - |before|))
  }

  /** What is collected when the loop, at `key` with `before` collected, comes to its end. */
  ghost function Collected(rs: seq<RegionCache.Region>, snap: map<Bytes, Bytes>, endKey: Bytes, limit: nat, key: Bytes,
                           before: seq<KvPair>): seq<KvPair>
    requires IsLayout(rs) && |before| < limit
    decreases |rs| - Home(rs, key)
  {
    var now, regionEnd := WithRegion(rs, snap, endKey, limit, key, before), EndOf(rs, key);
    if |now| >= limit || IsLast(regionEnd, endKey) then now
    else HomeAdvances(rs, key, regionEnd); Collected(rs, snap, endKey, limit, regionEnd, now)
  }

  /** The pairs that Scan gets from the regions, for every limit. */
  ghost function Scanned(rs: seq<RegionCache.Region>, snap: map<Bytes, Bytes>, startKey: Bytes, endKey: Bytes,
                         limit: nat): seq<KvPair>
    requires IsLayout(rs)
  {
    if limit == 0 then [] else CapAt(Collected(rs, snap, endKey, limit, startKey, []), limit)
  }

  /** A region's answer, whichever limit was sent for up to 2^32 remaining pairs, appended and cut at the limit. */
  lemma AnswerJoins(snap: map<Bytes, Bytes>, lo: Bytes, mid: Bytes, hi: Option<Bytes>, n: nat, a: seq<KvPair>,
      b: seq<KvPair>)
    requires Le(lo, mid) && (lo == mid || NotBefore(hi, mid)) && |a| < n <= REQUEST_LIMITS
        && IsScan(snap, lo, Some(mid), a)
    requires if RequestLimit(n - |a|) == 0 then IsScan(snap, mid, hi, b)
             else IsFirst(snap, mid, hi, RequestLimit(n - |a|), b)
    ensures IsFirst(snap, lo, hi, n, CapAt(a + b, n))
  {
    if RequestLimit(n - |a|) == 0 {
      PrefixIsFirst(snap, mid, hi, n - |a|, b);
      JoinFirst(snap, lo, mid, hi, n, a, CapAt(b, n - |a|));
      assert CapAt(a + b, n) == a + CapAt(b, n - |a|);
    } else {
      assert RequestLimit(n - |a|) == n - |a|;
      JoinFirst(snap, lo, mid, hi, n, a, b);
    }
  }

  lemma BoundsOrdered(startKey: Bytes, currentKey: Bytes, regionEnd: Bytes, endKey: Bytes, scanEnd: Bytes)
    requires Le(startKey, currentKey) && (currentKey == startKey || NotBefore(UpperBound(endKey), currentKey))
    requires regionEnd != [] ==> Lt(currentKey, regionEnd)
    requires scanEnd == ScanEnd(regionEnd, endKey)
    ensures startKey == currentKey || NotBefore(UpperBound(scanEnd), currentKey)
    ensures Within(UpperBound(scanEnd), UpperBound(endKey))
    ensures regionEnd != [] ==> Le(startKey, regionEnd)
  {
    LtIrreflexive(endKey);
    if regionEnd != [] {
      LtAsymmetric(currentKey, regionEnd);
      LeTransitive(startKey, currentKey, regionEnd);
    }
    if endKey != [] && Lt(regionEnd, endKey) {
      LtAsymmetric(regionEnd, endKey);
    }
  }

  /** While all pairs before `key` have been collected, the loop ends with the first pairs of the range. */
  lemma {:induction false} CollectedIsFirst(rs: seq<RegionCache.Region>, snap: map<Bytes, Bytes>, startKey: Bytes,
      endKey: Bytes, limit: nat, key: Bytes, before: seq<KvPair>)
    requires IsLayout(rs) && |before| < limit <= REQUEST_LIMITS && IsScan(snap, startKey, Some(key), before)
    requires Le(startKey, key) && (key == startKey || NotBefore(UpperBound(endKey), key))
    ensures IsFirst(snap, startKey, UpperBound(endKey), limit,
                    CapAt(Collected(rs, snap, endKey, limit, key, before), limit))
    decreases |rs| - Home(rs, key)
  {
    var regionEnd := EndOf(rs, key);
    var scanEnd := ScanEnd(regionEnd, endKey);
    EndLiesBeyond(rs, key, regionEnd);
    BoundsOrdered(startKey, key, regionEnd, endKey, scanEnd);
    var pairs := Answer(snap, key, UpperBound(scanEnd), RequestLimit(limit - |before|));
    AnswerIs(snap, key, UpperBound(scanEnd), RequestLimit(limit - |before|), pairs);
    var now := WithRegion(rs, snap, endKey, limit, key, before);
    AnswerJoins(snap, startKey, key, UpperBound(scanEnd), limit, before, pairs);
    if |now| >= limit {
      LimitReached(snap, startKey, UpperBound(scanEnd), UpperBound(endKey), limit, CapAt(now, limit));
    } else if !IsLast(regionEnd, endKey) {
      FewerThanLimitIsScan(snap, startKey, Some(regionEnd), limit, now);
      HomeAdvances(rs, key, regionEnd);
      CollectedIsFirst(rs, snap, startKey, endKey, limit, regionEnd, now);
    }
  }

  /** For limits up to 2^32 the regions give the first pairs of the snapshot's whole range. */
  lemma ScannedIsFirst(rs: seq<RegionCache.Region>, snap: map<Bytes, Bytes>, startKey: Bytes, endKey: Bytes, limit: nat)
    requires IsLayout(rs) && limit <= REQUEST_LIMITS
    ensures IsFirst(snap, startKey, UpperBound(endKey), limit, Scanned(rs, snap, startKey, endKey, limit))
  {
    LtIrreflexive(startKey);
    if limit > 0 {
      CollectedIsFirst(rs, snap, startKey, endKey, limit, startKey, []);
    }
  }

  // ----- The loop -----

  /** One round: the region of the current key is asked, and the scan goes on at its end or stops. */
  method ScanOneRegion(rs: seq<RegionCache.Region>, snap: map<Bytes, Bytes>, endKey: Bytes, limit: nat,
                       currentKey: Bytes, before: seq<KvPair>)
    returns (rpc: seq<KvPair>, next: Option<Bytes>)
    requires IsLayout(rs) && |before| < limit
    ensures next.None? ==> rpc == Collected(rs, snap, endKey, limit, currentKey, before)
    ensures next.Some? ==>
              && |rpc| < limit && Home(rs, currentKey) < Home(rs, next.value)
              && Collected(rs, snap, endKey, limit, next.value, rpc)
                 == Collected(rs, snap, endKey, limit, currentKey, before)
  {
    var regionEnd := LocateEnd(rs, currentKey);
    var scanEnd := endKey;
    if |regionEnd| > 0 && (|scanEnd| == 0 || Lt(regionEnd, scanEnd)) {
      scanEnd := regionEnd;
    }
    var pairs := KvScan(snap, currentKey, scanEnd, RequestLimit(limit - |before|));
    AnswerIs(snap, currentKey, UpperBound(scanEnd), RequestLimit(limit - |before|), pairs);
    rpc := before + pairs;
    if |rpc| >= limit {
      return rpc, None;
    }
    if |regionEnd| == 0 || (|endKey| > 0 && Le(endKey, regionEnd)) {
      return rpc, None;
    }
    HomeAdvances(rs, currentKey, regionEnd);
    return rpc, Some(regionEnd);
  }

  /** The multi-region loop of Scan. It ends because each round leaves a region behind. */
  method ScanRegions(rs: seq<RegionCache.Region>, snap: map<Bytes, Bytes>, startKey: Bytes, endKey: Bytes, limit: nat)
    returns (rpc: seq<KvPair>)
    requires IsLayout(rs)
    ensures rpc == Scanned(rs, snap, startKey, endKey, limit)
    ensures limit <= REQUEST_LIMITS ==> IsFirst(snap, startKey, UpperBound(endKey), limit, rpc)
  {
    rpc := [];
    if limit == 0 {
      return;
    }
    var next := Some(startKey);
    while next.Some?
      invariant next.Some? ==> |rpc| < limit
      invariant Collected(rs, snap, endKey, limit, startKey, [])
             == if next.None? then rpc else Collected(rs, snap, endKey, limit, next.value, rpc)
      decreases if next.Some? then |rs| - Home(rs, next.value) else 0
    {
      rpc, next := ScanOneRegion(rs, snap, endKey, limit, next.value, rpc);
    }
    if |rpc| > limit {
      rpc := rpc[..limit];
    }
    if limit <= REQUEST_LIMITS {
      ScannedIsFirst(rs, snap, startKey, endKey, limit);
    }
  }
}
