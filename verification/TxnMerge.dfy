/** Merging scan results with the transaction's own writes (pkg/client/txn.go). The merge itself is the overlay of its
    two inputs; because the pairs were fetched with the limit already applied, a buffered delete can make the whole scan
    miss pairs. */
module TxnMerge {
  import opened Bytes
  import opened KvEngine
  import opened TxnScan

  /** A buffered write; `None` is a delete. */
  type Entry = Pair<Option<Bytes>>

  type Snapshot = map<Bytes, Bytes>
  type Buffer = map<Bytes, Option<Bytes>>

  /** What the transaction sees: its own writes over the snapshot. */
  function Overlay(snap: Snapshot, buf: Buffer): Snapshot {
    map k | k in snap.Keys + buf.Keys && !(k in buf && buf[k].None?) :: if k in buf then buf[k].value else snap[k]
  }

  // ----- The merge -----

  function Live(e: Entry): (r: seq<KvPair>) {
    if e.value.None? then [] else [Pair(e.key, e.value.value)]
  }

  /** Both lists in key order, buffered entries winning and buffered deletes dropped. */
  function Merge(a: seq<KvPair>, b: seq<Entry>): seq<KvPair>
    decreases |a| + |b|
  {
    if a == [] && b == [] then []
    else if a == [] || (b != [] && Lt(b[0].key, a[0].key)) then Live(b[0]) + Merge(a, b[1..])
    else if b == [] || Lt(a[0].key, b[0].key) then [a[0]] + Merge(a[1..], b)
    else Live(b[0]) + Merge(a[1..], b[1..])
  }

  /** mergeResults: the merging loop stops at the limit. */
  method MergeResults(rpc: seq<KvPair>, buf: seq<Entry>, limit: nat) returns (merged: seq<KvPair>)
    ensures merged == CapAt(Merge(rpc, buf), limit)
  {
    merged := [];
    var i, j := 0, 0;
    while |merged| < limit && (i < |rpc| || j < |buf|)
      invariant i <= |rpc| && j <= |buf| && |merged| <= limit
      invariant merged + Merge(rpc[i..], buf[j..]) == Merge(rpc, buf)
      decreases |rpc| - i + |buf| - j
    {
      ghost var a, b, was := rpc[i..], buf[j..], merged;
      assert a != [] ==> a[1..] == rpc[i + 1..];
      assert b != [] ==> b[1..] == buf[j + 1..];
      if i >= |rpc| {
        if buf[j].value.Some? {
          merged := merged + [Pair(buf[j].key, buf[j].value.value)];
        }
        j := j + 1;
      } else if j >= |buf| {
        merged := merged + [rpc[i]];
        i := i + 1;
      } else if Lt(rpc[i].key, buf[j].key) {
        LtAsymmetric(rpc[i].key, buf[j].key);
        merged := merged + [rpc[i]];
        i := i + 1;
      } else if Lt(buf[j].key, rpc[i].key) {
        if buf[j].value.Some? {
          merged := merged + [Pair(buf[j].key, buf[j].value.value)];
        }
        j := j + 1;
      } else {
        if buf[j].value.Some? {
          merged := merged + [Pair(buf[j].key, buf[j].value.value)];
        }
        i, j := i + 1, j + 1;
      }
      MoveHead(was, Merge(a, b), merged, Merge(rpc[i..], buf[j..]));
    }
    assert merged <= Merge(rpc, buf);
  }

  /** Moving the head of what is left to what is done leaves the concatenation the same. */
  lemma MoveHead(was: seq<KvPair>, left: seq<KvPair>, now: seq<KvPair>, left': seq<KvPair>)
    requires exists h :: now == was + h && left == h + left'
    ensures was + left == now + left'
  {
    var h :| now == was + h && left == h + left';
    assert was + (h + left') == was + h + left';
  }

  lemma {:induction false} MergeWithNothing(a: seq<KvPair>)
    ensures Merge(a, []) == a
  {
    if a != [] {
      MergeWithNothing(a[1..]);
      assert a == [a[0]] + a[1..];
    }
  }

  // ----- What the merge is -----

  lemma {:induction false} MergeAbove(a: seq<KvPair>, b: seq<Entry>, x: Bytes)
    requires (forall i | 0 <= i < |a| :: Lt(x, a[i].key)) && forall i | 0 <= i < |b| :: Lt(x, b[i].key)
    ensures forall i | 0 <= i < |Merge(a, b)| :: Lt(x, Merge(a, b)[i].key)
    decreases |a| + |b|
  {
    if a == [] && b == [] {
    } else if a == [] || (b != [] && Lt(b[0].key, a[0].key)) {
      MergeAbove(a, b[1..], x);
    } else if b == [] || Lt(a[0].key, b[0].key) {
      MergeAbove(a[1..], b, x);
    } else {
      MergeAbove(a[1..], b[1..], x);
    }
  }

  /** All keys of an ascending list lie above any key below its head. */
  lemma AboveHead<V>(s: seq<Pair<V>>, x: Bytes)
    requires Ascending(s) && (s == [] || Lt(x, s[0].key))
    ensures forall i | 0 <= i < |s| :: Lt(x, s[i].key)
  {
    forall i | 0 <= i < |s| ensures Lt(x, s[i].key) {
      if i > 0 {
        LtTransitive(x, s[0].key, s[i].key);
      }
    }
  }

  lemma {:induction false} MergeAscending(a: seq<KvPair>, b: seq<Entry>)
    requires Ascending(a) && Ascending(b)
    ensures Ascending(Merge(a, b))
    decreases |a| + |b|
  {
    if a == [] && b == [] {
    } else if a == [] || (b != [] && Lt(b[0].key, a[0].key)) {
      AboveHead(a, b[0].key);
      MergeAbove(a, b[1..], b[0].key);
      MergeAscending(a, b[1..]);
    } else if b == [] || Lt(a[0].key, b[0].key) {
      AboveHead(b, a[0].key);
      MergeAbove(a[1..], b, a[0].key);
      MergeAscending(a[1..], b);
    } else {
      LtTrichotomy(a[0].key, b[0].key);
      MergeAbove(a[1..], b[1..], b[0].key);
      MergeAscending(a[1..], b[1..]);
    }
  }

  /** A pair is in the merge when the buffer puts it, or it was fetched and the buffer does not mention its key. */
  ghost predicate Merged(a: seq<KvPair>, b: seq<Entry>, p: KvPair) {
    Pair(p.key, Some(p.value)) in b || (p in a && !HasKey(b, p.key))
  }

  lemma {:induction false} MergeMembers(a: seq<KvPair>, b: seq<Entry>, p: KvPair)
    requires Ascending(a) && Ascending(b)
    ensures p in Merge(a, b) <==> Merged(a, b, p)
    decreases |a| + |b|
  {
    if a == [] && b == [] {
    } else if a == [] || (b != [] && Lt(b[0].key, a[0].key)) {
      MergeMembers(a, b[1..], p);
      AboveHead(a, b[0].key);
      BufferHead(a, b, p);
    } else if b == [] || Lt(a[0].key, b[0].key) {
      MergeMembers(a[1..], b, p);
      AboveHead(b, a[0].key);
      FetchedHead(a, b, p);
    } else {
      LtTrichotomy(a[0].key, b[0].key);
      MergeMembers(a[1..], b[1..], p);
      AboveHead(a[1..], b[0].key);
      BufferHead(a[1..], b, p);
      SameHead(a, b, p);
    }
  }

  lemma HasKeyHead<V>(b: seq<Pair<V>>, k: Bytes)
    requires b != []
    ensures HasKey(b, k) <==> k == b[0].key || HasKey(b[1..], k)
  {
    assert b == b[..1] + b[1..];
    HasKeyConcat(b[..1], b[1..], k);
    assert HasKey(b[..1], k) <==> b[..1][0].key == k;
  }

  lemma InHead<V>(b: seq<Pair<V>>, p: Pair<V>)
    requires b != []
    ensures p in b <==> p == b[0] || p in b[1..]
  {
    assert b == [b[0]] + b[1..];
  }

  lemma BufferHead(a: seq<KvPair>, b: seq<Entry>, p: KvPair)
    requires b != [] && Ascending(b) && forall i | 0 <= i < |a| :: Lt(b[0].key, a[i].key)
    ensures Merged(a, b, p) <==> p in Live(b[0]) || Merged(a, b[1..], p)
  {
    HasKeyHead(b, p.key);
    InHead(b, Pair(p.key, Some(p.value)));
    LtIrreflexive(p.key);
  }

  lemma FetchedHead(a: seq<KvPair>, b: seq<Entry>, p: KvPair)
    requires a != [] && forall i | 0 <= i < |b| :: Lt(a[0].key, b[i].key)
    ensures Merged(a, b, p) <==> p == a[0] || Merged(a[1..], b, p)
  {
    InHead(a, p);
    LtIrreflexive(p.key);
  }

  lemma SameHead(a: seq<KvPair>, b: seq<Entry>, p: KvPair)
    requires a != [] && b != [] && a[0].key == b[0].key
    ensures Merged(a, b, p) <==> Merged(a[1..], b, p)
  {
    InHead(a, p);
    HasKeyHead(b, p.key);
  }

  /** Merging the scans of the snapshot and of the buffer is scanning what the transaction sees. */
  lemma MergeIsOverlay(snap: Snapshot, buf: Buffer, lo: Bytes, hi: Option<Bytes>, a: seq<KvPair>, b: seq<Entry>)
    requires IsScan(snap, lo, hi, a) && IsScan(buf, lo, hi, b)
    ensures IsScan(Overlay(snap, buf), lo, hi, Merge(a, b))
  {
    MergeAscending(a, b);
    var m, kv := Merge(a, b), Overlay(snap, buf);
    forall i | 0 <= i < |m| ensures m[i].key in kv && kv[m[i].key] == m[i].value && InRange(m[i].key, lo, hi) {
      MergeMembers(a, b, m[i]);
      MergedIsSeen(snap, buf, lo, hi, a, b, m[i]);
    }
    forall k | k in kv && InRange(k, lo, hi) ensures exists i :: 0 <= i < |m| && m[i].key == k {
      MergeMembers(a, b, Pair(k, kv[k]));
      SeenIsMerged(snap, buf, lo, hi, a, b, k);
      assert Pair(k, kv[k]) in m;
    }
  }

  lemma MergedIsSeen(snap: Snapshot, buf: Buffer, lo: Bytes, hi: Option<Bytes>, a: seq<KvPair>, b: seq<Entry>,
      p: KvPair)
    requires IsScan(snap, lo, hi, a) && IsScan(buf, lo, hi, b) && Merged(a, b, p)
    ensures p.key in Overlay(snap, buf) && Overlay(snap, buf)[p.key] == p.value && InRange(p.key, lo, hi)
  {
    if Pair(p.key, Some(p.value)) in b {
      var i :| 0 <= i < |b| && b[i] == Pair(p.key, Some(p.value));
    } else {
      var i :| 0 <= i < |a| && a[i] == p;
      ScanMembers(buf, lo, hi, b, p.key);
    }
  }

  lemma SeenIsMerged(snap: Snapshot, buf: Buffer, lo: Bytes, hi: Option<Bytes>, a: seq<KvPair>, b: seq<Entry>, k: Bytes)
    requires IsScan(snap, lo, hi, a) && IsScan(buf, lo, hi, b) && k in Overlay(snap, buf) && InRange(k, lo, hi)
    ensures Merged(a, b, Pair(k, Overlay(snap, buf)[k]))
  {
    ScanMembers(snap, lo, hi, a, k);
    ScanMembers(buf, lo, hi, b, k);
  }

  lemma ScanMembers<V>(kv: map<Bytes, V>, lo: Bytes, hi: Option<Bytes>, s: seq<Pair<V>>, k: Bytes)
    requires IsScan(kv, lo, hi, s)
    ensures HasKey(s, k) <==> k in kv && InRange(k, lo, hi)
    ensures k in kv && InRange(k, lo, hi) ==> Pair(k, kv[k]) in s
  {
    if k in kv && InRange(k, lo, hi) {
      var i :| 0 <= i < |s| && s[i].key == k;
      assert s[i] == Pair(k, kv[k]);
    }
  }

  // ----- The whole scan -----

  /** A range and a limit. */
  datatype Query = Query(lo: Bytes, hi: Option<Bytes>, n: nat) {
    predicate In(k: Bytes) { InRange(k, lo, hi) }

    /** `s` is the answer on `kv`. */
    ghost predicate Answers(kv: Snapshot, s: seq<KvPair>) { IsFirst(kv, lo, hi, n, s) }
  }

  /** The part of the snapshot that was fetched. */
  ghost function Fetched(snap: Snapshot, rpc: seq<KvPair>): Snapshot {
    map k | k in snap && HasKey(rpc, k) :: snap[k]
  }

  lemma FetchedIsScanned(q: Query, snap: Snapshot, rpc: seq<KvPair>)
    requires q.Answers(snap, rpc)
    ensures IsScan(Fetched(snap, rpc), q.lo, q.hi, rpc)
  {
    forall i | 0 <= i < |rpc| ensures rpc[i].key in Fetched(snap, rpc) {
      assert HasKey(rpc, rpc[i].key);
    }
  }

  /** A visible key of the range that was not fetched and that the buffer does not mention. */
  ghost predicate Unfetched(q: Query, snap: Snapshot, buf: Buffer, rpc: seq<KvPair>, k: Bytes) {
    k in snap && q.In(k) && !HasKey(rpc, k) && k !in buf
  }

  /** `r` is what mergeResults makes of the first pairs of the snapshot and the buffer. */
  ghost predicate IsMerge(q: Query, snap: Snapshot, buf: Buffer, rpc: seq<KvPair>, r: seq<KvPair>) {
    q.Answers(snap, rpc) && q.Answers(Overlay(Fetched(snap, rpc), buf), r)
  }

  lemma MergeIsFirst(q: Query, snap: Snapshot, buf: Buffer, rpc: seq<KvPair>, b: seq<Entry>)
    requires q.Answers(snap, rpc) && IsScan(buf, q.lo, q.hi, b)
    ensures IsMerge(q, snap, buf, rpc, CapAt(Merge(rpc, b), q.n))
  {
    FetchedIsScanned(q, snap, rpc);
    MergeIsOverlay(Fetched(snap, rpc), buf, q.lo, q.hi, rpc, b);
    PrefixIsFirst(Overlay(Fetched(snap, rpc), buf), q.lo, q.hi, q.n, Merge(rpc, b));
  }

  /** The result is what the transaction sees first exactly when every key that was not fetched lies beyond it. */
  lemma ScanIsExact(q: Query, snap: Snapshot, buf: Buffer, rpc: seq<KvPair>, r: seq<KvPair>)
    requires IsMerge(q, snap, buf, rpc, r)
    ensures q.Answers(Overlay(snap, buf), r)
            <==> forall k | Unfetched(q, snap, buf, rpc, k) :: |r| == q.n && Beyond(r, k)
  {
    var seen, part := Overlay(snap, buf), Overlay(Fetched(snap, rpc), buf);
    assert From(seen, q.lo, q.hi, r);
    forall k | Unfetched(q, snap, buf, rpc, k) ensures k in seen && !HasKey(r, k) {
      assert k !in part;
    }
    if forall k | Unfetched(q, snap, buf, rpc, k) :: |r| == q.n && Beyond(r, k) {
      forall k | k in seen && q.In(k) ensures HasKey(r, k) || (|r| == q.n && Beyond(r, k)) {
        assert k in part || Unfetched(q, snap, buf, rpc, k);
      }
    }
  }

  // ----- Counting keys -----

  ghost function Keys<V>(s: seq<Pair<V>>): set<Bytes> {
    set i | 0 <= i < |s| :: s[i].key
  }

  lemma {:induction false} KeysCount<V>(s: seq<Pair<V>>)
    requires Ascending(s)
    ensures |Keys(s)| == |s|
  {
    if s != [] {
      var n := |s| - 1;
      KeysCount(s[..n]);
      assert s == s[..n] + [s[n]];
      assert Keys(s) == Keys(s[..n]) + {s[n].key};
      LtIrreflexive(s[n].key);
    }
  }

  ghost predicate AllIn(ks: set<Bytes>, lo: Bytes, u: Bytes) {
    forall k | k in ks :: InRange(k, lo, Some(u))
  }

  lemma KeyIsEarlier<V>(b: seq<Pair<V>>, k: Bytes, j: nat)
    requires Ascending(b) && j < |b| && HasKey(b, k) && Lt(k, b[j].key)
    ensures k in Keys(b[..j])
  {
    var i :| 0 <= i < |b| && b[i].key == k;
    LtIrreflexive(k);
    if j < i {
      LtTransitive(k, b[j].key, k);
    }
    assert b[..j][i].key == k;
  }

  /** With `n` keys below `k`, the first `n` do not reach `k`. */
  lemma ManyBelow(q: Query, part: Snapshot, r: seq<KvPair>, k: Bytes, xs: set<Bytes>)
    requires q.Answers(part, r) && q.In(k) && k !in part
    requires xs <= part.Keys && AllIn(xs, q.lo, k) && |xs| >= q.n
    ensures |r| == q.n && Beyond(r, k)
  {
    forall x | x in xs ensures q.In(x) {
      if q.hi.Some? {
        LtTransitive(x, k, q.hi.value);
      }
    }
    KeysCount(r);
    if |r| < q.n {
      assert xs <= Keys(r) by {
        forall x | x in xs ensures x in Keys(r) {
          assert HasKey(r, x);
        }
      }
      SubsetCount(xs, Keys(r));
    }
    forall i | 0 <= i < |r| ensures Lt(r[i].key, k) {
      LtTrichotomy(r[i].key, k);
      if Lt(k, r[i].key) {
        ReachesPast(q, part, r, k, xs, i);
      }
    }
  }

  lemma ReachesPast(q: Query, part: Snapshot, r: seq<KvPair>, k: Bytes, xs: set<Bytes>, i: nat)
    requires q.Answers(part, r) && xs <= part.Keys && AllIn(xs, q.lo, k) && forall x | x in xs :: q.In(x)
    requires i < |r| && Lt(k, r[i].key)
    ensures |xs| <= i
  {
    forall x | x in xs ensures x in Keys(r[..i]) {
      LtTransitive(x, k, r[i].key);
      LtIrreflexive(x);
      if Lt(r[i].key, x) {
        LtTransitive(x, r[i].key, x);
      }
      assert !Beyond(r, x);
      KeyIsEarlier(r, x, i);
    }
    KeysCount(r[..i]);
    SubsetCount(xs, Keys(r[..i]));
  }
}
