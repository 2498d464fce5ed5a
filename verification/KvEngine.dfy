/** The storage engine as a contract: an ordered map from keys to values, with range deletion, atomic
    batches of puts, and iteration in key order. */
module KvEngine {
  import opened Bytes

  /** `lo <= k`, and `k < hi` unless `hi` is `None`. */
  predicate InRange(k: Bytes, lo: Bytes, hi: Option<Bytes>) {
    Le(lo, k) && (hi.Some? ==> Lt(k, hi.value))
  }

  /** An empty end key means there is no upper bound. */
  function UpperBound(endKey: Bytes): Option<Bytes> {
    if endKey == [] then None else Some(endKey)
  }

  /** DeleteRange(lo, hi): removes the keys in [lo, hi). */
  function DeleteRange<V>(kv: map<Bytes, V>, lo: Bytes, hi: Bytes): (r: map<Bytes, V>)
    ensures forall k | k in kv :: k in r <==> !InRange(k, lo, Some(hi))
    ensures forall k | k in r :: k in kv && r[k] == kv[k]
  {
    map k | k in kv && !InRange(k, lo, Some(hi)) :: kv[k]
  }

  datatype Put<K, V> = Put(key: K, value: V)

  /** The contents after a batch of puts, later ones winning. */
  function AfterPuts<K(==), V>(kv: map<K, V>, puts: seq<Put<K, V>>): (r: map<K, V>) {
    if puts == [] then kv
    else
      var p := puts[|puts| - 1];
      AfterPuts(kv, puts[..|puts| - 1])[p.key := p.value]
  }

  lemma {:induction false} AfterPutsConcat<K, V>(kv: map<K, V>, a: seq<Put<K, V>>, b: seq<Put<K, V>>)
    ensures AfterPuts(kv, a + b) == AfterPuts(AfterPuts(kv, a), b)
  {
    if b == [] {
      assert a + b == a;
    } else {
      assert (a + b)[..|a + b| - 1] == a + b[..|b| - 1];
      AfterPutsConcat(kv, a, b[..|b| - 1]);
    }
  }

  lemma {:induction false} UnwrittenIsKept<K, V>(kv: map<K, V>, puts: seq<Put<K, V>>, k: K)
    requires forall i | 0 <= i < |puts| :: puts[i].key != k
    ensures k in AfterPuts(kv, puts) <==> k in kv
    ensures k in kv ==> AfterPuts(kv, puts)[k] == kv[k]
  {
    if puts != [] {
      UnwrittenIsKept(kv, puts[..|puts| - 1], k);
    }
  }

  /** The last put to a key is what is read. */
  lemma {:induction false} LastPutWins<K, V>(kv: map<K, V>, puts: seq<Put<K, V>>, i: nat)
    requires i < |puts| && forall j | i < j < |puts| :: puts[j].key != puts[i].key
    ensures puts[i].key in AfterPuts(kv, puts) && AfterPuts(kv, puts)[puts[i].key] == puts[i].value
  {
    if i < |puts| - 1 {
      LastPutWins(kv, puts[..|puts| - 1], i);
    }
  }

  // ----- Iteration -----

  datatype Pair<V> = Pair(key: Bytes, value: V)

  /** `s` lists exactly the entries of `kv` in the range, in strictly ascending key order. */
  ghost predicate IsScan<V>(kv: map<Bytes, V>, lo: Bytes, hi: Option<Bytes>, s: seq<Pair<V>>) {
    && Ascending(s)
    && (forall i | 0 <= i < |s| :: s[i].key in kv && kv[s[i].key] == s[i].value && InRange(s[i].key, lo, hi))
    && (forall k | k in kv && InRange(k, lo, hi) :: exists i :: 0 <= i < |s| && s[i].key == k)
  }

  ghost predicate Ascending<V>(s: seq<Pair<V>>) {
    forall i, j | 0 <= i < j < |s| :: Lt(s[i].key, s[j].key)
  }

  /** Iterating a range from its first key. */
  method Scan<V>(kv: map<Bytes, V>, lo: Bytes, hi: Option<Bytes>) returns (s: seq<Pair<V>>)
    ensures IsScan(kv, lo, hi, s)
  {
    s := [];
    var left := set k | k in kv && InRange(k, lo, hi);
    while left != {}
      invariant left <= kv.Keys && Ascending(s)
      invariant forall k | k in left :: InRange(k, lo, hi)
      invariant forall i | 0 <= i < |s| :: s[i].key in kv && kv[s[i].key] == s[i].value && InRange(s[i].key, lo, hi)
      invariant forall i, k | 0 <= i < |s| && k in left :: Lt(s[i].key, k)
      invariant forall k | k in kv && InRange(k, lo, hi) :: k in left || exists i :: 0 <= i < |s| && s[i].key == k
      decreases |left|
    {
      var m := Least(left);
      ghost var before := s;
      s := s + [Pair(m, kv[m])];
      left := left - {m};
      assert s[|before|].key == m;
      forall k | k in kv && InRange(k, lo, hi) && k !in left ensures exists i :: 0 <= i < |s| && s[i].key == k {
        if k != m {
          var i :| 0 <= i < |before| && before[i].key == k;
          assert s[i].key == k;
        }
      }
      forall k | k in left ensures Lt(m, k) {
        LtTrichotomy(m, k);
      }
    }
  }

  method Least(ks: set<Bytes>) returns (m: Bytes)
    requires ks != {}
    ensures m in ks && forall k | k in ks :: Le(m, k)
  {
    m :| m in ks;
    var seen := {m};
    LtIrreflexive(m);
    while seen != ks
      invariant m in seen && seen <= ks
      invariant forall k | k in seen :: Le(m, k)
      decreases |ks - seen|
    {
      var x :| x in ks - seen;
      ghost var was := m;
      if Lt(x, m) {
        m := x;
      }
      ghost var old' := seen;
      seen := seen + {x};
      assert ks - seen < ks - old';
      LtIrreflexive(x);
      forall k | k in seen ensures Le(m, k) {
        if k != x && Lt(k, m) && m == x {
          LtTransitive(k, x, was);
        }
      }
    }
  }

  // ----- Scans exist -----

  lemma {:induction false} GreatestExists(ks: set<Bytes>) returns (m: Bytes)
    requires ks != {}
    ensures m in ks && forall k | k in ks && k != m :: Lt(k, m)
    decreases |ks|
  {
    m :| m in ks;
    if ks != {m} {
      var rest := ks - {m};
      var top := GreatestExists(rest);
      LtTrichotomy(m, top);
      if Lt(m, top) {
        m := top;
      } else {
        forall k | k in ks && k != m ensures Lt(k, m) {
          if k != top {
            LtTransitive(k, top, m);
          }
        }
      }
    }
  }

  lemma {:induction false} ScanExists<V>(kv: map<Bytes, V>, lo: Bytes, hi: Option<Bytes>) returns (s: seq<Pair<V>>)
    ensures IsScan(kv, lo, hi, s)
    decreases |kv|
  {
    var ks := set k | k in kv && InRange(k, lo, hi);
    if ks == {} {
      s := [];
      assert forall k | k in kv && InRange(k, lo, hi) :: k in ks;
    } else {
      var m := GreatestExists(ks);
      var rest := kv - {m};
      assert |rest.Keys| == |kv.Keys| - 1;
      var front := ScanExists(rest, lo, hi);
      s := front + [Pair(m, kv[m])];
      forall i | 0 <= i < |front| ensures Lt(front[i].key, m) {
        assert front[i].key in ks;
      }
      forall k | k in kv && InRange(k, lo, hi) ensures exists i :: 0 <= i < |s| && s[i].key == k {
        if k == m {
          assert s[|front|].key == k;
        } else {
          var i :| 0 <= i < |front| && front[i].key == k;
          assert s[i].key == k;
        }
      }
    }
  }

  lemma SomeScan<V>(kv: map<Bytes, V>, lo: Bytes, hi: Option<Bytes>)
    ensures exists s: seq<Pair<V>> :: IsScan(kv, lo, hi, s)
  {
    var s := ScanExists(kv, lo, hi);
  }
}
