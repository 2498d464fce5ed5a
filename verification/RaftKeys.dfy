/** The local keys of the Raft column family (pkg/keys/keys.go). */
module RaftKeys {
  import opened Bytes
  import opened KvEngine

  const LOCAL_PREFIX: byte := 0x01
  const REGION_RAFT_PREFIX: byte := 0x02
  const REGION_META_PREFIX: byte := 0x03
  const RAFT_LOG_SUFFIX: byte := 0x01
  const RAFT_STATE_SUFFIX: byte := 0x02
  const APPLY_STATE_SUFFIX: byte := 0x03
  const REGION_STATE_SUFFIX: byte := 0x01

  /** What a local key names. */
  datatype LocalKey =
    | LogKey(region: uint64, index: uint64)
    | StateKey(region: uint64)
    | ApplyKey(region: uint64)
    | MetaKey(region: uint64)

  function Head(category: byte, region: uint64): (h: Bytes)
    ensures |h| == 10
  {
    [LOCAL_PREFIX, category] + BE(region, 8)
  }

  function Encode(k: LocalKey): (b: Bytes) {
    match k
    case LogKey(r, i) => Head(REGION_RAFT_PREFIX, r) + ([RAFT_LOG_SUFFIX] + BE(i, 8))
    case StateKey(r) => Head(REGION_RAFT_PREFIX, r) + [RAFT_STATE_SUFFIX]
    case ApplyKey(r) => Head(REGION_RAFT_PREFIX, r) + [APPLY_STATE_SUFFIX]
    case MetaKey(r) => Head(REGION_META_PREFIX, r) + [REGION_STATE_SUFFIX]
  }

  function RaftLogKey(region: uint64, index: uint64): Bytes { Encode(LogKey(region, index)) }
  function RaftStateKey(region: uint64): Bytes { Encode(StateKey(region)) }

  function CategoryOf(k: LocalKey): byte {
    if k.MetaKey? then REGION_META_PREFIX else REGION_RAFT_PREFIX
  }

  function TailOf(k: LocalKey): Bytes {
    match k
    case LogKey(_, i) => [RAFT_LOG_SUFFIX] + BE(i, 8)
    case StateKey(_) => [RAFT_STATE_SUFFIX]
    case ApplyKey(_) => [APPLY_STATE_SUFFIX]
    case MetaKey(_) => [REGION_STATE_SUFFIX]
  }

  lemma HeadInjective(c: byte, r: uint64, d: byte, q: uint64)
    ensures Head(c, r) == Head(d, q) <==> c == d && r == q
  {
    Pow256Of8();
    BEOrder(r, q, 8);
    assert Head(c, r)[1] == c && Head(d, q)[1] == d;
    assert Head(c, r)[2..] == BE(r, 8) && Head(d, q)[2..] == BE(q, 8);
  }

  lemma KeyOrder(k: LocalKey, l: LocalKey)
    ensures Lt(Encode(k), Encode(l)) <==>
              Lt(Head(CategoryOf(k), k.region), Head(CategoryOf(l), l.region))
              || (CategoryOf(k) == CategoryOf(l) && k.region == l.region && Lt(TailOf(k), TailOf(l)))
  {
    LtConcat(Head(CategoryOf(k), k.region), Head(CategoryOf(l), l.region), TailOf(k), TailOf(l));
    HeadInjective(CategoryOf(k), k.region, CategoryOf(l), l.region);
  }

  /** Different local keys have different encodings. */
  lemma EncodeInjective(k: LocalKey, l: LocalKey)
    ensures Encode(k) == Encode(l) <==> k == l
  {
    if Encode(k) == Encode(l) {
      assert Encode(k)[..10] == Head(CategoryOf(k), k.region) && Encode(l)[..10] == Head(CategoryOf(l), l.region);
      assert Encode(k)[10..] == TailOf(k) && Encode(l)[10..] == TailOf(l);
      HeadInjective(CategoryOf(k), k.region, CategoryOf(l), l.region);
      assert TailOf(k)[0] == TailOf(l)[0];
      if k.LogKey? {
        Pow256Of8();
        BEOrder(k.index, l.index, 8);
        assert TailOf(k)[1..] == BE(k.index, 8) && TailOf(l)[1..] == BE(l.index, 8);
      }
    }
  }

  /** Among the keys of one region, log keys come first and are ordered by index. */
  lemma TailOrder(k: LocalKey, i: uint64)
    requires !k.MetaKey?
    ensures Lt(TailOf(k), TailOf(LogKey(k.region, i))) <==> k.LogKey? && k.index < i
  {
    Pow256Of8();
    if k.LogKey? {
      BEOrder(k.index, i, 8);
      LtConcat([RAFT_LOG_SUFFIX], [RAFT_LOG_SUFFIX], BE(k.index, 8), BE(i, 8));
    }
  }

  /** The key interval of a log garbage-collection task holds exactly that region's log keys in the given
      index interval. */
  lemma LogIntervalIsExact(region: uint64, start: uint64, end: uint64, k: LocalKey)
    ensures InRange(Encode(k), RaftLogKey(region, start), Some(RaftLogKey(region, end)))
            <==> k.LogKey? && k.region == region && start <= k.index < end
  {
    var lo, hi := LogKey(region, start), LogKey(region, end);
    KeyOrder(k, lo);
    KeyOrder(k, hi);
    LtTrichotomy(Head(CategoryOf(k), k.region), Head(REGION_RAFT_PREFIX, region));
    HeadInjective(CategoryOf(k), k.region, REGION_RAFT_PREFIX, region);
    if !k.MetaKey? && k.region == region {
      TailOrder(k, start);
      TailOrder(k, end);
    }
  }

  /** RaftLogKeyRange: [log key 0, state key) holds exactly the region's log keys. */
  lemma LogKeyRangeIsExact(region: uint64, k: LocalKey)
    ensures InRange(Encode(k), RaftLogKey(region, 0), Some(RaftStateKey(region))) <==> k.LogKey? && k.region == region
  {
    var lo, hi := LogKey(region, 0), StateKey(region);
    KeyOrder(k, lo);
    KeyOrder(k, hi);
    LtTrichotomy(Head(CategoryOf(k), k.region), Head(REGION_RAFT_PREFIX, region));
    HeadInjective(CategoryOf(k), k.region, REGION_RAFT_PREFIX, region);
    if !k.MetaKey? && k.region == region {
      TailOrder(k, 0);
    }
  }

  /** Log keys of one region are ordered by index. */
  lemma LogKeyOrder(region: uint64, i: uint64, j: uint64)
    ensures Lt(RaftLogKey(region, i), RaftLogKey(region, j)) <==> i < j
  {
    KeyOrder(LogKey(region, i), LogKey(region, j));
    LtIrreflexive(Head(REGION_RAFT_PREFIX, region));
    TailOrder(LogKey(region, i), j);
  }

  // ----- An engine whose keys are local keys -----

  /** The column family keyed by what its keys name. `Encode` is injective, so this is the same map. */
  type LocalMap<V> = map<LocalKey, V>

  lemma EncodeInjectiveAll()
    ensures forall k: LocalKey, l: LocalKey {:trigger Encode(k), Encode(l)} :: Encode(k) == Encode(l) ==> k == l
  {
    forall k: LocalKey, l: LocalKey ensures Encode(k) == Encode(l) ==> k == l {
      EncodeInjective(k, l);
    }
  }

  /** The column family as the engine sees it. */
  function ByteView<V>(kv: LocalMap<V>): (b: map<Bytes, V>)
    ensures forall k | k in kv :: Encode(k) in b && b[Encode(k)] == kv[k]
    ensures forall x | x in b :: exists k :: k in kv && Encode(k) == x
  {
    EncodeInjectiveAll();
    map k | k in kv :: Encode(k) := kv[k]
  }

  /** DeleteRange on encoded bounds. */
  function DeleteKeyRange<V>(kv: LocalMap<V>, lo: Bytes, hi: Bytes): LocalMap<V> {
    map k | k in kv && !InRange(Encode(k), lo, Some(hi)) :: kv[k]
  }

  /** Deleting by name is deleting by bytes. */
  lemma DeleteKeyRangeIsByteDelete<V>(kv: LocalMap<V>, lo: Bytes, hi: Bytes, k: LocalKey)
    ensures k in DeleteKeyRange(kv, lo, hi) <==> Encode(k) in DeleteRange(ByteView(kv), lo, hi)
  {
    var b := Encode(k);
    if b in ByteView(kv) {
      var l :| l in kv && Encode(l) == b;
      EncodeInjective(k, l);
    }
  }
}
