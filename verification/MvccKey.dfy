/** MVCC keys (internal/storage/mvcc/key.go) and comparable integers (pkg/codec/number.go). */
module MvccKey {
  import opened Bytes
  import opened MemComparable

  type int64 = x: int | -0x8000_0000_0000_0000 <= x < 0x8000_0000_0000_0000

  function EncodeUint64(v: uint64): (r: Bytes) { BE(v, 8) }

  /** Big-endian of the bitwise complement. */
  function EncodeUint64Desc(v: uint64): (r: Bytes) { BE(MAX_UINT64 - v, 8) }

  datatype DecodedUint64 = Value(v: uint64, rest: Bytes) | Short

  function DecodeUint64Desc(d: Bytes): DecodedUint64 {
    if |d| < 8 then Short
    else
      FromBEBound(d[..8]);
      Pow256Of8();
      Value(MAX_UINT64 - FromBE(d[..8]), d[8..])
  }

  /** The two's complement bits of `v` as an unsigned integer. */
  function Bits(v: int64): uint64 {
    if v < 0 then v + 0x1_0000_0000_0000_0000 else v
  }

  /** Flipping bit 63. */
  function FlipSign(u: uint64): uint64 {
    if u < 0x8000_0000_0000_0000 then u + 0x8000_0000_0000_0000 else u - 0x8000_0000_0000_0000
  }

  function EncodeInt64(v: int64): (r: Bytes) {
    EncodeUint64(FlipSign(Bits(v)))
  }

  /** Signed integers keep their order as encoded bytes. */
  lemma Int64Order(v: int64, w: int64)
    ensures Lt(EncodeInt64(v), EncodeInt64(w)) <==> v < w
    ensures EncodeInt64(v) == EncodeInt64(w) <==> v == w
  {
    Pow256Of8();
    BEOrder(FlipSign(Bits(v)), FlipSign(Bits(w)), 8);
  }

  lemma Uint64DescOrder(v: uint64, w: uint64)
    ensures Lt(EncodeUint64Desc(v), EncodeUint64Desc(w)) <==> v > w
    ensures EncodeUint64Desc(v) == EncodeUint64Desc(w) <==> v == w
  {
    Pow256Of8();
    BEOrder(MAX_UINT64 - v, MAX_UINT64 - w, 8);
  }

  /** A user key with a timestamp, newer versions first. */
  function EncodeKey(key: Bytes, ts: uint64): (r: Bytes) {
    Encoded(key) + EncodeUint64Desc(ts)
  }

  function EncodeLockKey(key: Bytes): (r: Bytes) { Encoded(key) }

  datatype DecodedKey = Key(key: Bytes, ts: uint64) | BadKey(error: DecodeError)

  function DecodeKey(d: Bytes): DecodedKey {
    match DecodedFrom(d)
    case Err(e) => BadKey(e)
    case Ok(key, rest) =>
      match DecodeUint64Desc(rest)
      case Short => Key(key, 0)
      case Value(ts, _) => Key(key, ts)
  }

  function TruncateToUserKey(d: Bytes): Bytes {
    if |d| <= 8 then d else d[..|d| - 8]
  }

  /** MVCC keys sort by user key ascending, then by timestamp strictly descending. */
  lemma EncodeKeyOrder(k1: Bytes, t1: uint64, k2: Bytes, t2: uint64)
    ensures Lt(EncodeKey(k1, t1), EncodeKey(k2, t2)) <==> Lt(k1, k2) || (k1 == k2 && t1 > t2)
    ensures EncodeKey(k1, t1) == EncodeKey(k2, t2) <==> k1 == k2 && t1 == t2
  {
    EncodedOrder(k1, k2, EncodeUint64Desc(t1), EncodeUint64Desc(t2));
    Uint64DescOrder(t1, t2);
    EncodeKeyDecodes(k1, t1);
    EncodeKeyDecodes(k2, t2);
  }

  /** Decoding recovers key and timestamp; truncation recovers the lock key, and a lock key decodes with
      timestamp zero. */
  lemma EncodeKeyDecodes(key: Bytes, ts: uint64)
    ensures DecodeKey(EncodeKey(key, ts)) == Key(key, ts)
    ensures TruncateToUserKey(EncodeKey(key, ts)) == EncodeLockKey(key)
    ensures DecodeKey(EncodeLockKey(key)) == Key(key, 0)
  {
    EncodedDecodes(key, EncodeUint64Desc(ts));
    EncodedDecodes(key, []);
    assert Encoded(key) + [] == Encoded(key);
    Pow256Of8();
    BERoundTrip(MAX_UINT64 - ts, 8);
    assert EncodeUint64Desc(ts)[..8] == EncodeUint64Desc(ts);
    EncodedLength(key);
    assert EncodeKey(key, ts)[..|EncodeKey(key, ts)| - 8] == Encoded(key);
  }

  /** All versions of a key lie between its newest and its oldest possible version, and no other key's
      version does: the scans of the write column family rely on this. */
  lemma VersionsAreContiguous(k1: Bytes, k2: Bytes, t: uint64)
    ensures Le(EncodeKey(k1, MAX_UINT64), EncodeKey(k2, t)) && Le(EncodeKey(k2, t), EncodeKey(k1, 0)) <==> k1 == k2
  {
    EncodeKeyOrder(k2, t, k1, MAX_UINT64);
    EncodeKeyOrder(k1, 0, k2, t);
    LtTrichotomy(k1, k2);
  }
}
