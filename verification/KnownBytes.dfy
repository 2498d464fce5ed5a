/** The formats on disk and on the wire, byte by byte: encodings that other programs have to agree with, written out
    with their tags and widths. */
module KnownBytes {
  import opened Bytes
  import opened KvEngine
  import opened Parsing
  import opened Varint
  import MemComparable
  import MvccKey
  import RaftKeys
  import RaftLog
  import Recovery
  import LogGc
  import LockCodec
  import WriteCodec
  import SnapshotCodec

  // ----- Keys -----

  /** The ascending form of strings shorter than, as long as and longer than one group. */
  lemma EncodedStrings()
    ensures MemComparable.Encoded([]) == [0, 0, 0, 0, 0, 0, 0, 0, 247]
    ensures MemComparable.Encoded([0]) == [0, 0, 0, 0, 0, 0, 0, 0, 248]
    ensures MemComparable.Encoded([1, 2, 3]) == [1, 2, 3, 0, 0, 0, 0, 0, 250]
    ensures MemComparable.Encoded([1, 2, 3, 4, 5, 6, 7, 8])
         == [1, 2, 3, 4, 5, 6, 7, 8, 255, 0, 0, 0, 0, 0, 0, 0, 0, 247]
    ensures MemComparable.Encoded([1, 2, 3, 4, 5, 6, 7, 8, 9])
         == [1, 2, 3, 4, 5, 6, 7, 8, 255, 9, 0, 0, 0, 0, 0, 0, 0, 248]
  {
    var eight: Bytes, nine: Bytes := [1, 2, 3, 4, 5, 6, 7, 8], [1, 2, 3, 4, 5, 6, 7, 8, 9];
    assert eight[..8] == eight && eight[8..] == [] && nine[..8] == eight && nine[8..] == [9];
    assert MemComparable.Encoded([9]) == [9, 0, 0, 0, 0, 0, 0, 0, 248];
  }

  /** Local keys: prefix, category, region in eight bytes, suffix, and for log entries the index in eight bytes. */
  lemma LocalKeys(region: uint64, index: uint64)
    ensures RaftKeys.Encode(RaftKeys.LogKey(region, index)) == [0x01, 0x02] + BE(region, 8) + [0x01] + BE(index, 8)
    ensures RaftKeys.Encode(RaftKeys.StateKey(region)) == [0x01, 0x02] + BE(region, 8) + [0x02]
    ensures RaftKeys.Encode(RaftKeys.ApplyKey(region)) == [0x01, 0x02] + BE(region, 8) + [0x03]
    ensures RaftKeys.Encode(RaftKeys.MetaKey(region)) == [0x01, 0x03] + BE(region, 8) + [0x01]
  {
  }

  /** A versioned key: the encoded user key and the complement of the timestamp in eight bytes. */
  lemma VersionedKeys(key: Bytes, ts: uint64)
    ensures MvccKey.EncodeKey(key, ts) == MemComparable.Encoded(key) + BE(0xFFFF_FFFF_FFFF_FFFF - ts, 8)
    ensures MvccKey.EncodeLockKey(key) == MemComparable.Encoded(key)
  {
  }

  // ----- Numbers -----

  lemma {:induction false} SmallBE(n: nat, w: nat)
    requires n < 256 && w > 0
    ensures BE(n, w) == MemComparable.Zeros(w - 1) + [n]
  {
    if w > 1 {
      ZeroBE(w - 1);
      assert n / 256 == 0;
    }
  }

  lemma {:induction false} ZeroBE(w: nat)
    ensures BE(0, w) == MemComparable.Zeros(w)
  {
    if w > 0 {
      ZeroBE(w - 1);
    }
  }

  /** Big-endian numbers and little-endian groups of seven bits. */
  lemma Numbers()
    ensures BE(0x0102, 2) == [1, 2] && BE(7, 4) == [0, 0, 0, 7]
    ensures Uvarint(0) == [0] && Uvarint(127) == [127] && Uvarint(128) == [128, 1] && Uvarint(300) == [172, 2]
  {
    SmallBE(7, 4);
    assert BE(0x0102, 2) == BE(1, 1) + [2];
    assert Uvarint(300) == [172] + Uvarint(2) && Uvarint(128) == [128] + Uvarint(1);
  }

  // ----- Records -----

  /** The optional fields of a lock, each behind its tag when it is set, in this order. */
  lemma LockFields(l: LockCodec.Lock)
    ensures LockCodec.Optional(l, 0) == If(l.shortValue != [], 0x76, Short(l.shortValue))
    ensures LockCodec.Optional(l, 1) == If(l.forUpdateTS > 0, 0x66, Fixed(l.forUpdateTS))
    ensures LockCodec.Optional(l, 2) == If(l.txnSize > 0, 0x74, Fixed(l.txnSize))
    ensures LockCodec.Optional(l, 3) == If(l.minCommitTS > 0, 0x63, Fixed(l.minCommitTS))
    ensures LockCodec.Optional(l, 4) == If(l.useAsyncCommit, 0x61, Keys(l.secondaries))
    ensures LockCodec.Optional(l, 5) == If(l.rollbackTS != [], 0x72, Stamps(l.rollbackTS))
    ensures LockCodec.Optional(l, 6) == If(l.lastChange.ts > 0, 0x6C, Change(l.lastChange.ts, l.lastChange.versions))
    ensures LockCodec.Optional(l, 7) == If(l.txnSource > 0, 0x73, Var(l.txnSource))
    ensures LockCodec.Optional(l, 8) == If(l.withConflict, 0x46, Flag)
    ensures LockCodec.Optional(l, 9) == If(l.generation > 0, 0x67, Fixed(l.generation))
    ensures LockCodec.Head(l) == [l.lockType] + (Uvarint(|l.primary|) + l.primary) + Uvarint(l.startTS) + Uvarint(l.ttl)
  {
  }

  lemma WriteFields(w: WriteCodec.Write)
    ensures WriteCodec.Optional(w, 0) == If(w.shortValue != [], 0x76, Short(w.shortValue))
    ensures WriteCodec.Optional(w, 1) == If(w.overlappedRollback, 0x52, Flag)
    ensures w.gcFence.Some? ==> WriteCodec.Optional(w, 2) == [Tagged(0x46, Fixed(w.gcFence.value))]
    ensures w.gcFence.None? ==> WriteCodec.Optional(w, 2) == []
    ensures WriteCodec.Optional(w, 3) == If(w.lastChange.ts > 0, 0x6C, Change(w.lastChange.ts, w.lastChange.versions))
    ensures WriteCodec.Optional(w, 4) == If(w.txnSource > 0, 0x53, Var(w.txnSource))
    ensures WriteCodec.Head(w) == [w.writeType] + Uvarint(w.startTS)
  {
  }

  /** How a field is written: a short value behind one byte of length, fixed numbers in eight bytes, the last change as
      a fixed number and a varint, the keys of a list behind their lengths. */
  lemma FieldFormats(tag: byte, b: Bytes, v: nat, n: nat)
    ensures TaggedEnc(Tagged(tag, Short(b))) == [tag] + (BE(|b|, 1) + b)
    ensures TaggedEnc(Tagged(tag, Fixed(v))) == [tag] + BE(v, 8)
    ensures TaggedEnc(Tagged(tag, Change(v, n))) == [tag] + (BE(v, 8) + Uvarint(n))
    ensures TaggedEnc(Tagged(tag, Var(n))) == [tag] + Uvarint(n)
    ensures TaggedEnc(Tagged(tag, Flag)) == [tag]
    ensures VarBytes(b) == Uvarint(|b|) + b && FixedEnc(v) == BE(v, 8)
  {
  }

  // ----- Snapshots and commands -----

  /** The parts of a snapshot: numbers of eight and four bytes, byte strings behind their length, in four bytes and for
      the name of a column family in two. */
  lemma SnapshotParts(h: SnapshotCodec.Header, f: SnapshotCodec.CFFile, p: Pair<Bytes>)
    ensures SnapshotCodec.Head(h)
         == BE(h.regionID, 8) + BE(h.version, 8) + (BE(|h.startKey|, 4) + h.startKey) + (BE(|h.endKey|, 4) + h.endKey)
    ensures SnapshotCodec.FileHead(f) == (BE(|f.cf|, 2) + f.cf) + BE(|f.pairs|, 4) + BE(f.checksum, 4)
    ensures SnapshotCodec.PairEnc(p) == (BE(|p.key|, 4) + p.key) + (BE(|p.value|, 4) + p.value)
    ensures SnapshotCodec.Encoded(SnapshotCodec.SnapshotData(h, [])) == SnapshotCodec.Head(h) + BE(0, 4)
  {
    assert EncAll(SnapshotCodec.FileEnc, []) == [];
  }

  /** The apply state: the applied index, the truncated index and its term. */
  lemma ApplyStateFormat(p: RaftLog.Progress)
    ensures Recovery.ProgressBytes(p) == BE(p.applied, 8) + BE(p.truncIndex, 8) + BE(p.truncTerm, 8)
  {
  }

  lemma CompactLogFormat(req: LogGc.CompactLogRequest)
    ensures LogGc.MarshalCompactLog(req) == [0x01] + BE(req.compactIndex, 8) + BE(req.compactTerm, 8)
  {
  }
}
