/** Generating a region snapshot on one store and applying it on another (internal/raftstore/snapshot.go): the data
    column families of the receiver become those of the generator inside the region and stay what they were outside,
    except that a region without end key keeps the receiver's stale keys. */
module SnapshotTransfer {
  import opened Bytes
  import opened KvEngine
  import opened SnapshotCodec

  datatype CF = Default | Lock | Write | Raft

  const DATA_CFS: seq<CF> := [Default, Lock, Write]
  const ALL_CFS: seq<CF> := [Default, Lock, Write, Raft]

  /** The name of a column family on the wire. */
  function Name(cf: CF): Bytes {
    match cf
    case Default => [100, 101, 102, 97, 117, 108, 116]
    case Lock => [108, 111, 99, 107]
    case Write => [119, 114, 105, 116, 101]
    case Raft => [114, 97, 102, 116]
  }

  function Named(name: Bytes): Option<CF> {
    Find(name, 0)
  }

  /** Looks a name up among the column families, from the one of number `i`. */
  function Find(name: Bytes, i: nat): Option<CF>
    decreases 4 - i
  {
    if i >= |ALL_CFS| then None else if name == Name(ALL_CFS[i]) then Some(ALL_CFS[i]) else Find(name, i + 1)
  }

  lemma NameIsNamed(cf: CF)
    ensures Named(Name(cf)) == Some(cf)
  {
    assert Name(Lock)[0] == 108 && Name(Raft)[0] == 114;
    assert Find(Name(cf), 3) == if cf == Raft then Some(Raft) else None;
    assert Find(Name(cf), 2) == if cf == Write then Some(Write) else Find(Name(cf), 3);
    assert Find(Name(cf), 1) == if cf == Lock then Some(Lock) else Find(Name(cf), 2);
  }

  type CFMap = map<Bytes, Bytes>

  /** The column families of an engine. */
  type Families = map<CF, CFMap>

  ghost predicate WellFormed(fam: Families) {
    fam.Keys == {Default, Lock, Write, Raft}
  }

  // ----- Checksums -----

  /** The checksum of a byte stream, CRC-32 in the source; nothing here depends on which function it is. */
  type Crc = Bytes -> uint32

  function Stream(ps: seq<Pair<Bytes>>): Bytes {
    if ps == [] then [] else Stream(ps[..|ps| - 1]) + ps[|ps| - 1].key + ps[|ps| - 1].value
  }

  /** Keys and values of the same lengths. */
  ghost predicate SameShape(ps: seq<Pair<Bytes>>, qs: seq<Pair<Bytes>>) {
    |ps| == |qs| && forall i | 0 <= i < |ps| :: |ps[i].key| == |qs[i].key| && |ps[i].value| == |qs[i].value|
  }

  lemma {:induction false} StreamLength(ps: seq<Pair<Bytes>>, qs: seq<Pair<Bytes>>)
    requires SameShape(ps, qs)
    ensures |Stream(ps)| == |Stream(qs)|
  {
    if ps != [] {
      var n := |ps| - 1;
      StreamLength(ps[..n], qs[..n]);
    }
  }

  /** Every byte of every key and value goes into the checksum: among pairs of the same lengths, equal streams are equal
      pairs. */
  lemma {:induction false} StreamCoversAll(ps: seq<Pair<Bytes>>, qs: seq<Pair<Bytes>>)
    requires SameShape(ps, qs)
    ensures Stream(ps) == Stream(qs) <==> ps == qs
  {
    if ps != [] && Stream(ps) == Stream(qs) {
      var n := |ps| - 1;
      var a, b := Stream(ps[..n]), Stream(qs[..n]);
      StreamLength(ps[..n], qs[..n]);
      var m := |a| + |ps[n].key|;
      assert Stream(ps)[..|a|] == a && Stream(qs)[..|a|] == b;
      assert Stream(ps)[|a|..m] == ps[n].key && Stream(qs)[|a|..m] == qs[n].key;
      assert Stream(ps)[m..] == ps[n].value && Stream(qs)[m..] == qs[n].value;
      StreamCoversAll(ps[..n], qs[..n]);
      assert ps == ps[..n] + [ps[n]] && qs == qs[..n] + [qs[n]];
    }
  }

  /** Where a key ends does not: a byte moved from the value to the key goes unnoticed, whatever the checksum. */
  lemma BoundariesAreNotCovered(crc: Crc, k: Bytes, b: byte, v: Bytes)
    ensures Checksum(crc, [Pair(k, [b] + v)]) == Checksum(crc, [Pair(k + [b], v)])
    ensures [Pair(k, [b] + v)] != [Pair(k + [b], v)]
  {
    var ps, qs: seq<Pair<Bytes>> := [Pair(k, [b] + v)], [Pair(k + [b], v)];
    assert ps[..0] == [] && qs[..0] == [];
    assert Stream(ps) == [] + k + ([b] + v) && Stream(qs) == [] + (k + [b]) + v;
    assert [] + k + ([b] + v) == [] + (k + [b]) + v;
    assert ps[0].key != qs[0].key;
  }

  function Checksum(crc: Crc, ps: seq<Pair<Bytes>>): uint32 {
    crc(Stream(ps))
  }

  /** ComputeCFChecksum. */
  method ComputeCFChecksum(crc: Crc, ps: seq<Pair<Bytes>>) returns (sum: uint32)
    ensures sum == Checksum(crc, ps)
  {
    var h := [];
    for i := 0 to |ps|
      invariant h == Stream(ps[..i])
    {
      assert ps[..i + 1][..i] == ps[..i];
      h := h + ps[i].key;
      h := h + ps[i].value;
    }
    assert ps[..|ps|] == ps;
    return crc(h);
  }

  // ----- Generation -----

  predicate InRegion(k: Bytes, startKey: Bytes, endKey: Bytes) {
    InRange(k, startKey, UpperBound(endKey))
  }

  ghost predicate IsFileOf(crc: Crc, f: CFFile, cf: CF, kv: CFMap, startKey: Bytes, endKey: Bytes) {
    Named(f.cf) == Some(cf) && f.checksum == Checksum(crc, f.pairs) && IsScan(kv, startKey, UpperBound(endKey), f.pairs)
  }

  /** `sd` is a snapshot of the region's data in `fam`. */
  ghost predicate IsSnapshotOf(crc: Crc, sd: SnapshotData, fam: Families) {
    && WellFormed(fam) && |sd.files| == |DATA_CFS|
    && forall i | 0 <= i < |DATA_CFS| ::
       IsFileOf(crc, sd.files[i], DATA_CFS[i], fam[DATA_CFS[i]], sd.head.startKey, sd.head.endKey)
  }

  const SNAPSHOT_VERSION: uint64 := 1

  /** GenerateSnapshotData. */
  method GenerateSnapshotData(crc: Crc, fam: Families, regionID: uint64, startKey: Bytes, endKey: Bytes)
    returns (sd: SnapshotData)
    requires WellFormed(fam)
    ensures sd.head == Header(regionID, SNAPSHOT_VERSION, startKey, endKey) && IsSnapshotOf(crc, sd, fam)
  {
    var files := [];
    for i := 0 to |DATA_CFS|
      invariant |files| == i
      invariant forall j | 0 <= j < i :: IsFileOf(crc, files[j], DATA_CFS[j], fam[DATA_CFS[j]], startKey, endKey)
    {
      var cf := DATA_CFS[i];
      var pairs := Scan(fam[cf], startKey, UpperBound(endKey));
      var sum := ComputeCFChecksum(crc, pairs);
      NameIsNamed(cf);
      files := files + [CFFile(Name(cf), pairs, sum)];
    }
    sd := SnapshotData(Header(regionID, SNAPSHOT_VERSION, startKey, endKey), files);
  }

  // ----- Application -----

  function Puts(ps: seq<Pair<Bytes>>): (r: seq<Put<Bytes, Bytes>>)
    ensures |r| == |ps| && forall i | 0 <= i < |r| :: r[i] == Put(ps[i].key, ps[i].value)
  {
    seq(|ps|, i requires 0 <= i < |ps| => Put(ps[i].key, ps[i].value))
  }

  /** The range that is cleared: the snapshot's bounds, or the receiver's when the snapshot has none. */
  function ClearRange(head: Header, startKey: Bytes, endKey: Bytes): (Bytes, Bytes) {
    if |head.startKey| > 0 || |head.endKey| > 0 then (head.startKey, head.endKey) else (startKey, endKey)
  }

  /** Key `k` is cleared before the snapshot is written. */
  predicate Cleared(k: Bytes, head: Header, startKey: Bytes, endKey: Bytes) {
    var (lo, hi) := ClearRange(head, startKey, endKey);
    (|lo| > 0 || |hi| > 0) && InRange(k, lo, Some(hi))
  }

  /** The deletions at the head of the batch, one per data column family. */
  method ClearFamilies(fam: Families, head: Header, startKey: Bytes, endKey: Bytes) returns (batch: Families)
    requires WellFormed(fam)
    ensures batch == ClearedAll(fam, head, startKey, endKey)
  {
    var (lo, hi) := ClearRange(head, startKey, endKey);
    batch := fam;
    for i := 0 to |DATA_CFS|
      invariant batch.Keys == fam.Keys
      invariant forall cf | cf in fam ::
          batch[cf] == if cf in DATA_CFS[..i] then ClearedCF(fam[cf], head, startKey, endKey) else fam[cf]
    {
      var cf := DATA_CFS[i];
      assert DATA_CFS[..i + 1] == DATA_CFS[..i] + [cf];
      assert cf in fam && cf !in DATA_CFS[..i];
      ClearedCFIs(fam[cf], head, startKey, endKey);
      if |lo| > 0 || |hi| > 0 {
        batch := batch[cf := DeleteRange(batch[cf], lo, hi)];
      }
    }
    assert DATA_CFS[..|DATA_CFS|] == DATA_CFS;
  }

  /** An engine; its batch is committed as a whole. */
  class Engine {
    var fam: Families

    constructor (fam: Families)
      ensures this.fam == fam
    {
      this.fam := fam;
    }

    /** ApplySnapshotData: clear the range, write the pairs, commit. A checksum that does not match or an unknown
        column family is an error and nothing is written. */
    method ApplySnapshotData(crc: Crc, sd: SnapshotData, startKey: Bytes, endKey: Bytes) returns (ok: bool)
      requires WellFormed(fam)
      modifies this
      ensures ok <==> AllAcceptable(crc, sd.files)
      ensures ok ==> forall i | 0 <= i < |sd.files| :: sd.files[i].checksum == crc(Stream(sd.files[i].pairs))
      ensures fam == if ok then Applied(old(fam), sd, startKey, endKey) else old(fam)
    {
      var batch := ClearFamilies(fam, sd.head, startKey, endKey);
      ok, batch := WriteFiles(crc, batch, sd.files);
      if ok {
        fam := batch;
      }
    }
  }

  /** A file the receiver takes: right checksum, known column family or nothing to write. */
  predicate Acceptable(crc: Crc, f: CFFile) {
    Checksum(crc, f.pairs) == f.checksum && (Named(f.cf).Some? || f.pairs == [])
  }

  ghost predicate AllAcceptable(crc: Crc, fs: seq<CFFile>) {
    forall i | 0 <= i < |fs| :: Acceptable(crc, fs[i])
  }

  /** A file whose checksum was made of other pairs is taken only if the checksum cannot tell them apart, and a file
      with pairs only for a known column family. */
  lemma AcceptableExactly(crc: Crc, f: CFFile, sent: seq<Pair<Bytes>>)
    requires f.checksum == crc(Stream(sent))
    ensures Acceptable(crc, f)
            <==> crc(Stream(f.pairs)) == crc(Stream(sent)) && (f.pairs == [] || exists cf :: Name(cf) == f.cf)
  {
    if cf :| Name(cf) == f.cf {
      NameIsNamed(cf);
    }
  }

  function ClearedCF(kv: CFMap, head: Header, startKey: Bytes, endKey: Bytes): CFMap {
    map k | k in kv && !Cleared(k, head, startKey, endKey) :: kv[k]
  }

  lemma ClearedCFIs(kv: CFMap, head: Header, startKey: Bytes, endKey: Bytes)
    ensures var (lo, hi) := ClearRange(head, startKey, endKey);
            ClearedCF(kv, head, startKey, endKey) == if |lo| > 0 || |hi| > 0 then DeleteRange(kv, lo, hi) else kv
  {
  }

  function ClearedAll(fam: Families, head: Header, startKey: Bytes, endKey: Bytes): Families {
    map cf | cf in fam :: if cf in DATA_CFS then ClearedCF(fam[cf], head, startKey, endKey) else fam[cf]
  }

  /** What writing file `f` makes of column family `cf`. */
  function WriteTo(kv: CFMap, cf: CF, f: CFFile): CFMap {
    if Named(f.cf) == Some(cf) then AfterPuts(kv, Puts(f.pairs)) else kv
  }

  function WriteAll(fam: Families, f: CFFile): (r: Families)
    ensures r.Keys == fam.Keys
  {
    map cf | cf in fam :: WriteTo(fam[cf], cf, f)
  }

  /** What writing the files one after the other makes of column family `cf`. */
  function WrittenCF(kv: CFMap, cf: CF, fs: seq<CFFile>): CFMap {
    if fs == [] then kv else WriteTo(WrittenCF(kv, cf, fs[..|fs| - 1]), cf, fs[|fs| - 1])
  }

  function Written(fam: Families, fs: seq<CFFile>): (r: Families)
    ensures r.Keys == fam.Keys
  {
    map cf | cf in fam :: WrittenCF(fam[cf], cf, fs)
  }

  lemma WrittenNext(kv: CFMap, cf: CF, fs: seq<CFFile>, i: nat)
    requires i < |fs|
    ensures WrittenCF(kv, cf, fs[..i + 1]) == WriteTo(WrittenCF(kv, cf, fs[..i]), cf, fs[i])
  {
    assert fs[..i + 1][..i] == fs[..i];
  }

  lemma WrittenStep(fam: Families, fs: seq<CFFile>, i: nat, out: Families, next: Families)
    requires i < |fs| && out == Written(fam, fs[..i]) && next == WriteAll(out, fs[i])
    ensures next == Written(fam, fs[..i + 1])
  {
    forall cf | cf in fam ensures next[cf] == WrittenCF(fam[cf], cf, fs[..i + 1]) {
      WrittenNext(fam[cf], cf, fs, i);
    }
  }

  /** Checks one file and puts its pairs into the batch. */
  method WriteFile(crc: Crc, batch: Families, f: CFFile) returns (ok: bool, out: Families)
    requires WellFormed(batch)
    ensures ok <==> Acceptable(crc, f)
    ensures ok ==> out == WriteAll(batch, f)
  {
    out := batch;
    var expected := ComputeCFChecksum(crc, f.pairs);
    if expected != f.checksum {
      return false, out;
    }
    var named := Named(f.cf);
    for i := 0 to |f.pairs|
      invariant out.Keys == batch.Keys && (i > 0 ==> named.Some?)
      invariant forall cf | cf in batch ::
                  out[cf] == if named == Some(cf) then AfterPuts(batch[cf], Puts(f.pairs)[..i]) else batch[cf]
    {
      if named.None? {
        return false, out;
      }
      var kv := f.pairs[i];
      assert Puts(f.pairs)[..i + 1][..i] == Puts(f.pairs)[..i];
      out := out[named.value := out[named.value][kv.key := kv.value]];
    }
    assert Puts(f.pairs)[..|f.pairs|] == Puts(f.pairs);
    return true, out;
  }

  method WriteFiles(crc: Crc, batch: Families, fs: seq<CFFile>) returns (ok: bool, out: Families)
    requires WellFormed(batch)
    ensures ok <==> AllAcceptable(crc, fs)
    ensures ok ==> out == Written(batch, fs)
  {
    out := batch;
    for i := 0 to |fs|
      invariant out == Written(batch, fs[..i])
      invariant forall j | 0 <= j < i :: Acceptable(crc, fs[j])
    {
      var taken, next := WriteFile(crc, out, fs[i]);
      if !taken {
        return false, out;
      }
      WrittenStep(batch, fs, i, out, next);
      out := next;
    }
    assert fs[..|fs|] == fs;
    ok := true;
  }

  // ----- What the receiver ends up with -----

  function Get(kv: CFMap, k: Bytes): Option<Bytes> {
    if k in kv then Some(kv[k]) else None
  }

  function Applied(fam: Families, sd: SnapshotData, startKey: Bytes, endKey: Bytes): (r: Families)
    ensures r.Keys == fam.Keys
  {
    Written(ClearedAll(fam, sd.head, startKey, endKey), sd.files)
  }

  /** Putting the scan of a range overwrites exactly the scanned keys. */
  lemma ScanIsWritten(kv: CFMap, lo: Bytes, hi: Option<Bytes>, ps: seq<Pair<Bytes>>, base: CFMap, k: Bytes)
    requires IsScan(kv, lo, hi, ps)
    ensures Get(AfterPuts(base, Puts(ps)), k) == if InRange(k, lo, hi) && k in kv then Get(kv, k) else Get(base, k)
  {
    if InRange(k, lo, hi) && k in kv {
      var i :| 0 <= i < |ps| && ps[i].key == k;
      forall j | i < j < |ps| ensures Puts(ps)[j].key != Puts(ps)[i].key {
        LtIrreflexive(k);
      }
      LastPutWins(base, Puts(ps), i);
    } else {
      UnwrittenIsKept(base, Puts(ps), k);
    }
  }

  ghost predicate ThreeFiles(fs: seq<CFFile>) {
    |fs| == 3 && Named(fs[0].cf) == Some(Default) && Named(fs[1].cf) == Some(Lock) && Named(fs[2].cf) == Some(Write)
  }

  /** Of three files, one per data column family, each family gets its own. */
  lemma WrittenThree(kv: CFMap, cf: CF, fs: seq<CFFile>)
    requires ThreeFiles(fs)
    ensures cf == Raft ==> WrittenCF(kv, cf, fs) == kv
    ensures forall i | 0 <= i < 3 && cf == DATA_CFS[i] :: WrittenCF(kv, cf, fs) == AfterPuts(kv, Puts(fs[i].pairs))
  {
    assert fs[..3] == fs && fs[..0] == [];
    WrittenNext(kv, cf, fs, 0);
    WrittenNext(kv, cf, fs, 1);
    WrittenNext(kv, cf, fs, 2);
  }

  lemma SnapshotNames(crc: Crc, src: Families, sd: SnapshotData)
    requires IsSnapshotOf(crc, sd, src)
    ensures ThreeFiles(sd.files)
  {
    assert IsFileOf(crc, sd.files[0], Default, src[Default], sd.head.startKey, sd.head.endKey);
    assert IsFileOf(crc, sd.files[1], Lock, src[Lock], sd.head.startKey, sd.head.endKey);
    assert IsFileOf(crc, sd.files[2], Write, src[Write], sd.head.startKey, sd.head.endKey);
  }

  /** Key by key: the snapshot's value inside the region, else what was there and was not cleared. */
  lemma AppliedAt(crc: Crc, src: Families, dst: Families, sd: SnapshotData, startKey: Bytes, endKey: Bytes, i: nat,
      k: Bytes)
    requires IsSnapshotOf(crc, sd, src) && WellFormed(dst) && i < 3
    ensures var cf := DATA_CFS[i];
            Get(Applied(dst, sd, startKey, endKey)[cf], k)
            == if InRegion(k, sd.head.startKey, sd.head.endKey) && k in src[cf] then Get(src[cf], k)
               else if Cleared(k, sd.head, startKey, endKey) then None else Get(dst[cf], k)
  {
    var cf, f := DATA_CFS[i], sd.files[i];
    SnapshotNames(crc, src, sd);
    AppliedCF(dst, sd, startKey, endKey, i);
    var cleared := ClearedCF(dst[cf], sd.head, startKey, endKey);
    assert IsFileOf(crc, f, cf, src[cf], sd.head.startKey, sd.head.endKey);
    ScanIsWritten(src[cf], sd.head.startKey, UpperBound(sd.head.endKey), f.pairs, cleared, k);
  }

  lemma AppliedCF(dst: Families, sd: SnapshotData, startKey: Bytes, endKey: Bytes, i: nat)
    requires WellFormed(dst) && ThreeFiles(sd.files) && i < 3
    ensures Applied(dst, sd, startKey, endKey)[DATA_CFS[i]]
         == AfterPuts(ClearedCF(dst[DATA_CFS[i]], sd.head, startKey, endKey), Puts(sd.files[i].pairs))
  {
    WrittenThree(ClearedCF(dst[DATA_CFS[i]], sd.head, startKey, endKey), DATA_CFS[i], sd.files);
  }

  /** Nothing outside the region is cleared. */
  lemma ClearedIsInRegion(k: Bytes, head: Header, startKey: Bytes, endKey: Bytes)
    requires Cleared(k, head, startKey, endKey)
    ensures InRegion(k, head.startKey, head.endKey)
  {
  }

  /** The promise: inside the region the receiver's data is the generator's, outside it is untouched. */
  ghost predicate Transferred(src: Families, dst: Families, res: Families, head: Header)
    requires WellFormed(src) && WellFormed(dst) && WellFormed(res)
  {
    && res[Raft] == dst[Raft]
    && forall i, k | 0 <= i < 3 :: AgreesAt(src[DATA_CFS[i]], dst[DATA_CFS[i]], res[DATA_CFS[i]], head, k)
  }

  ghost predicate AgreesAt(src: CFMap, dst: CFMap, res: CFMap, head: Header, k: Bytes) {
    Get(res, k) == if InRegion(k, head.startKey, head.endKey) then Get(src, k) else Get(dst, k)
  }

  /** Every key of the receiver that the region's data does not have is cleared. */
  ghost predicate StaleCleared(src: Families, dst: Families, head: Header, startKey: Bytes, endKey: Bytes)
    requires WellFormed(src) && WellFormed(dst)
  {
    forall i, k | 0 <= i < 3 && k in dst[DATA_CFS[i]] && k !in src[DATA_CFS[i]]
        && InRegion(k, head.startKey, head.endKey) ::
      Cleared(k, head, startKey, endKey)
  }

  /** Applying a snapshot keeps the promise exactly when the receiver's stale keys are cleared. */
  lemma TransferIsExact(crc: Crc, src: Families, dst: Families, sd: SnapshotData, startKey: Bytes, endKey: Bytes)
    requires IsSnapshotOf(crc, sd, src) && WellFormed(dst)
    ensures Transfers(src, dst, sd, startKey, endKey) <==> StaleCleared(src, dst, sd.head, startKey, endKey)
  {
    var res := Applied(dst, sd, startKey, endKey);
    SnapshotNames(crc, src, sd);
    RaftIsUntouched(dst, sd, startKey, endKey);
    if StaleCleared(src, dst, sd.head, startKey, endKey) {
      forall i, k | 0 <= i < 3 ensures AgreesAt(src[DATA_CFS[i]], dst[DATA_CFS[i]], res[DATA_CFS[i]], sd.head, k) {
        AppliedAt(crc, src, dst, sd, startKey, endKey, i, k);
        if Cleared(k, sd.head, startKey, endKey) {
          ClearedIsInRegion(k, sd.head, startKey, endKey);
        }
      }
    }
    if Transferred(src, dst, res, sd.head) {
      forall i, k | 0 <= i < 3 && k in dst[DATA_CFS[i]] && k !in src[DATA_CFS[i]]
          && InRegion(k, sd.head.startKey, sd.head.endKey)
        ensures Cleared(k, sd.head, startKey, endKey)
      {
        AppliedAt(crc, src, dst, sd, startKey, endKey, i, k);
        assert AgreesAt(src[DATA_CFS[i]], dst[DATA_CFS[i]], res[DATA_CFS[i]], sd.head, k);
      }
    }
  }

  lemma RaftIsUntouched(dst: Families, sd: SnapshotData, startKey: Bytes, endKey: Bytes)
    requires WellFormed(dst) && ThreeFiles(sd.files)
    ensures WellFormed(Applied(dst, sd, startKey, endKey)) && Applied(dst, sd, startKey, endKey)[Raft] == dst[Raft]
  {
    WrittenThree(dst[Raft], Raft, sd.files);
  }

  /** A snapshot with header `head`, applied with receiver bounds startKey and endKey, keeps the promise whatever both
      stores hold. */
  ghost predicate AlwaysTransfers(crc: Crc, head: Header, startKey: Bytes, endKey: Bytes) {
    forall src, dst, sd | IsSnapshotOf(crc, sd, src) && WellFormed(dst) && sd.head == head ::
      Transfers(src, dst, sd, startKey, endKey)
  }

  /** Applying `sd` to `dst` keeps the promise. */
  ghost predicate Transfers(src: Families, dst: Families, sd: SnapshotData, startKey: Bytes, endKey: Bytes) {
    && WellFormed(src) && WellFormed(dst) && WellFormed(Applied(dst, sd, startKey, endKey))
    && Transferred(src, dst, Applied(dst, sd, startKey, endKey), sd.head)
  }

  lemma BoundedRegionTransfers(crc: Crc, src: Families, dst: Families, sd: SnapshotData, startKey: Bytes, endKey: Bytes)
    requires IsSnapshotOf(crc, sd, src) && WellFormed(dst) && sd.head.endKey != []
    ensures Transfers(src, dst, sd, startKey, endKey)
  {
    TransferIsExact(crc, src, dst, sd, startKey, endKey);
  }

  /** The regions whose snapshots always transfer are exactly those with an end key: the last region of the key space
      can keep stale keys. */
  lemma AlwaysTransfersExactly(crc: Crc, head: Header, startKey: Bytes, endKey: Bytes)
    ensures AlwaysTransfers(crc, head, startKey, endKey) <==> head.endKey != []
  {
    if head.endKey != [] {
      forall src, dst, sd | IsSnapshotOf(crc, sd, src) && WellFormed(dst) && sd.head == head
        ensures Transfers(src, dst, sd, startKey, endKey)
      {
        BoundedRegionTransfers(crc, src, dst, sd, startKey, endKey);
      }
    } else {
      var src, dst, sd := StaleSurvives(crc, head, startKey, endKey);
    }
  }

  /** A store with one stale key that is not cleared. */
  lemma StaleSurvives(crc: Crc, head: Header, startKey: Bytes, endKey: Bytes)
    returns (src: Families, dst: Families, sd: SnapshotData)
    requires head.endKey == []
    ensures IsSnapshotOf(crc, sd, src) && WellFormed(dst) && sd.head == head
    ensures !Transfers(src, dst, sd, startKey, endKey)
  {
    var stale := if head.startKey != [] then head.startKey else endKey;
    src := map[Default := map[], Lock := map[], Write := map[], Raft := map[]];
    dst := src[Default := map[stale := []]];
    sd := SnapshotData(head, [CFFile(Name(Default), [], crc([])), CFFile(Name(Lock), [], crc([])),
        CFFile(Name(Write), [], crc([]))]);
    LtIrreflexive(stale);
    NameIsNamed(Default);
    NameIsNamed(Lock);
    NameIsNamed(Write);
    assert stale in dst[DATA_CFS[0]] && !Cleared(stale, head, startKey, endKey);
    TransferIsExact(crc, src, dst, sd, startKey, endKey);
  }

  /** A snapshot that is generated, sent over the wire and accepted: what arrives transfers like what was generated. */
  lemma ShippedSnapshotTransfers(crc: Crc, src: Families, dst: Families, sd: SnapshotData, startKey: Bytes,
      endKey: Bytes)
    requires IsSnapshotOf(crc, sd, src) && WellFormed(dst) && Fits(sd) && sd.head.endKey != []
    ensures var got := Dec(Encoded(sd));
            got.Decoded? && AllAcceptable(crc, got.sd.files) && Transfers(src, dst, got.sd, startKey, endKey)
  {
    RoundTrip(sd);
    BoundedRegionTransfers(crc, src, dst, sd, startKey, endKey);
    SnapshotIsAcceptable(crc, src, sd);
  }

  lemma SnapshotIsAcceptable(crc: Crc, src: Families, sd: SnapshotData)
    requires IsSnapshotOf(crc, sd, src)
    ensures AllAcceptable(crc, sd.files)
  {
    forall i | 0 <= i < |sd.files| ensures Acceptable(crc, sd.files[i]) {
      assert IsFileOf(crc, sd.files[i], DATA_CFS[i], src[DATA_CFS[i]], sd.head.startKey, sd.head.endKey);
    }
  }
}
