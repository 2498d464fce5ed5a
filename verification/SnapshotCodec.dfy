/** The wire format of region snapshots (internal/raftstore/snapshot.go). Lengths are cast to fixed-width integers when
    written, so decoding restores exactly the snapshots whose lengths fit their fields. */
module SnapshotCodec {
  import opened Bytes
  import opened KvEngine
  import opened Parsing

  type uint32 = x: int | 0 <= x < 0x1_0000_0000

  /** One column family's pairs. */
  datatype CFFile = CFFile(cf: Bytes, pairs: seq<Pair<Bytes>>, checksum: uint32)

  datatype Header = Header(regionID: uint64, version: uint64, startKey: Bytes, endKey: Bytes)

  datatype SnapshotData = SnapshotData(head: Header, files: seq<CFFile>)

  // ----- The format -----

  function PairEnc(p: Pair<Bytes>): Bytes {
    FieldEnc(p.key, 4) + FieldEnc(p.value, 4)
  }

  function FileHead(f: CFFile): Bytes {
    FieldEnc(f.cf, 2) + BE(|f.pairs|, 4) + BE(f.checksum, 4)
  }

  function FileEnc(f: CFFile): Bytes {
    FileHead(f) + EncAll(PairEnc, f.pairs)
  }

  /** Everything before the file count. */
  function Head(h: Header): Bytes {
    BE(h.regionID, 8) + BE(h.version, 8) + FieldEnc(h.startKey, 4) + FieldEnc(h.endKey, 4)
  }

  function Encoded(sd: SnapshotData): Bytes {
    Head(sd.head) + BE(|sd.files|, 4) + EncAll(FileEnc, sd.files)
  }

  // ----- What fits its length fields -----

  ghost predicate PairFits(p: Pair<Bytes>) {
    |p.key| < Pow256(4) && |p.value| < Pow256(4)
  }

  ghost predicate FileFits(f: CFFile) {
    |f.cf| < Pow256(2) && |f.pairs| < Pow256(4) && All(PairFits, f.pairs)
  }

  ghost predicate HeadFits(h: Header) {
    |h.startKey| < Pow256(4) && |h.endKey| < Pow256(4)
  }

  ghost predicate Fits(sd: SnapshotData) {
    HeadFits(sd.head) && |sd.files| < Pow256(4) && All(FileFits, sd.files)
  }

  // ----- Decoding -----

  function DecPair(data: Bytes): Parsed<Pair<Bytes>> {
    match Field(data, 4)
    case Cut => Cut
    case Parsed(key, rest) =>
      match Field(rest, 4)
      case Cut => Cut
      case Parsed(value, rest') => Parsed(Pair(key, value), rest')
  }

  datatype FileInfo = FileInfo(cf: Bytes, count: nat, checksum: uint32)

  function DecFileHead(data: Bytes): Parsed<FileInfo> {
    match Field(data, 2)
    case Cut => Cut
    case Parsed(cf, rest) =>
      if |rest| < 8 then Cut
      else
        FromBEBound(rest[4..8]);
        Pow256Of8();
        Parsed(FileInfo(cf, FromBE(rest[..4]), FromBE(rest[4..8])), rest[8..])
  }

  function DecFile(data: Bytes): Parsed<CFFile> {
    match DecFileHead(data)
    case Cut => Cut
    case Parsed(h, rest) =>
      match DecAll(DecPair, h.count, rest)
      case Cut => Cut
      case Parsed(ps, rest') => Parsed(CFFile(h.cf, ps, h.checksum), rest')
  }

  function DecHead(data: Bytes): Parsed<Header> {
    if |data| < 20 then Cut
    else
      match Field(data[16..], 4)
      case Cut => Cut
      case Parsed(startKey, rest) =>
        match Field(rest, 4)
        case Cut => Cut
        case Parsed(endKey, rest') =>
          FromBEBound(data[..8]);
          FromBEBound(data[8..16]);
          Pow256Of8();
          Parsed(Header(FromBE(data[..8]), FromBE(data[8..16]), startKey, endKey), rest')
  }

  /** The file count and the files. */
  function DecFiles(data: Bytes): Parsed<seq<CFFile>> {
    match Num(data, 4)
    case Cut => Cut
    case Parsed(n, rest) => DecAll(DecFile, n, rest)
  }

  /** A snapshot, an error, or an out-of-range slice when the file count itself is cut off. */
  datatype Outcome = Decoded(sd: SnapshotData) | Malformed | Panics

  function Dec(data: Bytes): Outcome {
    match DecHead(data)
    case Cut => Malformed
    case Parsed(h, rest) =>
      if |rest| < 4 then Panics
      else
        match DecFiles(rest)
        case Cut => Malformed
        case Parsed(fs, _) => Decoded(SnapshotData(h, fs))
  }

  // ----- Decoding inverts encoding, and accepts nothing else -----

  lemma PairExact(data: Bytes, p: Pair<Bytes>, rest: Bytes)
    ensures DecPair(data) == Parsed(p, rest) <==> PairFits(p) && data == PairEnc(p) + rest
  {
    var mid := FieldEnc(p.value, 4) + rest;
    FieldExact(data, 4, p.key, mid);
    FieldExact(mid, 4, p.value, rest);
    assert PairEnc(p) + rest == FieldEnc(p.key, 4) + mid;
    if DecPair(data) == Parsed(p, rest) {
      FieldExact(Field(data, 4).rest, 4, p.value, rest);
    }
  }

  lemma PairsInvert()
    ensures Restores(DecPair, PairEnc, PairFits) && AcceptsOnly(DecPair, PairEnc, PairFits)
  {
    forall p, rest | PairFits(p) ensures DecPair(PairEnc(p) + rest) == Parsed(p, rest) {
      PairExact(PairEnc(p) + rest, p, rest);
    }
    forall data | DecPair(data).Parsed?
      ensures PairFits(DecPair(data).value) && data == PairEnc(DecPair(data).value) + DecPair(data).rest
    {
      PairExact(data, DecPair(data).value, DecPair(data).rest);
    }
  }

  lemma FileHeadExact(data: Bytes, h: FileInfo, rest: Bytes)
    ensures DecFileHead(data) == Parsed(h, rest)
            <==> |h.cf| < Pow256(2) && h.count < Pow256(4)
                 && data == FieldEnc(h.cf, 2) + (BE(h.count, 4) + (BE(h.checksum, 4) + rest))
  {
    Pow256Of8();
    var mid := BE(h.checksum, 4) + rest;
    FieldExact(data, 2, h.cf, BE(h.count, 4) + mid);
    NumExact(BE(h.count, 4) + mid, 4, h.count, mid);
    NumExact(mid, 4, h.checksum, rest);
    var r := Field(data, 2);
    if r.Parsed? && |r.rest| >= 8 {
      NumExact(r.rest, 4, h.count, r.rest[4..]);
      NumExact(r.rest[4..], 4, h.checksum, r.rest[8..]);
      assert r.rest[4..][..4] == r.rest[4..8] && r.rest[4..][4..] == r.rest[8..];
      FieldExact(data, 2, h.cf, r.rest);
    }
  }

  lemma FileEncParts(f: CFFile, rest: Bytes)
    ensures FileEnc(f) + rest
         == FieldEnc(f.cf, 2) + (BE(|f.pairs|, 4) + (BE(f.checksum, 4) + (EncAll(PairEnc, f.pairs) + rest)))
  {
    var ps := EncAll(PairEnc, f.pairs);
    assert FileHead(f) + ps + rest == FileHead(f) + (ps + rest);
  }

  lemma FileParses(f: CFFile, rest: Bytes)
    requires FileFits(f)
    ensures DecFile(FileEnc(f) + rest) == Parsed(f, rest)
  {
    FileEncParts(f, rest);
    FileHeadExact(FileEnc(f) + rest, FileInfo(f.cf, |f.pairs|, f.checksum), EncAll(PairEnc, f.pairs) + rest);
    PairsInvert();
    EncodedListParses(DecPair, PairEnc, PairFits, f.pairs, rest);
  }

  lemma ParsedFileIsEncoded(data: Bytes, f: CFFile, rest: Bytes)
    requires DecFile(data) == Parsed(f, rest)
    ensures FileFits(f) && data == FileEnc(f) + rest
  {
    var h := DecFileHead(data);
    FileHeadExact(data, h.value, h.rest);
    PairsInvert();
    ParsedListIsEncoded(DecPair, PairEnc, PairFits, h.value.count, h.rest, f.pairs, rest);
    FileEncParts(f, rest);
  }

  lemma FilesInvert()
    ensures Restores(DecFile, FileEnc, FileFits) && AcceptsOnly(DecFile, FileEnc, FileFits)
  {
    forall f, rest | FileFits(f) ensures DecFile(FileEnc(f) + rest) == Parsed(f, rest) {
      FileParses(f, rest);
    }
    forall data | DecFile(data).Parsed?
      ensures FileFits(DecFile(data).value) && data == FileEnc(DecFile(data).value) + DecFile(data).rest
    {
      ParsedFileIsEncoded(data, DecFile(data).value, DecFile(data).rest);
    }
  }

  lemma HeadParts(h: Header, rest: Bytes)
    ensures var data := Head(h) + rest;
            && |data| >= 24 + |rest| && data[..8] == BE(h.regionID, 8) && data[8..16] == BE(h.version, 8)
            && data[16..] == FieldEnc(h.startKey, 4) + (FieldEnc(h.endKey, 4) + rest)
  {
    var s, e := FieldEnc(h.startKey, 4), FieldEnc(h.endKey, 4);
    assert Head(h) + rest == BE(h.regionID, 8) + BE(h.version, 8) + (s + (e + rest));
  }

  lemma HeadParses(h: Header, rest: Bytes)
    requires HeadFits(h)
    ensures DecHead(Head(h) + rest) == Parsed(h, rest)
  {
    Pow256Of8();
    HeadParts(h, rest);
    BERoundTrip(h.regionID, 8);
    BERoundTrip(h.version, 8);
    var e := FieldEnc(h.endKey, 4) + rest;
    FieldExact(FieldEnc(h.startKey, 4) + e, 4, h.startKey, e);
    FieldExact(e, 4, h.endKey, rest);
  }

  lemma SameParts(a: Bytes, b: Bytes)
    requires |a| >= 16 && |b| >= 16 && a[..8] == b[..8] && a[8..16] == b[8..16] && a[16..] == b[16..]
    ensures a == b
  {
    assert a == a[..8] + a[8..16] + a[16..] && b == b[..8] + b[8..16] + b[16..];
  }

  lemma ParsedHeadIsEncoded(data: Bytes, h: Header, rest: Bytes)
    requires DecHead(data) == Parsed(h, rest)
    ensures HeadFits(h) && data == Head(h) + rest
  {
    FromBERoundTrip(data[..8]);
    FromBERoundTrip(data[8..16]);
    var start := Field(data[16..], 4);
    FieldExact(data[16..], 4, h.startKey, start.rest);
    FieldExact(start.rest, 4, h.endKey, rest);
    HeadParts(h, rest);
    SameParts(data, Head(h) + rest);
  }

  lemma FilesParse(fs: seq<CFFile>, after: Bytes)
    requires |fs| < Pow256(4) && All(FileFits, fs)
    ensures DecFiles(BE(|fs|, 4) + (EncAll(FileEnc, fs) + after)) == Parsed(fs, after)
  {
    var files := EncAll(FileEnc, fs) + after;
    NumExact(BE(|fs|, 4) + files, 4, |fs|, files);
    FilesInvert();
    EncodedListParses(DecFile, FileEnc, FileFits, fs, after);
  }

  lemma ParsedFilesAreEncoded(data: Bytes, fs: seq<CFFile>, after: Bytes)
    requires DecFiles(data) == Parsed(fs, after)
    ensures |fs| < Pow256(4) && All(FileFits, fs) && data == BE(|fs|, 4) + (EncAll(FileEnc, fs) + after)
  {
    var n := Num(data, 4);
    NumExact(data, 4, n.value, n.rest);
    FilesInvert();
    ParsedListIsEncoded(DecFile, FileEnc, FileFits, n.value, n.rest, fs, after);
  }

  lemma Regroup(a: Bytes, b: Bytes, c: Bytes, d: Bytes)
    ensures a + (b + (c + d)) == a + b + c + d
  {
  }

  lemma EncodedParses(sd: SnapshotData, after: Bytes)
    requires Fits(sd)
    ensures Dec(Encoded(sd) + after) == Decoded(sd)
  {
    var tail := BE(|sd.files|, 4) + (EncAll(FileEnc, sd.files) + after);
    Regroup(Head(sd.head), BE(|sd.files|, 4), EncAll(FileEnc, sd.files), after);
    HeadParses(sd.head, tail);
    FilesParse(sd.files, after);
  }

  lemma DecodedIsEncoded(data: Bytes, sd: SnapshotData)
    requires Dec(data) == Decoded(sd)
    ensures Fits(sd) && Encoded(sd) <= data
  {
    var rest := DecHead(data).rest;
    ParsedHeadIsEncoded(data, sd.head, rest);
    var after := DecFiles(rest).rest;
    ParsedFilesAreEncoded(rest, sd.files, after);
    Regroup(Head(sd.head), BE(|sd.files|, 4), EncAll(FileEnc, sd.files), after);
  }

  /** Decoding yields `sd` exactly when the input starts with the encoding of `sd` and every length fits its field. */
  lemma DecodesExactlyEncodings(data: Bytes, sd: SnapshotData)
    ensures Dec(data) == Decoded(sd) <==> Fits(sd) && Encoded(sd) <= data
  {
    if Fits(sd) && Encoded(sd) <= data {
      EncodedParses(sd, data[|Encoded(sd)|..]);
      assert data == Encoded(sd) + data[|Encoded(sd)|..];
    }
    if Dec(data) == Decoded(sd) {
      DecodedIsEncoded(data, sd);
    }
  }

  /** A snapshot survives the wire exactly when every length fits its field. */
  lemma RoundTrip(sd: SnapshotData)
    ensures Dec(Encoded(sd)) == Decoded(sd) <==> Fits(sd)
  {
    DecodesExactlyEncodings(Encoded(sd), sd);
  }

  /** The decoder indexes past the end of its input exactly when the input is a header and at most three more bytes. */
  lemma PanicsExactly(data: Bytes)
    ensures Dec(data) == Panics <==> exists h, n: nat {:trigger Cuts(data, h, n)} :: Cuts(data, h, n)
  {
    if Dec(data) == Panics {
      var h := DecHead(data);
      ParsedHeadIsEncoded(data, h.value, h.rest);
      assert Cuts(data, h.value, |h.rest|);
    }
    if h, n: nat :| Cuts(data, h, n) {
      HeadParses(h, data[|Head(h)|..]);
      assert data == Head(h) + data[|Head(h)|..];
    }
  }

  /** `data` is the header `h` followed by `n` bytes, too few for the file count. */
  ghost predicate Cuts(data: Bytes, h: Header, n: nat) {
    HeadFits(h) && n < 4 && |data| == |Head(h)| + n && Head(h) <= data
  }

  // ----- Writing and reading buffers -----

  method MarshalPair(p: Pair<Bytes>) returns (out: Bytes)
    ensures out == PairEnc(p)
  {
    out := BE(|p.key|, 4);
    out := out + p.key;
    out := out + BE(|p.value|, 4);
    out := out + p.value;
  }

  method MarshalPairs(ps: seq<Pair<Bytes>>) returns (out: Bytes)
    ensures out == EncAll(PairEnc, ps)
  {
    out := [];
    for i := 0 to |ps|
      invariant out == EncAll(PairEnc, ps[..i])
    {
      var e := MarshalPair(ps[i]);
      EncAllNext(PairEnc, ps, i, e);
      out := out + e;
    }
    assert ps[..|ps|] == ps;
  }

  method MarshalFile(f: CFFile) returns (out: Bytes)
    ensures out == FileEnc(f)
  {
    out := BE(|f.cf|, 2) + f.cf;
    out := out + BE(|f.pairs|, 4);
    out := out + BE(f.checksum, 4);
    var ps := MarshalPairs(f.pairs);
    out := out + ps;
  }

  /** MarshalSnapshotData. */
  method MarshalSnapshotData(sd: SnapshotData) returns (buf: Bytes)
    ensures buf == Encoded(sd)
  {
    var files := [];
    for i := 0 to |sd.files|
      invariant files == EncAll(FileEnc, sd.files[..i])
    {
      var e := MarshalFile(sd.files[i]);
      EncAllNext(FileEnc, sd.files, i, e);
      files := files + e;
    }
    assert sd.files[..|sd.files|] == sd.files;
    buf := Head(sd.head) + BE(|sd.files|, 4) + files;
  }

  method ReadPair(data: Bytes) returns (r: Parsed<Pair<Bytes>>)
    ensures r == DecPair(data)
  {
    var key := ReadField(data, 4);
    if key.Cut? {
      return Cut;
    }
    var value := ReadField(key.rest, 4);
    if value.Cut? {
      return Cut;
    }
    return Parsed(Pair(key.value, value.value), value.rest);
  }

  method ReadPairs(data: Bytes, n: nat) returns (r: Parsed<seq<Pair<Bytes>>>)
    ensures r == DecAll(DecPair, n, data)
  {
    var ps, rest := [], data;
    RemainsAll(DecPair, n, data);
    for j := 0 to n
      invariant Remains(DecPair, n, data, ps, n - j, rest)
    {
      var p := ReadPair(rest);
      if p.Cut? {
        RemainsCut(DecPair, n, data, ps, n - j, rest);
        return Cut;
      }
      RemainsLess(DecPair, n, data, ps, n - j, rest, p.value, p.rest);
      ps, rest := ps + [p.value], p.rest;
    }
    RemainsNone(DecPair, n, data, ps, rest);
    return Parsed(ps, rest);
  }

  method ReadFileHead(data: Bytes) returns (r: Parsed<FileInfo>)
    ensures r == DecFileHead(data)
  {
    var cf := ReadField(data, 2);
    if cf.Cut? || |cf.rest| < 8 {
      return Cut;
    }
    FromBEBound(cf.rest[4..8]);
    Pow256Of8();
    var count := ReadNum(cf.rest, 4);
    var checksum := ReadNum(count.rest, 4);
    assert cf.rest[4..][..4] == cf.rest[4..8] && cf.rest[4..][4..] == cf.rest[8..];
    return Parsed(FileInfo(cf.value, count.value, checksum.value), checksum.rest);
  }

  method ReadFile(data: Bytes) returns (r: Parsed<CFFile>)
    ensures r == DecFile(data)
  {
    var h := ReadFileHead(data);
    if h.Cut? {
      return Cut;
    }
    var ps := ReadPairs(h.rest, h.value.count);
    if ps.Cut? {
      return Cut;
    }
    return Parsed(CFFile(h.value.cf, ps.value, h.value.checksum), ps.rest);
  }

  method ReadFiles(data: Bytes, n: nat) returns (r: Parsed<seq<CFFile>>)
    ensures r == DecAll(DecFile, n, data)
  {
    var fs, rest := [], data;
    RemainsAll(DecFile, n, data);
    for i := 0 to n
      invariant Remains(DecFile, n, data, fs, n - i, rest)
    {
      var f := ReadFile(rest);
      if f.Cut? {
        RemainsCut(DecFile, n, data, fs, n - i, rest);
        return Cut;
      }
      RemainsLess(DecFile, n, data, fs, n - i, rest, f.value, f.rest);
      fs, rest := fs + [f.value], f.rest;
    }
    RemainsNone(DecFile, n, data, fs, rest);
    return Parsed(fs, rest);
  }

  method ReadHead(data: Bytes) returns (r: Parsed<Header>)
    ensures r == DecHead(data)
  {
    if |data| < 20 {
      return Cut;
    }
    var regionID := ReadNum(data, 8);
    var version := ReadNum(regionID.rest, 8);
    assert data[8..][..8] == data[8..16] && data[8..][8..] == data[16..];
    var startKey := ReadField(version.rest, 4);
    if startKey.Cut? {
      return Cut;
    }
    var endKey := ReadField(startKey.rest, 4);
    if endKey.Cut? {
      return Cut;
    }
    FromBEBound(data[..8]);
    FromBEBound(data[8..16]);
    Pow256Of8();
    return Parsed(Header(regionID.value, version.value, startKey.value, endKey.value), endKey.rest);
  }

  /** UnmarshalSnapshotData. */
  method UnmarshalSnapshotData(data: Bytes) returns (r: Outcome)
    ensures r == Dec(data)
  {
    var h := ReadHead(data);
    if h.Cut? {
      return Malformed;
    }
    var n := ReadNum(h.rest, 4);
    if n.Cut? {
      return Panics;
    }
    var fs := ReadFiles(n.rest, n.value);
    if fs.Cut? {
      return Malformed;
    }
    return Decoded(SnapshotData(h.value, fs.value));
  }
}
