/** Write records (pkg/txntypes/write.go), in the format of lock records with other fields. */
module WriteCodec {
  import opened Bytes
  import opened Parsing
  import opened Varint
  import LockCodec

  datatype Write = Write(
    writeType: byte, startTS: nat, shortValue: Bytes, overlappedRollback: bool, gcFence: Option<nat>,
    lastChange: LockCodec.LastChange, txnSource: nat)

  const TAG_SHORT_VALUE: byte := 0x76
  const TAG_OVERLAPPED_ROLLBACK: byte := 0x52
  const TAG_GC_FENCE: byte := 0x46
  const TAG_LAST_CHANGE: byte := 0x6C
  const TAG_TXN_SOURCE: byte := 0x53

  function WriteKind(tag: byte): Option<Kind> {
    if tag == TAG_SHORT_VALUE then Some(ShortKind)
    else if tag == TAG_OVERLAPPED_ROLLBACK then Some(FlagKind)
    else if tag == TAG_GC_FENCE then Some(FixedKind)
    else if tag == TAG_LAST_CHANGE then Some(ChangeKind)
    else if tag == TAG_TXN_SOURCE then Some(VarKind)
    else None
  }

  /** A write with only its required fields. */
  function Bare(writeType: byte, startTS: nat): Write {
    Write(writeType, startTS, [], false, None, LockCodec.LastChange(0, 0), 0)
  }

  // ----- Writing -----

  /** The `i`-th optional field, if it is set. */
  function Optional(w: Write, i: nat): seq<Tagged> {
    match i
    case 0 => If(w.shortValue != [], TAG_SHORT_VALUE, Short(w.shortValue))
    case 1 => If(w.overlappedRollback, TAG_OVERLAPPED_ROLLBACK, Flag)
    case 2 => If(w.gcFence.Some?, TAG_GC_FENCE, Fixed(if w.gcFence.Some? then w.gcFence.value else 0))
    case 3 => If(w.lastChange.ts != 0, TAG_LAST_CHANGE, Change(w.lastChange.ts, w.lastChange.versions))
    case 4 => If(w.txnSource > 0, TAG_TXN_SOURCE, Var(w.txnSource))
    case _ => []
  }

  function Head(w: Write): Bytes {
    [w.writeType] + Uvarint(w.startTS)
  }

  function Encoded(w: Write): Bytes {
    Head(w) + EncAll(TaggedEnc, FieldsOf(Optional, w, 5))
  }

  // ----- Reading -----

  function FieldDec(data: Bytes): Parsed<Tagged> {
    TaggedDec(WriteKind, data)
  }

  function Set(w: Write, f: Tagged): Write {
    match f.payload
    case Short(b) => w.(shortValue := b)
    case Flag => w.(overlappedRollback := true)
    case Fixed(v) => w.(gcFence := Some(v))
    case Change(ts, versions) => w.(lastChange := LockCodec.LastChange(ts, versions))
    case Var(n) => w.(txnSource := n)
    case _ => w
  }

  lemma FieldConsumes()
    ensures Consumes(FieldDec)
  {
    forall data | FieldDec(data).Parsed? ensures |FieldDec(data).rest| < |data| {
      TaggedConsumes(WriteKind, data);
    }
  }

  function DecHead(data: Bytes): Parsed<Write> {
    if |data| < 1 then Cut else Mapped(UvarintFrom(data[1..], 0), startTS => Bare(data[0], startTS))
  }

  function Decoded(data: Bytes): Option<Write> {
    FieldConsumes();
    match DecHead(data)
    case Cut => None
    case Parsed(w, rest) => ReadFields(FieldDec, Set, rest, w)
  }

  // ----- Round trip -----

  /** Values that fit the 64-bit numbers of the format, as all values of the program do. */
  ghost predicate Representable(w: Write) {
    && Is64(w.startTS) && (w.gcFence.Some? ==> Is64(w.gcFence.value))
    && Is64(w.lastChange.ts) && Is64(w.lastChange.versions) && Is64(w.txnSource)
  }

  /** No value that writing drops: a short value is short, and an estimate comes with the timestamp of the last
      change. */
  predicate Canonical(w: Write) {
    |w.shortValue| < 256 && (w.lastChange.ts != 0 || w.lastChange.versions == 0)
  }

  ghost predicate FieldFits(f: Tagged) {
    TaggedFits(WriteKind, f)
  }

  lemma FieldsRestore()
    ensures Restores(FieldDec, TaggedEnc, FieldFits)
  {
    forall f, rest | FieldFits(f) ensures FieldDec(TaggedEnc(f) + rest) == Parsed(f, rest) {
      TaggedRoundTrip(WriteKind, f, rest);
    }
  }

  lemma OptionalFits(w: Write, i: nat)
    requires Representable(w) && |w.shortValue| < 256 && i < 5
    ensures All(FieldFits, Optional(w, i))
  {
  }

  /** What is written of a write record. */
  function Kept(w: Write): Write {
    w.(lastChange := if w.lastChange.ts != 0 then w.lastChange else LockCodec.LastChange(0, 0))
  }

  /** The record after its first `n` optional fields have been read back. */
  function Partial(w: Write, n: nat): Write {
    var k := Kept(w);
    Write(w.writeType, w.startTS,
          if n > 0 then k.shortValue else [],
          n > 1 && k.overlappedRollback,
          if n > 2 then k.gcFence else None,
          if n > 3 then k.lastChange else LockCodec.LastChange(0, 0),
          if n > 4 then k.txnSource else 0)
  }

  lemma OptionalSets(w: Write, i: nat)
    requires i < 5
    ensures SetAll(Set, Partial(w, i), Optional(w, i)) == Partial(w, i + 1)
  {
    if Optional(w, i) != [] {
      SetOne(Set, Partial(w, i), Optional(w, i)[0]);
    }
  }

  lemma HeadRoundTrip(w: Write, rest: Bytes)
    requires Representable(w)
    ensures DecHead(Head(w) + rest) == Parsed(Partial(w, 0), rest)
  {
    var data := Head(w) + rest;
    assert data[0] == w.writeType && data[1..] == Uvarint(w.startTS) + rest;
    UvarintRoundTrip(w.startTS, rest);
  }

  /** A record with a short value that fits reads back as what was written of it. */
  lemma ReadsBackKept(w: Write)
    requires Representable(w) && |w.shortValue| < 256
    ensures Decoded(Encoded(w)) == Some(Kept(w))
  {
    FieldConsumes();
    HeadRoundTrip(w, EncAll(TaggedEnc, FieldsOf(Optional, w, 5)));
    FieldsRestore();
    forall i: nat | i < 5 ensures All(FieldFits, Optional(w, i)) {
      OptionalFits(w, i);
    }
    FieldsFit(Optional, FieldFits, w, 5);
    FieldsRoundTrip(FieldDec, TaggedEnc, FieldFits, Set, FieldsOf(Optional, w, 5), Partial(w, 0));
    forall i: nat | i < 5 ensures SetAll(Set, Partial(w, i), Optional(w, i)) == Partial(w, i + 1) {
      OptionalSets(w, i);
    }
    FieldsSet(Optional, Partial, Set, w, 5);
    assert Partial(w, 5) == Kept(w);
  }

  predicate ShortValueFits(w: Write) {
    |w.shortValue| < 256
  }

  lemma FieldIsShort(d: Bytes, f: Tagged)
    requires FieldDec(d).Parsed? && FieldDec(d).value == f
    ensures f.payload.Short? ==> |f.payload.b| < 256
  {
    ShortIsShort(d[1..]);
  }

  lemma FieldsKeepShort()
    ensures forall w, d | ShortValueFits(w) && FieldDec(d).Parsed? :: ShortValueFits(Set(w, FieldDec(d).value))
  {
    forall w, d | ShortValueFits(w) && FieldDec(d).Parsed? ensures ShortValueFits(Set(w, FieldDec(d).value)) {
      var f := FieldDec(d).value;
      FieldIsShort(d, f);
      SetKeepsShort(w, f);
    }
  }

  lemma SetKeepsShort(w: Write, f: Tagged)
    requires ShortValueFits(w) && (f.payload.Short? ==> |f.payload.b| < 256)
    ensures ShortValueFits(Set(w, f))
  {
  }

  /** Whatever is read has a short value of at most 255 bytes. */
  lemma DecodedIsShort(data: Bytes)
    ensures var r := Decoded(data); r.Some? ==> ShortValueFits(r.value)
  {
    FieldConsumes();
    var h := DecHead(data);
    if h.Parsed? {
      FieldsKeepShort();
      FieldsKeep(FieldDec, Set, ShortValueFits, h.rest, h.value);
    }
  }

  /** UnmarshalWrite inverts Marshal exactly on canonical records. */
  lemma RoundTrip(w: Write)
    requires Representable(w)
    ensures Decoded(Encoded(w)) == Some(w) <==> Canonical(w)
  {
    if |w.shortValue| < 256 {
      ReadsBackKept(w);
    } else {
      DecodedIsShort(Encoded(w));
    }
  }

  /** Different canonical records have different encodings. */
  lemma EncodedInjective(w: Write, v: Write)
    requires Representable(w) && Representable(v) && Canonical(w) && Canonical(v) && Encoded(w) == Encoded(v)
    ensures w == v
  {
    RoundTrip(w);
    RoundTrip(v);
  }

  // ----- The methods -----

  /** Marshal. */
  method Marshal(w: Write) returns (buf: Bytes)
    ensures buf == Encoded(w)
  {
    buf := Head(w);
    ghost var head, i := buf, 0;
    assert Written(Optional, head, w, i) == head + [];
    buf := Append(buf, |w.shortValue| > 0, TAG_SHORT_VALUE, Short(w.shortValue), Optional, head, w, i);
    i := i + 1;
    buf := Append(buf, w.overlappedRollback, TAG_OVERLAPPED_ROLLBACK, Flag, Optional, head, w, i);
    i := i + 1;
    buf := Append(buf, w.gcFence.Some?, TAG_GC_FENCE, Fixed(if w.gcFence.Some? then w.gcFence.value else 0),
        Optional, head, w, i);
    i := i + 1;
    buf := Append(buf, w.lastChange.ts != 0, TAG_LAST_CHANGE, Change(w.lastChange.ts, w.lastChange.versions),
        Optional, head, w, i);
    i := i + 1;
    buf := Append(buf, w.txnSource > 0, TAG_TXN_SOURCE, Var(w.txnSource), Optional, head, w, i);
  }

  /** UnmarshalWrite: the required fields, then one tagged field after the other. */
  method UnmarshalWrite(data: Bytes) returns (r: Option<Write>)
    ensures r == Decoded(data)
  {
    FieldConsumes();
    var head := DecHead(data);
    if head.Cut? {
      return None;
    }
    var w, left := head.value, head.rest;
    while left != []
      invariant ReadFields(FieldDec, Set, head.rest, head.value) == ReadFields(FieldDec, Set, left, w)
      decreases |left|
    {
      var f := FieldDec(left);
      if f.Cut? {
        return None;
      }
      w, left := Set(w, f.value), f.rest;
    }
    return Some(w);
  }
}
