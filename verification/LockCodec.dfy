/** Lock records (pkg/txntypes/lock.go): required fields, then the tagged optional fields that are set. Reading back a
    written lock gives it exactly when it is canonical. */
module LockCodec {
  import opened Bytes
  import opened Parsing
  import opened Varint

  datatype LastChange = LastChange(ts: nat, versions: nat)

  datatype Lock = Lock(
    lockType: byte, primary: Bytes, startTS: nat, ttl: nat,
    shortValue: Bytes, forUpdateTS: nat, txnSize: nat, minCommitTS: nat,
    useAsyncCommit: bool, secondaries: seq<Bytes>, rollbackTS: seq<nat>,
    lastChange: LastChange, txnSource: nat, withConflict: bool, generation: nat)

  const TAG_SHORT_VALUE: byte := 0x76
  const TAG_FOR_UPDATE_TS: byte := 0x66
  const TAG_TXN_SIZE: byte := 0x74
  const TAG_MIN_COMMIT_TS: byte := 0x63
  const TAG_ASYNC_COMMIT_KEYS: byte := 0x61
  const TAG_ROLLBACK_TS: byte := 0x72
  const TAG_LAST_CHANGE: byte := 0x6C
  const TAG_TXN_SOURCE: byte := 0x73
  const TAG_CONFLICT: byte := 0x46
  const TAG_GENERATION: byte := 0x67

  function LockKind(tag: byte): Option<Kind> {
    if tag == TAG_SHORT_VALUE then Some(ShortKind)
    else if tag in {TAG_FOR_UPDATE_TS, TAG_TXN_SIZE, TAG_MIN_COMMIT_TS, TAG_GENERATION} then Some(FixedKind)
    else if tag == TAG_ASYNC_COMMIT_KEYS then Some(KeysKind)
    else if tag == TAG_ROLLBACK_TS then Some(StampsKind)
    else if tag == TAG_LAST_CHANGE then Some(ChangeKind)
    else if tag == TAG_TXN_SOURCE then Some(VarKind)
    else if tag == TAG_CONFLICT then Some(FlagKind)
    else None
  }

  /** A lock with only its required fields. */
  function Bare(lockType: byte, primary: Bytes, startTS: nat, ttl: nat): Lock {
    Lock(lockType, primary, startTS, ttl, [], 0, 0, 0, false, [], [], LastChange(0, 0), 0, false, 0)
  }

  // ----- Writing -----

  /** The `i`-th optional field, if it is set. */
  function Optional(l: Lock, i: nat): seq<Tagged> {
    match i
    case 0 => If(l.shortValue != [], TAG_SHORT_VALUE, Short(l.shortValue))
    case 1 => If(l.forUpdateTS != 0, TAG_FOR_UPDATE_TS, Fixed(l.forUpdateTS))
    case 2 => If(l.txnSize > 0, TAG_TXN_SIZE, Fixed(l.txnSize))
    case 3 => If(l.minCommitTS != 0, TAG_MIN_COMMIT_TS, Fixed(l.minCommitTS))
    case 4 => If(l.useAsyncCommit, TAG_ASYNC_COMMIT_KEYS, Keys(l.secondaries))
    case 5 => If(l.rollbackTS != [], TAG_ROLLBACK_TS, Stamps(l.rollbackTS))
    case 6 => If(l.lastChange.ts != 0, TAG_LAST_CHANGE, Change(l.lastChange.ts, l.lastChange.versions))
    case 7 => If(l.txnSource > 0, TAG_TXN_SOURCE, Var(l.txnSource))
    case 8 => If(l.withConflict, TAG_CONFLICT, Flag)
    case 9 => If(l.generation > 0, TAG_GENERATION, Fixed(l.generation))
    case _ => []
  }

  function Head(l: Lock): Bytes {
    [l.lockType] + VarBytes(l.primary) + Uvarint(l.startTS) + Uvarint(l.ttl)
  }

  function Encoded(l: Lock): Bytes {
    Head(l) + EncAll(TaggedEnc, FieldsOf(Optional, l, 10))
  }

  // ----- Reading -----

  function FieldDec(data: Bytes): Parsed<Tagged> {
    TaggedDec(LockKind, data)
  }

  function Set(l: Lock, f: Tagged): Lock {
    match f.payload
    case Short(b) => l.(shortValue := b)
    case Fixed(v) =>
      if f.tag == TAG_FOR_UPDATE_TS then l.(forUpdateTS := v)
      else if f.tag == TAG_TXN_SIZE then l.(txnSize := v)
      else if f.tag == TAG_MIN_COMMIT_TS then l.(minCommitTS := v)
      else l.(generation := v)
    case Keys(keys) => l.(useAsyncCommit := true, secondaries := keys)
    case Stamps(stamps) => l.(rollbackTS := stamps)
    case Change(ts, versions) => l.(lastChange := LastChange(ts, versions))
    case Var(n) => l.(txnSource := n)
    case Flag => l.(withConflict := true)
  }

  lemma FieldConsumes()
    ensures Consumes(FieldDec)
  {
    forall data | FieldDec(data).Parsed? ensures |FieldDec(data).rest| < |data| {
      TaggedConsumes(LockKind, data);
    }
  }

  function DecHead(data: Bytes): Parsed<Lock> {
    if |data| < 1 then Cut
    else
      match ReadVarBytes(data[1..])
      case Cut => Cut
      case Parsed(primary, rest) =>
        match UvarintFrom(rest, 0)
        case Cut => Cut
        case Parsed(startTS, rest') =>
          Mapped(UvarintFrom(rest', 0), ttl => Bare(data[0], primary, startTS, ttl))
  }

  function Decoded(data: Bytes): Option<Lock> {
    FieldConsumes();
    match DecHead(data)
    case Cut => None
    case Parsed(l, rest) => ReadFields(FieldDec, Set, rest, l)
  }

  // ----- Round trip -----

  /** Values that fit the 64-bit numbers of the format, as all values of the program do. */
  ghost predicate Representable(l: Lock) {
    && Is64(|l.primary|) && Is64(l.startTS) && Is64(l.ttl) && Is64(l.forUpdateTS) && Is64(l.txnSize)
       && Is64(l.minCommitTS)
    && Is64(|l.secondaries|) && All(KeyFits, l.secondaries) && Is64(|l.rollbackTS|) && All(Is64, l.rollbackTS)
    && Is64(l.lastChange.ts) && Is64(l.lastChange.versions) && Is64(l.txnSource) && Is64(l.generation)
  }

  /** No value that writing drops: a short value is short, secondaries come with async commit, and an estimate with
      the timestamp of the last change. */
  predicate Canonical(l: Lock) {
    && |l.shortValue| < 256
    && (l.useAsyncCommit || l.secondaries == [])
    && (l.lastChange.ts != 0 || l.lastChange.versions == 0)
  }

  ghost predicate FieldFits(f: Tagged) {
    TaggedFits(LockKind, f)
  }

  lemma FieldsRestore()
    ensures Restores(FieldDec, TaggedEnc, FieldFits)
  {
    forall f, rest | FieldFits(f) ensures FieldDec(TaggedEnc(f) + rest) == Parsed(f, rest) {
      TaggedRoundTrip(LockKind, f, rest);
    }
  }

  lemma OptionalFits(l: Lock, i: nat)
    requires Representable(l) && |l.shortValue| < 256 && i < 10
    ensures All(FieldFits, Optional(l, i))
  {
  }

  /** What is written of a lock. */
  function Kept(l: Lock): Lock {
    l.(secondaries := if l.useAsyncCommit then l.secondaries else [],
       lastChange := if l.lastChange.ts != 0 then l.lastChange else LastChange(0, 0))
  }

  /** The lock after its first `n` optional fields have been read back. */
  function Partial(l: Lock, n: nat): Lock {
    var k, b := Kept(l), Bare(l.lockType, l.primary, l.startTS, l.ttl);
    Lock(l.lockType, l.primary, l.startTS, l.ttl,
         if n > 0 then k.shortValue else [],
         if n > 1 then k.forUpdateTS else 0,
         if n > 2 then k.txnSize else 0,
         if n > 3 then k.minCommitTS else 0,
         n > 4 && k.useAsyncCommit,
         if n > 4 then k.secondaries else [],
         if n > 5 then k.rollbackTS else [],
         if n > 6 then k.lastChange else LastChange(0, 0),
         if n > 7 then k.txnSource else 0,
         n > 8 && k.withConflict,
         if n > 9 then k.generation else 0)
  }

  lemma OptionalSets(l: Lock, i: nat)
    requires i < 10
    ensures SetAll(Set, Partial(l, i), Optional(l, i)) == Partial(l, i + 1)
  {
    if Optional(l, i) != [] {
      SetOne(Set, Partial(l, i), Optional(l, i)[0]);
    }
  }

  lemma HeadRoundTrip(l: Lock, rest: Bytes)
    requires Representable(l)
    ensures DecHead(Head(l) + rest) == Parsed(Partial(l, 0), rest)
  {
    var ttl := Uvarint(l.ttl) + rest;
    var start := Uvarint(l.startTS) + ttl;
    var data := Head(l) + rest;
    assert data == [l.lockType] + (VarBytes(l.primary) + start);
    assert data[0] == l.lockType && data[1..] == VarBytes(l.primary) + start;
    VarBytesRoundTrip(l.primary, start);
    UvarintRoundTrip(l.startTS, ttl);
    UvarintRoundTrip(l.ttl, rest);
  }

  /** A lock with a short value that fits reads back as what was written of it. */
  lemma ReadsBackKept(l: Lock)
    requires Representable(l) && |l.shortValue| < 256
    ensures Decoded(Encoded(l)) == Some(Kept(l))
  {
    FieldConsumes();
    HeadRoundTrip(l, EncAll(TaggedEnc, FieldsOf(Optional, l, 10)));
    FieldsRestore();
    forall i: nat | i < 10 ensures All(FieldFits, Optional(l, i)) {
      OptionalFits(l, i);
    }
    FieldsFit(Optional, FieldFits, l, 10);
    FieldsRoundTrip(FieldDec, TaggedEnc, FieldFits, Set, FieldsOf(Optional, l, 10), Partial(l, 0));
    forall i: nat | i < 10 ensures SetAll(Set, Partial(l, i), Optional(l, i)) == Partial(l, i + 1) {
      OptionalSets(l, i);
    }
    FieldsSet(Optional, Partial, Set, l, 10);
    assert Partial(l, 10) == Kept(l);
  }

  predicate ShortValueFits(l: Lock) {
    |l.shortValue| < 256
  }

  lemma FieldIsShort(d: Bytes, f: Tagged)
    requires FieldDec(d).Parsed? && FieldDec(d).value == f
    ensures f.payload.Short? ==> |f.payload.b| < 256
  {
    ShortIsShort(d[1..]);
  }

  lemma FieldsKeepShort()
    ensures forall l, d | ShortValueFits(l) && FieldDec(d).Parsed? :: ShortValueFits(Set(l, FieldDec(d).value))
  {
    forall l, d | ShortValueFits(l) && FieldDec(d).Parsed? ensures ShortValueFits(Set(l, FieldDec(d).value)) {
      var f := FieldDec(d).value;
      FieldIsShort(d, f);
      SetKeepsShort(l, f);
    }
  }

  lemma SetKeepsShort(l: Lock, f: Tagged)
    requires ShortValueFits(l) && (f.payload.Short? ==> |f.payload.b| < 256)
    ensures ShortValueFits(Set(l, f))
  {
  }

  /** Whatever is read has a short value of at most 255 bytes. */
  lemma DecodedIsShort(data: Bytes)
    ensures var r := Decoded(data); r.Some? ==> ShortValueFits(r.value)
  {
    FieldConsumes();
    var h := DecHead(data);
    if h.Parsed? {
      FieldsKeepShort();
      FieldsKeep(FieldDec, Set, ShortValueFits, h.rest, h.value);
    }
  }

  /** UnmarshalLock inverts Marshal exactly on canonical locks. */
  lemma RoundTrip(l: Lock)
    requires Representable(l)
    ensures Decoded(Encoded(l)) == Some(l) <==> Canonical(l)
  {
    if |l.shortValue| < 256 {
      ReadsBackKept(l);
    } else {
      DecodedIsShort(Encoded(l));
    }
  }

  /** Different canonical locks have different encodings. */
  lemma EncodedInjective(l: Lock, m: Lock)
    requires Representable(l) && Representable(m) && Canonical(l) && Canonical(m) && Encoded(l) == Encoded(m)
    ensures l == m
  {
    RoundTrip(l);
    RoundTrip(m);
  }

  // ----- The methods -----

  /** Marshal. */
  method Marshal(l: Lock) returns (buf: Bytes)
    ensures buf == Encoded(l)
  {
    buf := AppendFirst(Head(l), l);
    buf := AppendRest(buf, l, Head(l));
  }

  /** The optional fields up to the secondaries. */
  method AppendFirst(head: Bytes, l: Lock) returns (buf: Bytes)
    ensures buf == Written(Optional, head, l, 5)
  {
    buf := head;
    ghost var i := 0;
    assert Written(Optional, head, l, i) == head + [];
    buf := Append(buf, |l.shortValue| > 0, TAG_SHORT_VALUE, Short(l.shortValue), Optional, head, l, i);
    i := i + 1;
    buf := Append(buf, l.forUpdateTS != 0, TAG_FOR_UPDATE_TS, Fixed(l.forUpdateTS), Optional, head, l, i);
    i := i + 1;
    buf := Append(buf, l.txnSize > 0, TAG_TXN_SIZE, Fixed(l.txnSize), Optional, head, l, i);
    i := i + 1;
    buf := Append(buf, l.minCommitTS != 0, TAG_MIN_COMMIT_TS, Fixed(l.minCommitTS), Optional, head, l, i);
    i := i + 1;
    buf := Append(buf, l.useAsyncCommit, TAG_ASYNC_COMMIT_KEYS, Keys(l.secondaries), Optional, head, l, i);
  }

  /** The optional fields after them. */
  method AppendRest(before: Bytes, l: Lock, ghost head: Bytes) returns (buf: Bytes)
    requires before == Written(Optional, head, l, 5)
    ensures buf == Written(Optional, head, l, 10)
  {
    ghost var i := 5;
    buf := Append(before, |l.rollbackTS| > 0, TAG_ROLLBACK_TS, Stamps(l.rollbackTS), Optional, head, l, i);
    i := i + 1;
    buf := Append(buf, l.lastChange.ts != 0, TAG_LAST_CHANGE, Change(l.lastChange.ts, l.lastChange.versions),
        Optional, head, l, i);
    i := i + 1;
    buf := Append(buf, l.txnSource > 0, TAG_TXN_SOURCE, Var(l.txnSource), Optional, head, l, i);
    i := i + 1;
    buf := Append(buf, l.withConflict, TAG_CONFLICT, Flag, Optional, head, l, i);
    i := i + 1;
    buf := Append(buf, l.generation > 0, TAG_GENERATION, Fixed(l.generation), Optional, head, l, i);
  }

  /** UnmarshalLock: the required fields, then one tagged field after the other. */
  method UnmarshalLock(data: Bytes) returns (r: Option<Lock>)
    ensures r == Decoded(data)
  {
    FieldConsumes();
    var head := DecHead(data);
    if head.Cut? {
      return None;
    }
    var l, left := head.value, head.rest;
    while left != []
      invariant ReadFields(FieldDec, Set, head.rest, head.value) == ReadFields(FieldDec, Set, left, l)
      decreases |left|
    {
      var f := FieldDec(left);
      if f.Cut? {
        return None;
      }
      l, left := Set(l, f.value), f.rest;
    }
    return Some(l);
  }
}
