/** Unsigned varints, length-prefixed byte strings and tagged optional fields, as lock and write records use them
    (pkg/txntypes/util.go). */
module Varint {
  import opened Bytes
  import opened Parsing

  const MAX_VARINT_LEN: nat := 10

  /** Seven bits a byte, low bits first, the high bit set on all but the last. */
  function Uvarint(v: nat): (b: Bytes)
    ensures b != []
  {
    if v < 128 then [v] else [v % 128 + 128] + Uvarint(v / 128)
  }

  /** Reads the varint bytes from number `i` on; more than 64 bits are an error. */
  function UvarintFrom(data: Bytes, i: nat): Parsed<nat> {
    if data == [] || i >= MAX_VARINT_LEN then Cut
    else if data[0] < 128 then
      if i == MAX_VARINT_LEN - 1 && data[0] > 1 then Cut else Parsed(data[0], data[1..])
    else
      match UvarintFrom(data[1..], i + 1)
      case Cut => Cut
      case Parsed(v, rest) => Parsed(data[0] - 128 + 128 * v, rest)
  }

  /** What still fits into 64 bits from byte `i` on. */
  ghost function Bound(i: nat): nat
    requires i < MAX_VARINT_LEN
    decreases MAX_VARINT_LEN - i
  {
    if i == 9 then 2 else 128 * Bound(i + 1)
  }

  lemma BoundIs64Bits()
    ensures Bound(0) == 0x1_0000_0000_0000_0000
  {
    assert Bound(7) == 128 * (128 * 2);
    assert Bound(5) == 128 * (128 * Bound(7));
    assert Bound(3) == 128 * (128 * Bound(5));
    assert Bound(1) == 128 * (128 * Bound(3));
  }

  lemma {:induction false} UvarintReadsBack(v: nat, i: nat, rest: Bytes)
    requires i < MAX_VARINT_LEN && v < Bound(i)
    ensures UvarintFrom(Uvarint(v) + rest, i) == Parsed(v, rest)
    decreases v
  {
    var data := Uvarint(v) + rest;
    if v < 128 {
      assert data[1..] == rest;
    } else {
      var q := v / 128;
      Quotient(v, q, i);
      UvarintReadsBack(q, i + 1, rest);
      assert data[0] == v % 128 + 128 && data[1..] == Uvarint(q) + rest;
    }
  }

  /** A value too large for one byte leaves room for another, and the quotient fits there. */
  lemma Quotient(v: nat, q: nat, i: nat)
    requires i < MAX_VARINT_LEN && 128 <= v < Bound(i) && q == v / 128
    ensures i + 1 < MAX_VARINT_LEN && q < Bound(i + 1) && q < v && v == v % 128 + 128 * q
  {
  }

  /** binary.Uvarint inverts binary.PutUvarint on 64-bit values. */
  lemma UvarintRoundTrip(v: nat, rest: Bytes)
    requires v < 0x1_0000_0000_0000_0000
    ensures UvarintFrom(Uvarint(v) + rest, 0) == Parsed(v, rest)
  {
    BoundIs64Bits();
    UvarintReadsBack(v, 0, rest);
  }

  lemma {:induction false} UvarintConsumes(data: Bytes, i: nat)
    ensures UvarintFrom(data, i).Parsed? ==> |UvarintFrom(data, i).rest| < |data|
  {
    if data != [] && i < MAX_VARINT_LEN && data[0] >= 128 {
      UvarintConsumes(data[1..], i + 1);
    }
  }

  // ----- Length-prefixed byte strings -----

  function VarBytes(b: Bytes): Bytes {
    Uvarint(|b|) + b
  }

  function ReadVarBytes(data: Bytes): Parsed<Bytes> {
    match UvarintFrom(data, 0)
    case Cut => Cut
    case Parsed(n, rest) => if |rest| < n then Cut else Parsed(rest[..n], rest[n..])
  }

  lemma VarBytesRoundTrip(b: Bytes, rest: Bytes)
    requires |b| < 0x1_0000_0000_0000_0000
    ensures ReadVarBytes(VarBytes(b) + rest) == Parsed(b, rest)
  {
    assert VarBytes(b) + rest == Uvarint(|b|) + (b + rest);
    UvarintRoundTrip(|b|, b + rest);
    assert (b + rest)[..|b|] == b && (b + rest)[|b|..] == rest;
  }

  // ----- Counted lists -----

  function ListEnc<T>(enc: T -> Bytes, xs: seq<T>): Bytes {
    Uvarint(|xs|) + EncAll(enc, xs)
  }

  function ReadList<T>(dec: Bytes -> Parsed<T>, data: Bytes): Parsed<seq<T>> {
    match UvarintFrom(data, 0)
    case Cut => Cut
    case Parsed(n, rest) => DecAll(dec, n, rest)
  }

  lemma ListRoundTrip<T(!new)>(dec: Bytes -> Parsed<T>, enc: T -> Bytes, fits: T -> bool, xs: seq<T>, rest: Bytes)
    requires Restores(dec, enc, fits) && All(fits, xs) && |xs| < 0x1_0000_0000_0000_0000
    ensures ReadList(dec, ListEnc(enc, xs) + rest) == Parsed(xs, rest)
  {
    var tail := EncAll(enc, xs) + rest;
    assert ListEnc(enc, xs) + rest == Uvarint(|xs|) + tail;
    UvarintRoundTrip(|xs|, tail);
    EncodedListParses(dec, enc, fits, xs, rest);
  }

  // ----- Tagged optional fields -----

  /** `dec` takes at least one byte. */
  ghost predicate Consumes<F>(dec: Bytes -> Parsed<F>) {
    forall data | dec(data).Parsed? :: |dec(data).rest| < |data|
  }

  function SetAll<R, F>(set': (R, F) -> R, r: R, fs: seq<F>): R {
    if fs == [] then r else SetAll(set', set'(r, fs[0]), fs[1..])
  }

  /** Reads fields to the end of the input, each setting a part of the record. */
  function ReadFields<R, F>(dec: Bytes -> Parsed<F>, set': (R, F) -> R, data: Bytes, r: R): Option<R>
    requires Consumes(dec)
    decreases |data|
  {
    if data == [] then Some(r)
    else
      match dec(data)
      case Cut => None
      case Parsed(f, rest) => ReadFields(dec, set', rest, set'(r, f))
  }

  /** Reading written fields sets them one after the other. */
  lemma {:induction false} FieldsRoundTrip<R, F(!new)>(dec: Bytes -> Parsed<F>, enc: F -> Bytes, fits: F -> bool,
                                                       set': (R, F) -> R, fs: seq<F>, r: R)
    requires Consumes(dec) && Restores(dec, enc, fits) && All(fits, fs)
    ensures ReadFields(dec, set', EncAll(enc, fs), r) == Some(SetAll(set', r, fs))
    decreases |fs|
  {
    if fs != [] {
      var tail := EncAll(enc, fs[1..]);
      assert fits(fs[0]);
      assert dec(enc(fs[0]) + tail) == Parsed(fs[0], tail);
      FieldsRoundTrip(dec, enc, fits, set', fs[1..], set'(r, fs[0]));
    }
  }

  lemma {:induction false} SetAllConcat<R, F>(set': (R, F) -> R, r: R, fs: seq<F>, gs: seq<F>)
    ensures SetAll(set', r, fs + gs) == SetAll(set', SetAll(set', r, fs), gs)
    decreases |fs|
  {
    if fs == [] {
      assert fs + gs == gs;
    } else {
      assert (fs + gs)[1..] == fs[1..] + gs;
      SetAllConcat(set', set'(r, fs[0]), fs[1..], gs);
    }
  }

  /** What every field keeps, reading keeps. */
  lemma {:induction false} FieldsKeep<R(!new), F>(dec: Bytes -> Parsed<F>, set': (R, F) -> R, keeps: R -> bool,
      data: Bytes, r: R)
    requires Consumes(dec) && keeps(r)
    requires forall x, d | keeps(x) && dec(d).Parsed? :: keeps(set'(x, dec(d).value))
    ensures var out := ReadFields(dec, set', data, r); out.Some? ==> keeps(out.value)
    decreases |data|
  {
    if data != [] && dec(data).Parsed? {
      FieldsKeep(dec, set', keeps, dec(data).rest, set'(r, dec(data).value));
    }
  }

  // ----- Payloads -----

  /** The shapes of optional fields: a short value behind one length byte, a fixed 64-bit number, counted keys, counted
      timestamps, a last change, a varint, or nothing but the tag. */
  datatype Payload = Short(b: Bytes) | Fixed(v: nat) | Keys(keys: seq<Bytes>) | Stamps(stamps: seq<nat>)
    | Change(ts: nat, versions: nat) | Var(n: nat) | Flag

  datatype Kind = ShortKind | FixedKind | KeysKind | StampsKind | ChangeKind | VarKind | FlagKind

  function KindOf(p: Payload): Kind {
    match p
    case Short(_) => ShortKind
    case Fixed(_) => FixedKind
    case Keys(_) => KeysKind
    case Stamps(_) => StampsKind
    case Change(_, _) => ChangeKind
    case Var(_) => VarKind
    case Flag => FlagKind
  }

  function FixedEnc(v: nat): (b: Bytes)
    ensures |b| == 8
  {
    BE(v, 8)
  }

  function FixedDec(data: Bytes): Parsed<nat> {
    Num(data, 8)
  }

  function PayloadEnc(p: Payload): Bytes {
    match p
    case Short(b) => FieldEnc(b, 1)
    case Fixed(v) => FixedEnc(v)
    case Keys(keys) => ListEnc(VarBytes, keys)
    case Stamps(stamps) => ListEnc(FixedEnc, stamps)
    case Change(ts, versions) => FixedEnc(ts) + Uvarint(versions)
    case Var(n) => Uvarint(n)
    case Flag => []
  }

  function Mapped<T, U>(r: Parsed<T>, f: T -> U): Parsed<U> {
    match r
    case Cut => Cut
    case Parsed(x, rest) => Parsed(f(x), rest)
  }

  function PayloadDec(k: Kind, data: Bytes): Parsed<Payload> {
    match k
    case ShortKind => Mapped(Field(data, 1), b => Short(b))
    case FixedKind => Mapped(FixedDec(data), v => Fixed(v))
    case KeysKind => Mapped(ReadList(ReadVarBytes, data), ks => Keys(ks))
    case StampsKind => Mapped(ReadList(FixedDec, data), vs => Stamps(vs))
    case ChangeKind =>
      (match FixedDec(data)
       case Cut => Cut
       case Parsed(ts, rest) => Mapped(UvarintFrom(rest, 0), n => Change(ts, n)))
    case VarKind => Mapped(UvarintFrom(data, 0), n => Var(n))
    case FlagKind => Parsed(Flag, data)
  }

  ghost predicate Is64(n: nat) {
    n < 0x1_0000_0000_0000_0000
  }

  ghost predicate KeyFits(k: Bytes) {
    Is64(|k|)
  }

  ghost predicate PayloadFits(p: Payload) {
    match p
    case Short(b) => |b| < 256
    case Fixed(v) => Is64(v)
    case Keys(keys) => Is64(|keys|) && All(KeyFits, keys)
    case Stamps(stamps) => Is64(|stamps|) && All(Is64, stamps)
    case Change(ts, versions) => Is64(ts) && Is64(versions)
    case Var(n) => Is64(n)
    case Flag => true
  }

  lemma FixedRoundTrip(v: nat, rest: Bytes)
    requires Is64(v)
    ensures FixedDec(FixedEnc(v) + rest) == Parsed(v, rest)
  {
    Pow256Of8();
    NumExact(FixedEnc(v) + rest, 8, v, rest);
  }

  lemma KeysRestore()
    ensures Restores(ReadVarBytes, VarBytes, KeyFits)
  {
    forall b, rest | KeyFits(b) ensures ReadVarBytes(VarBytes(b) + rest) == Parsed(b, rest) {
      VarBytesRoundTrip(b, rest);
    }
  }

  lemma StampsRestore()
    ensures Restores(FixedDec, FixedEnc, Is64)
  {
    forall v: nat, rest | Is64(v) ensures FixedDec(FixedEnc(v) + rest) == Parsed(v, rest) {
      FixedRoundTrip(v, rest);
    }
  }

  lemma ShortRoundTrip(b: Bytes, rest: Bytes)
    requires |b| < 256
    ensures Field(FieldEnc(b, 1) + rest, 1) == Parsed(b, rest)
  {
    assert Pow256(1) == 256;
    FieldExact(FieldEnc(b, 1) + rest, 1, b, rest);
  }

  lemma ChangeRoundTrip(ts: nat, versions: nat, rest: Bytes)
    requires Is64(ts) && Is64(versions)
    ensures PayloadDec(ChangeKind, FixedEnc(ts) + Uvarint(versions) + rest) == Parsed(Change(ts, versions), rest)
  {
    var tail := Uvarint(versions) + rest;
    assert FixedEnc(ts) + Uvarint(versions) + rest == FixedEnc(ts) + tail;
    FixedRoundTrip(ts, tail);
    UvarintRoundTrip(versions, rest);
  }

  lemma PayloadRoundTrip(p: Payload, rest: Bytes)
    requires PayloadFits(p)
    ensures PayloadDec(KindOf(p), PayloadEnc(p) + rest) == Parsed(p, rest)
  {
    match p
    case Short(b) => ShortRoundTrip(b, rest);
    case Fixed(v) => FixedRoundTrip(v, rest);
    case Keys(keys) =>
      KeysRestore();
      ListRoundTrip(ReadVarBytes, VarBytes, KeyFits, keys, rest);
    case Stamps(stamps) =>
      StampsRestore();
      ListRoundTrip(FixedDec, FixedEnc, Is64, stamps, rest);
    case Change(ts, versions) => ChangeRoundTrip(ts, versions, rest);
    case Var(n) => UvarintRoundTrip(n, rest);
    case Flag => assert [] + rest == rest;
  }

  // ----- Fields -----

  datatype Tagged = Tagged(tag: byte, payload: Payload)

  function TaggedEnc(f: Tagged): Bytes {
    [f.tag] + PayloadEnc(f.payload)
  }

  /** Reads a tag and its payload; a tag that `kindOf` does not know is an error. */
  function TaggedDec(kindOf: byte -> Option<Kind>, data: Bytes): Parsed<Tagged> {
    if data == [] || kindOf(data[0]).None? then Cut
    else Mapped(PayloadDec(kindOf(data[0]).value, data[1..]), p => Tagged(data[0], p))
  }

  ghost predicate TaggedFits(kindOf: byte -> Option<Kind>, f: Tagged) {
    kindOf(f.tag) == Some(KindOf(f.payload)) && PayloadFits(f.payload)
  }

  lemma TaggedRoundTrip(kindOf: byte -> Option<Kind>, f: Tagged, rest: Bytes)
    requires TaggedFits(kindOf, f)
    ensures TaggedDec(kindOf, TaggedEnc(f) + rest) == Parsed(f, rest)
  {
    var data := TaggedEnc(f) + rest;
    assert data[0] == f.tag && data[1..] == PayloadEnc(f.payload) + rest;
    PayloadRoundTrip(f.payload, rest);
  }

  lemma {:induction false} DecAllShrinks<T>(dec: Bytes -> Parsed<T>, n: nat, data: Bytes)
    requires forall d | dec(d).Parsed? :: |dec(d).rest| <= |d|
    ensures DecAll(dec, n, data).Parsed? ==> |DecAll(dec, n, data).rest| <= |data|
    decreases n
  {
    if n > 0 && dec(data).Parsed? {
      DecAllShrinks(dec, n - 1, dec(data).rest);
    }
  }

  lemma PayloadShrinks(k: Kind, data: Bytes)
    ensures PayloadDec(k, data).Parsed? ==> |PayloadDec(k, data).rest| <= |data|
  {
    UvarintConsumes(data, 0);
    match k
    case KeysKind =>
      forall d | ReadVarBytes(d).Parsed? ensures |ReadVarBytes(d).rest| <= |d| {
        UvarintConsumes(d, 0);
      }
      var n := UvarintFrom(data, 0);
      if n.Parsed? {
        DecAllShrinks(ReadVarBytes, n.value, n.rest);
      }
    case StampsKind =>
      var n := UvarintFrom(data, 0);
      if n.Parsed? {
        DecAllShrinks(FixedDec, n.value, n.rest);
      }
    case ChangeKind =>
      var ts := FixedDec(data);
      if ts.Parsed? {
        UvarintConsumes(ts.rest, 0);
      }
    case ShortKind =>
    case FixedKind =>
    case VarKind =>
    case FlagKind =>
  }

  lemma TaggedConsumes(kindOf: byte -> Option<Kind>, data: Bytes)
    ensures TaggedDec(kindOf, data).Parsed? ==> |TaggedDec(kindOf, data).rest| < |data|
  {
    if data != [] && kindOf(data[0]).Some? {
      PayloadShrinks(kindOf(data[0]).value, data[1..]);
    }
  }

  /** A short value that was read has at most 255 bytes. */
  lemma ShortIsShort(data: Bytes)
    ensures Field(data, 1).Parsed? ==> |Field(data, 1).value| < 256
  {
    if |data| >= 1 {
      FromBEBound(data[..1]);
      assert Pow256(1) == 256;
    }
  }

  // ----- Records with optional fields -----

  /** A field that is written only if it is set. */
  function If(c: bool, tag: byte, p: Payload): seq<Tagged> {
    if c then [Tagged(tag, p)] else []
  }

  /** The first `n` optional fields of a record, as far as they are set. */
  function FieldsOf<R>(optional: (R, nat) -> seq<Tagged>, r: R, n: nat): seq<Tagged> {
    if n == 0 then [] else FieldsOf(optional, r, n - 1) + optional(r, n - 1)
  }

  lemma {:induction false} FieldsFit<R>(optional: (R, nat) -> seq<Tagged>, fits: Tagged -> bool, r: R, n: nat)
    requires forall i: nat | i < n :: All(fits, optional(r, i))
    ensures All(fits, FieldsOf(optional, r, n))
  {
    if n > 0 {
      FieldsFit(optional, fits, r, n - 1);
    }
  }

  /** If each field takes the record one step further, all of them take it all the way. */
  lemma {:induction false} FieldsSet<R>(optional: (R, nat) -> seq<Tagged>, partial: (R, nat) -> R,
      set': (R, Tagged) -> R, r: R, n: nat)
    requires forall i: nat | i < n :: SetAll(set', partial(r, i), optional(r, i)) == partial(r, i + 1)
    ensures SetAll(set', partial(r, 0), FieldsOf(optional, r, n)) == partial(r, n)
  {
    if n > 0 {
      FieldsSet(optional, partial, set', r, n - 1);
      SetAllConcat(set', partial(r, 0), FieldsOf(optional, r, n - 1), optional(r, n - 1));
    }
  }

  lemma SetOne<R>(set': (R, Tagged) -> R, r: R, f: Tagged)
    ensures SetAll(set', r, [f]) == set'(r, f)
  {
    assert [f][1..] == [];
  }

  /** The record's buffer after `n` optional fields. */
  ghost function Written<R>(optional: (R, nat) -> seq<Tagged>, head: Bytes, r: R, n: nat): Bytes {
    head + EncAll(TaggedEnc, FieldsOf(optional, r, n))
  }

  lemma WrittenNext<R>(optional: (R, nat) -> seq<Tagged>, head: Bytes, r: R, i: nat, f: Tagged, e: Bytes)
    requires optional(r, i) == [f] && e == TaggedEnc(f)
    ensures Written(optional, head, r, i + 1) == Written(optional, head, r, i) + e
  {
    var fs := FieldsOf(optional, r, i);
    EncAllSnoc(TaggedEnc, fs, f);
    assert FieldsOf(optional, r, i + 1) == fs + [f];
    Join(head, EncAll(TaggedEnc, fs), e);
  }

  lemma Join(a: Bytes, b: Bytes, c: Bytes)
    ensures a + (b + c) == a + b + c
  {
  }

  /** Appends an optional field if it is set. */
  method Append<R>(buf: Bytes, c: bool, tag: byte, p: Payload, ghost optional: (R, nat) -> seq<Tagged>,
      ghost head: Bytes, ghost r: R, ghost i: nat)
    returns (out: Bytes)
    requires buf == Written(optional, head, r, i) && optional(r, i) == If(c, tag, p)
    ensures out == Written(optional, head, r, i + 1)
  {
    if c {
      var e := TaggedEnc(Tagged(tag, p));
      WrittenNext(optional, head, r, i, Tagged(tag, p), e);
      out := buf + e;
    } else {
      assert FieldsOf(optional, r, i + 1) == FieldsOf(optional, r, i);
      out := buf;
    }
  }
}
