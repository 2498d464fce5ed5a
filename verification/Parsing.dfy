/** Parsing a value off the front of a byte string, and lists of such values. */
module Parsing {
  import opened Bytes

  /** A value and the bytes after it, or input that ended too early. */
  datatype Parsed<T> = Parsed(value: T, rest: Bytes) | Cut

  function Num(data: Bytes, w: nat): Parsed<nat> {
    if |data| < w then Cut else Parsed(FromBE(data[..w]), data[w..])
  }

  /** A byte string behind its length in `w` bytes, of which only the low bytes are kept. */
  function FieldEnc(b: Bytes, w: nat): (e: Bytes)
    ensures |e| == w + |b|
  {
    BE(|b|, w) + b
  }

  function Field(data: Bytes, w: nat): Parsed<Bytes> {
    match Num(data, w)
    case Cut => Cut
    case Parsed(n, rest) => if |rest| < n then Cut else Parsed(rest[..n], rest[n..])
  }

  lemma NumExact(data: Bytes, w: nat, n: nat, rest: Bytes)
    ensures Num(data, w) == Parsed(n, rest) <==> n < Pow256(w) && data == BE(n, w) + rest
  {
    if n < Pow256(w) && data == BE(n, w) + rest {
      assert data[..w] == BE(n, w) && data[w..] == rest;
      BERoundTrip(n, w);
    }
    if Num(data, w) == Parsed(n, rest) {
      FromBERoundTrip(data[..w]);
      FromBEBound(data[..w]);
    }
  }

  /** Reading a field gives `b` exactly when the input starts with the field of `b` and its length fits. */
  lemma FieldExact(data: Bytes, w: nat, b: Bytes, rest: Bytes)
    ensures Field(data, w) == Parsed(b, rest) <==> |b| < Pow256(w) && data == FieldEnc(b, w) + rest
  {
    NumExact(data, w, |b|, b + rest);
    assert FieldEnc(b, w) + rest == BE(|b|, w) + (b + rest);
    if |b| < Pow256(w) && data == FieldEnc(b, w) + rest {
      assert (b + rest)[..|b|] == b && (b + rest)[|b|..] == rest;
    }
    if Field(data, w) == Parsed(b, rest) {
      var r := Num(data, w).rest;
      assert r == r[..|b|] + r[|b|..];
    }
  }

  // ----- Lists of a given length -----

  function EncAll<T>(enc: T -> Bytes, xs: seq<T>): Bytes {
    if xs == [] then [] else enc(xs[0]) + EncAll(enc, xs[1..])
  }

  function DecAll<T>(dec: Bytes -> Parsed<T>, n: nat, data: Bytes): Parsed<seq<T>> {
    if n == 0 then Parsed([], data)
    else
      match dec(data)
      case Cut => Cut
      case Parsed(x, rest) => Onto([x], DecAll(dec, n - 1, rest))
  }

  /** Puts already parsed elements in front of what was parsed after them. */
  function Onto<T>(xs: seq<T>, r: Parsed<seq<T>>): Parsed<seq<T>> {
    match r
    case Cut => Cut
    case Parsed(ys, rest) => Parsed(xs + ys, rest)
  }

  /** `dec` reads back every value that fits, whatever comes after it. */
  ghost predicate Restores<T(!new)>(dec: Bytes -> Parsed<T>, enc: T -> Bytes, fits: T -> bool) {
    forall x, rest | fits(x) :: dec(enc(x) + rest) == Parsed(x, rest)
  }

  /** `dec` accepts only encodings of values that fit. */
  ghost predicate AcceptsOnly<T(!new)>(dec: Bytes -> Parsed<T>, enc: T -> Bytes, fits: T -> bool) {
    forall data | dec(data).Parsed? :: fits(dec(data).value) && data == enc(dec(data).value) + dec(data).rest
  }

  ghost predicate All<T>(fits: T -> bool, xs: seq<T>) {
    forall i | 0 <= i < |xs| :: fits(xs[i])
  }

  lemma {:induction false} EncodedListParses<T(!new)>(dec: Bytes -> Parsed<T>, enc: T -> Bytes, fits: T -> bool,
      xs: seq<T>, rest: Bytes)
    requires Restores(dec, enc, fits) && All(fits, xs)
    ensures DecAll(dec, |xs|, EncAll(enc, xs) + rest) == Parsed(xs, rest)
  {
    if xs == [] {
      assert EncAll(enc, xs) + rest == rest;
    } else {
      EncodedListParses(dec, enc, fits, xs[1..], rest);
      assert EncAll(enc, xs) + rest == enc(xs[0]) + (EncAll(enc, xs[1..]) + rest);
      assert fits(xs[0]) && xs == [xs[0]] + xs[1..];
    }
  }

  lemma {:induction false} ParsedListIsEncoded<T(!new)>(dec: Bytes -> Parsed<T>, enc: T -> Bytes, fits: T -> bool,
                                                  n: nat, data: Bytes, xs: seq<T>, rest: Bytes)
    requires AcceptsOnly(dec, enc, fits) && DecAll(dec, n, data) == Parsed(xs, rest)
    ensures |xs| == n && All(fits, xs) && data == EncAll(enc, xs) + rest
    decreases n
  {
    if n == 0 {
      assert EncAll(enc, xs) + rest == rest;
    } else {
      var one := dec(data);
      var more := DecAll(dec, n - 1, one.rest);
      ParsedListIsEncoded(dec, enc, fits, n - 1, one.rest, more.value, more.rest);
      assert xs[1..] == more.value;
      assert EncAll(enc, xs) + rest == enc(xs[0]) + (EncAll(enc, xs[1..]) + rest);
    }
  }

  lemma {:induction false} EncAllSnoc<T>(enc: T -> Bytes, xs: seq<T>, x: T)
    ensures EncAll(enc, xs + [x]) == EncAll(enc, xs) + enc(x)
  {
    if xs == [] {
      assert xs + [x] == [x] && [x][1..] == [];
      assert enc(x) + EncAll(enc, []) == enc(x);
    } else {
      assert (xs + [x])[1..] == xs[1..] + [x];
      EncAllSnoc(enc, xs[1..], x);
      assert EncAll(enc, xs + [x]) == enc(xs[0]) + (EncAll(enc, xs[1..]) + enc(x));
    }
  }

  lemma EncAllNext<T>(enc: T -> Bytes, xs: seq<T>, i: nat, e: Bytes)
    requires i < |xs| && enc(xs[i]) == e
    ensures EncAll(enc, xs[..i + 1]) == EncAll(enc, xs[..i]) + e
  {
    assert xs[..i + 1] == xs[..i] + [xs[i]];
    EncAllSnoc(enc, xs[..i], xs[i]);
  }

  /** What parsing a list of `n` from `data` still amounts to: `xs` is parsed, `k` elements remain at the start of
      `rest`. */
  ghost predicate Remains<T>(dec: Bytes -> Parsed<T>, n: nat, data: Bytes, xs: seq<T>, k: nat, rest: Bytes) {
    DecAll(dec, n, data) == Onto(xs, DecAll(dec, k, rest))
  }

  lemma RemainsAll<T>(dec: Bytes -> Parsed<T>, n: nat, data: Bytes)
    ensures Remains(dec, n, data, [], n, data)
  {
    var r := DecAll(dec, n, data);
    assert r.Parsed? ==> [] + r.value == r.value;
  }

  lemma RemainsLess<T>(dec: Bytes -> Parsed<T>, n: nat, data: Bytes, xs: seq<T>, k: nat, rest: Bytes, x: T,
      rest': Bytes)
    requires Remains(dec, n, data, xs, k, rest) && k > 0 && dec(rest) == Parsed(x, rest')
    ensures Remains(dec, n, data, xs + [x], k - 1, rest')
  {
    var r := DecAll(dec, k - 1, rest');
    assert r.Parsed? ==> xs + ([x] + r.value) == xs + [x] + r.value;
  }

  lemma RemainsCut<T>(dec: Bytes -> Parsed<T>, n: nat, data: Bytes, xs: seq<T>, k: nat, rest: Bytes)
    requires Remains(dec, n, data, xs, k, rest) && k > 0 && dec(rest) == Cut
    ensures DecAll(dec, n, data) == Cut
  {
  }

  lemma RemainsNone<T>(dec: Bytes -> Parsed<T>, n: nat, data: Bytes, xs: seq<T>, rest: Bytes)
    requires Remains(dec, n, data, xs, 0, rest)
    ensures DecAll(dec, n, data) == Parsed(xs, rest)
  {
    assert xs + [] == xs;
  }

  /** Reads a number off the front of a buffer. */
  method ReadNum(data: Bytes, w: nat) returns (r: Parsed<nat>)
    ensures r == Num(data, w)
  {
    if w > |data| {
      return Cut;
    }
    var n: nat := 0;
    for i := 0 to w
      invariant n == FromBE(data[..i])
    {
      assert data[..i + 1][..i] == data[..i];
      n := 256 * n + data[i];
    }
    return Parsed(n, data[w..]);
  }

  /** Reads a length-prefixed field off the front of a buffer. */
  method ReadField(data: Bytes, w: nat) returns (r: Parsed<Bytes>)
    ensures r == Field(data, w)
  {
    var n := ReadNum(data, w);
    if n.Cut? || n.value > |n.rest| {
      return Cut;
    }
    return Parsed(n.rest[..n.value], n.rest[n.value..]);
  }
}
