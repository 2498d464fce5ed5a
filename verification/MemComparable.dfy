/** Memcomparable byte strings (pkg/codec/bytes.go): groups of eight bytes, each followed by a marker
    byte that tells how much of the group is padding. */
module MemComparable {
  import opened Bytes

  const GROUP := 8
  const MARKER: byte := 255

  datatype DecodeError = InsufficientData | InvalidEncodedKey
  datatype Decoded = Ok(value: Bytes, rest: Bytes) | Err(error: DecodeError)

  function Zeros(n: nat): (z: Bytes)
    ensures |z| == n && forall i | 0 <= i < n :: z[i] == 0
  {
    seq(n, i => 0)
  }

  function Pad(a: Bytes, n: nat): (p: Bytes)
    requires |a| <= n
    ensures |p| == n
  {
    a + Zeros(n - |a|)
  }

  /** The encoded form of one group of at most eight bytes; the marker of a full group is 255. */
  function Group(g: Bytes): (e: Bytes)
    requires |g| <= GROUP
    ensures |e| == GROUP + 1
  {
    Pad(g, GROUP) + [MARKER - (GROUP - |g|)]
  }

  /** The encoding: full groups, then one group of fewer than eight bytes. */
  function Encoded(data: Bytes): (e: Bytes) {
    if |data| < GROUP then Group(data) else Group(data[..GROUP]) + Encoded(data[GROUP..])
  }

  function DecodedFrom(data: Bytes): Decoded {
    if |data| < GROUP + 1 then Err(InsufficientData)
    else
      var marker := data[GROUP];
      if marker == MARKER then
        match DecodedFrom(data[GROUP + 1..])
        case Err(e) => Err(e)
        case Ok(v, rest) => Ok(data[..GROUP] + v, rest)
      else if MARKER - marker > GROUP then Err(InvalidEncodedKey)
      else
        var realLen := GROUP - (MARKER - marker);
        if data[realLen..GROUP] == Zeros(GROUP - realLen) then Ok(data[..realLen], data[GROUP + 1..])
        else Err(InvalidEncodedKey)
  }

  // ----- Order embedding -----

  /** Zero padding followed by the length decides like the unpadded strings. */
  lemma {:induction false} PadOrder(a: Bytes, b: Bytes, n: nat)
    requires |a| <= n && |b| <= n
    ensures Lt(a, b) <==> Lt(Pad(a, n), Pad(b, n)) || (Pad(a, n) == Pad(b, n) && |a| < |b|)
  {
    var p, q := Pad(a, n), Pad(b, n);
    if n == 0 {
    } else if a == [] {
      assert p == Zeros(n);
      PadOfEmptyIsLeast(b, n);
      LtTrichotomy(p, q);
    } else if b == [] {
      assert q == Zeros(n);
      PadOfEmptyIsLeast(a, n);
      LtTrichotomy(p, q);
    } else {
      assert p[1..] == Pad(a[1..], n - 1) && q[1..] == Pad(b[1..], n - 1);
      assert p == [p[0]] + p[1..] && q == [q[0]] + q[1..];
      PadOrder(a[1..], b[1..], n - 1);
    }
  }

  lemma {:induction false} PadOfEmptyIsLeast(b: Bytes, n: nat)
    requires |b| <= n
    ensures !Lt(Pad(b, n), Zeros(n))
  {
    if n > 0 {
      var q := Pad(b, n);
      assert q[1..] == Pad(if b == [] then [] else b[1..], n - 1);
      assert Zeros(n)[1..] == Zeros(n - 1);
      PadOfEmptyIsLeast(if b == [] then [] else b[1..], n - 1);
    }
  }

  lemma GroupOrder(a: Bytes, b: Bytes)
    requires |a| <= GROUP && |b| <= GROUP
    ensures Lt(Group(a), Group(b)) <==> Lt(a, b)
    ensures Group(a) == Group(b) <==> a == b
  {
    var ma: byte, mb: byte := MARKER - (GROUP - |a|), MARKER - (GROUP - |b|);
    PadOrder(a, b, GROUP);
    LtConcat(Pad(a, GROUP), Pad(b, GROUP), [ma], [mb]);
    assert Lt([ma], [mb]) <==> ma < mb;
    if Group(a) == Group(b) {
      assert Group(a)[GROUP] == ma && Group(b)[GROUP] == mb;
      assert a == Group(a)[..|a|] && b == Group(b)[..|b|];
    }
  }

  /** The encoding is a prefix-free order embedding: whatever follows, encoded strings compare like the
      strings they encode, and what follows only decides between equal ones. */
  lemma {:induction false} EncodedOrder(a: Bytes, b: Bytes, x: Bytes, y: Bytes)
    ensures Lt(Encoded(a) + x, Encoded(b) + y) <==> Lt(a, b) || (a == b && Lt(x, y))
  {
    var p, q := Take(a, GROUP), Take(b, GROUP);
    var ra := if |a| < GROUP then [] else Encoded(a[GROUP..]);
    var rb := if |b| < GROUP then [] else Encoded(b[GROUP..]);
    assert Encoded(a) + x == Group(p) + (ra + x);
    assert Encoded(b) + y == Group(q) + (rb + y);
    LtConcat(Group(p), Group(q), ra + x, rb + y);
    GroupOrder(p, q);
    LtSplit(a, b, GROUP);
    if p == q {
      LtTrichotomy(p, q);
      if |p| < GROUP {
        assert ra + x == x && rb + y == y;
      } else {
        EncodedOrder(a[GROUP..], b[GROUP..], x, y);
        assert a == p + a[GROUP..] && b == q + b[GROUP..];
      }
    }
  }

  /** No encoding is a prefix of another. */
  lemma EncodedPrefixFree(a: Bytes, b: Bytes)
    requires Encoded(a) <= Encoded(b)
    ensures a == b
  {
    EncodedDecodes(a, Encoded(b)[|Encoded(a)|..]);
    assert Encoded(a) + Encoded(b)[|Encoded(a)|..] == Encoded(b) + [];
    EncodedDecodes(b, []);
  }

  // ----- Decoding -----

  lemma {:induction false} EncodedDecodes(a: Bytes, rest: Bytes)
    ensures DecodedFrom(Encoded(a) + rest) == Ok(a, rest)
  {
    var d := Encoded(a) + rest;
    if |a| < GROUP {
      assert d[GROUP] == MARKER - (GROUP - |a|);
      assert d[|a|..GROUP] == Zeros(GROUP - |a|) && d[..|a|] == a && d[GROUP + 1..] == rest;
    } else {
      assert d[..GROUP] == a[..GROUP] && d[GROUP] == MARKER;
      assert d[GROUP + 1..] == Encoded(a[GROUP..]) + rest;
      EncodedDecodes(a[GROUP..], rest);
      assert a[..GROUP] + a[GROUP..] == a;
    }
  }

  lemma GroupThenRest(d: Bytes, n: nat)
    requires |d| > GROUP && n <= GROUP && d[GROUP] == MARKER - (GROUP - n) && d[n..GROUP] == Zeros(GROUP - n)
    ensures d == Group(d[..n]) + d[GROUP + 1..]
  {
    assert Pad(d[..n], GROUP) == d[..GROUP];
  }

  lemma FullGroupEncodes(g: Bytes, v: Bytes, rest: Bytes)
    requires |g| == GROUP
    ensures Encoded(g + v) + rest == Group(g) + (Encoded(v) + rest)
  {
    assert (g + v)[..GROUP] == g && (g + v)[GROUP..] == v;
  }

  lemma {:induction false} AcceptedIsCanonical(d: Bytes)
    requires DecodedFrom(d).Ok?
    ensures var r := DecodedFrom(d); d == Encoded(r.value) + r.rest
  {
    if d[GROUP] == MARKER {
      AcceptedIsCanonical(d[GROUP + 1..]);
      var tail := DecodedFrom(d[GROUP + 1..]);
      GroupThenRest(d, GROUP);
      FullGroupEncodes(d[..GROUP], tail.value, tail.rest);
    } else {
      GroupThenRest(d, GROUP - (MARKER - d[GROUP]));
    }
  }

  /** Decoding inverts encoding with any trailing bytes intact, and accepts nothing else. */
  lemma DecodesExactlyEncodings(d: Bytes, a: Bytes, rest: Bytes)
    ensures DecodedFrom(d) == Ok(a, rest) <==> d == Encoded(a) + rest
  {
    if d == Encoded(a) + rest {
      EncodedDecodes(a, rest);
    }
    if DecodedFrom(d) == Ok(a, rest) {
      AcceptedIsCanonical(d);
    }
  }

  lemma {:induction false} EncodedLength(a: Bytes)
    ensures |Encoded(a)| == (|a| / GROUP + 1) * (GROUP + 1)
  {
    if |a| >= GROUP {
      EncodedLength(a[GROUP..]);
      assert |a| / GROUP == |a[GROUP..]| / GROUP + 1;
    }
  }

  // ----- Descending form -----

  function Inverted(a: Bytes): (r: Bytes)
    ensures |r| == |a| && forall i | 0 <= i < |a| :: r[i] == 255 - a[i]
  {
    seq(|a|, i requires 0 <= i < |a| => 255 - a[i])
  }

  /** The result of decoding a descending encoding: the rest is returned as it was. */
  function DecodedDesc(data: Bytes): Decoded {
    match DecodedFrom(Inverted(data))
    case Err(e) => Err(e)
    case Ok(v, rest) => Ok(v, Inverted(rest))
  }

  lemma InvertedTwice(a: Bytes)
    ensures Inverted(Inverted(a)) == a
  {
  }

  lemma InvertedConcat(a: Bytes, b: Bytes)
    ensures Inverted(a + b) == Inverted(a) + Inverted(b)
  {
  }

  lemma DecodesDescExactlyEncodings(d: Bytes, a: Bytes, rest: Bytes)
    ensures DecodedDesc(d) == Ok(a, rest) <==> d == Inverted(Encoded(a)) + rest
  {
    DecodesExactlyEncodings(Inverted(d), a, Inverted(rest));
    InvertedTwice(rest);
    InvertedTwice(d);
    InvertedConcat(Encoded(a), Inverted(rest));
    InvertedConcat(Inverted(Encoded(a)), rest);
    InvertedTwice(Encoded(a));
    match DecodedFrom(Inverted(d))
    case Err(_) =>
    case Ok(v, r) => InvertedTwice(r);
  }

  /** Inverting bytes reverses the order of strings neither of which is a prefix of the other. */
  lemma {:induction false} InvertedOrder(u: Bytes, v: Bytes, x: Bytes, y: Bytes)
    requires !(u <= v) && !(v <= u)
    ensures Lt(Inverted(u) + x, Inverted(v) + y) <==> Lt(v, u)
  {
    if u[0] == v[0] {
      assert (Inverted(u) + x)[1..] == Inverted(u[1..]) + x;
      assert (Inverted(v) + y)[1..] == Inverted(v[1..]) + y;
      assert u == [u[0]] + u[1..] && v == [v[0]] + v[1..];
      InvertedOrder(u[1..], v[1..], x, y);
    }
  }

  /** The descending form is a prefix-free embedding into the reverse order. */
  lemma EncodedDescOrder(a: Bytes, b: Bytes, x: Bytes, y: Bytes)
    ensures Lt(Inverted(Encoded(a)) + x, Inverted(Encoded(b)) + y) <==> Lt(b, a) || (a == b && Lt(x, y))
  {
    if a == b {
      LtCommonPrefix(Inverted(Encoded(a)), x, y);
      LtIrreflexive(a);
    } else {
      if Encoded(a) <= Encoded(b) {
        EncodedPrefixFree(a, b);
      }
      if Encoded(b) <= Encoded(a) {
        EncodedPrefixFree(b, a);
      }
      InvertedOrder(Encoded(a), Encoded(b), x, y);
      EncodedOrder(b, a, [], []);
      assert Encoded(a) + [] == Encoded(a) && Encoded(b) + [] == Encoded(b);
    }
  }

  // ----- The loops of the source -----

  /** EncodeBytes: appends the encoding of `data` to `dst` in one buffer, group by group. */
  method EncodeBytes(dst: Bytes, data: Bytes) returns (result: array<byte>)
    ensures fresh(result)
    ensures result[..] == dst + Encoded(data)
  {
    EncodedLength(data);
    result := new byte[|dst| + (|data| / GROUP + 1) * (GROUP + 1)](i => if 0 <= i < |dst| then dst[i] else 0);
    var pos, left := |dst|, data;
    while |left| >= GROUP
      invariant |dst| <= pos && pos + |Encoded(left)| == result.Length
      invariant result[..pos] + Encoded(left) == dst + Encoded(data)
      decreases |left|
    {
      PutGroup(result, pos, left[..GROUP]);
      pos := pos + GROUP + 1;
      left := left[GROUP..];
    }
    PutGroup(result, pos, left);
  }

  /** Writes one group and its marker at `pos`, leaving what stands before it. */
  method PutGroup(buf: array<byte>, pos: nat, g: Bytes)
    requires |g| <= GROUP && pos + GROUP + 1 <= buf.Length
    modifies buf
    ensures buf[..pos + GROUP + 1] == old(buf[..pos]) + Group(g)
  {
    for i := 0 to GROUP
      invariant buf[..pos] == old(buf[..pos])
      invariant buf[pos..pos + i] == Pad(g, GROUP)[..i]
    {
      buf[pos + i] := if i < |g| then g[i] else 0;
      assert buf[pos..pos + i + 1] == buf[pos..pos + i] + [buf[pos + i]];
    }
    buf[pos + GROUP] := MARKER - (GROUP - |g|);
    assert buf[..pos + GROUP + 1] == buf[..pos] + buf[pos..pos + GROUP] + [buf[pos + GROUP]];
  }

  /** EncodeBytesDesc: inverts only the bytes that EncodeBytes appended. */
  method EncodeBytesDesc(dst: Bytes, data: Bytes) returns (result: array<byte>)
    ensures fresh(result)
    ensures result[..] == dst + Inverted(Encoded(data))
  {
    result := EncodeBytes(dst, data);
    ghost var asc := result[..];
    for i := |dst| to result.Length
      invariant forall j | 0 <= j < result.Length :: result[j] == if |dst| <= j < i then 255 - asc[j] else asc[j]
    {
      result[i] := 255 - result[i];
    }
  }

  /** DecodeBytes: consumes groups until one with padding, then checks that the padding is zero. */
  method DecodeBytes(data: Bytes) returns (r: Decoded)
    ensures r == DecodedFrom(data)
  {
    var result: Bytes, left := [], data;
    while true
      invariant DecodedFrom(data) == match DecodedFrom(left)
          case Err(e) => Err(e)
          case Ok(v, rest) => Ok(result + v, rest)
      decreases |left|
    {
      if |left| < GROUP + 1 {
        return Err(InsufficientData);
      }
      var group, marker := left[..GROUP], left[GROUP];
      ghost var before := left;
      left := left[GROUP + 1..];
      if marker == MARKER {
        result := result + group;
        assert forall v: Bytes :: (result[..|result| - GROUP] + (group + v)) == result + v;
      } else {
        if MARKER - marker > GROUP {
          return Err(InvalidEncodedKey);
        }
        var realLen := GROUP - (MARKER - marker);
        var padded := PaddingIsZero(group, realLen);
        assert group[realLen..] == before[realLen..GROUP] && group[..realLen] == before[..realLen];
        return if padded then Ok(result + group[..realLen], left) else Err(InvalidEncodedKey);
      }
    }
  }

  method PaddingIsZero(group: Bytes, realLen: nat) returns (ok: bool)
    requires realLen <= |group|
    ensures ok <==> group[realLen..] == Zeros(|group| - realLen)
  {
    for i := realLen to |group|
      invariant forall j | realLen <= j < i :: group[j] == 0
    {
      if group[i] != 0 {
        assert group[realLen..][i - realLen] != 0;
        return false;
      }
    }
    return true;
  }

  /** DecodeBytesDesc: the same loop, inverting each group as it is read. */
  method DecodeBytesDesc(data: Bytes) returns (r: Decoded)
    ensures r == DecodedDesc(data)
  {
    var result: Bytes, left := [], data;
    while true
      invariant DecodedDesc(data) == match DecodedDesc(left)
          case Err(e) => Err(e)
          case Ok(v, rest) => Ok(result + v, rest)
      decreases |left|
    {
      if |left| < GROUP + 1 {
        return Err(InsufficientData);
      }
      var group := InvertGroup(left[..GROUP]);
      var marker: byte := 255 - left[GROUP];
      ghost var inv := Inverted(left);
      assert inv[..GROUP] == group && inv[GROUP] == marker && inv[GROUP + 1..] == Inverted(left[GROUP + 1..]);
      left := left[GROUP + 1..];
      if marker == MARKER {
        result := result + group;
        assert forall v: Bytes :: (result[..|result| - GROUP] + (group + v)) == result + v;
      } else {
        if MARKER - marker > GROUP {
          return Err(InvalidEncodedKey);
        }
        var realLen := GROUP - (MARKER - marker);
        var padded := PaddingIsZero(group, realLen);
        assert group[realLen..] == inv[realLen..GROUP] && group[..realLen] == inv[..realLen];
        InvertedTwice(left);
        return if padded then Ok(result + group[..realLen], left) else Err(InvalidEncodedKey);
      }
    }
  }

  method InvertGroup(g: Bytes) returns (r: Bytes)
    ensures r == Inverted(g)
  {
    r := [];
    for i := 0 to |g|
      invariant r == Inverted(g[..i])
    {
      r := r + [255 - g[i]];
    }
    assert g[..|g|] == g;
  }
}
