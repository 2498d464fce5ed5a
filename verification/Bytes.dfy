/** Byte strings, their lexicographic order, and big-endian integers. */
module Bytes {
  type byte = x: int | 0 <= x < 256
  type Bytes = seq<byte>
  type uint64 = x: int | 0 <= x < 0x1_0000_0000_0000_0000

  datatype Option<+T> = None | Some(value: T)

  const MAX_UINT64: uint64 := 0xFFFF_FFFF_FFFF_FFFF

  /** `a` sorts strictly before `b` under bytes.Compare. */
  predicate Lt(a: Bytes, b: Bytes) {
    b != [] && (a == [] || a[0] < b[0] || (a[0] == b[0] && Lt(a[1..], b[1..])))
  }

  predicate Le(a: Bytes, b: Bytes) {
    !Lt(b, a)
  }

  lemma LtIrreflexive(a: Bytes)
    ensures !Lt(a, a)
  {
  }

  lemma {:induction false} LtTransitive(a: Bytes, b: Bytes, c: Bytes)
    requires Lt(a, b) && Lt(b, c)
    ensures Lt(a, c)
  {
    if a != [] && a[0] == b[0] == c[0] {
      LtTransitive(a[1..], b[1..], c[1..]);
    }
  }

  /** Exactly one of `a < b`, `a == b`, `b < a` holds. */
  lemma {:induction false} LtTrichotomy(a: Bytes, b: Bytes)
    ensures a == b || Lt(a, b) || Lt(b, a)
    ensures !(Lt(a, b) && Lt(b, a)) && (a == b ==> !Lt(a, b))
  {
    if a != [] && b != [] && a[0] == b[0] {
      LtTrichotomy(a[1..], b[1..]);
      assert a == [a[0]] + a[1..] && b == [b[0]] + b[1..];
    }
  }

  lemma LtAsymmetric(a: Bytes, b: Bytes)
    requires Lt(a, b)
    ensures Le(a, b)
  {
    LtIrreflexive(a);
    if Lt(b, a) {
      LtTransitive(a, b, a);
    }
  }

  lemma LeLtTransitive(a: Bytes, b: Bytes, c: Bytes)
    requires Le(a, b) && Lt(b, c)
    ensures Lt(a, c)
  {
    LtTrichotomy(a, b);
    if a != b {
      LtTransitive(a, b, c);
    }
  }

  lemma LtLeTransitive(a: Bytes, b: Bytes, c: Bytes)
    requires Lt(a, b) && Le(b, c)
    ensures Lt(a, c)
  {
    LtTrichotomy(b, c);
    if b != c {
      LtTransitive(a, b, c);
    }
  }

  lemma LeTransitive(a: Bytes, b: Bytes, c: Bytes)
    requires Le(a, b) && Le(b, c)
    ensures Le(a, c)
  {
    if Lt(c, a) {
      LeLtTransitive(b, c, a);
    }
  }

  /** Strings that begin with parts of equal length are ordered by those parts first. */
  lemma {:induction false} LtConcat(a: Bytes, b: Bytes, x: Bytes, y: Bytes)
    requires |a| == |b|
    ensures Lt(a + x, b + y) <==> Lt(a, b) || (a == b && Lt(x, y))
  {
    if a == [] {
      assert a + x == x && b + y == y;
    } else {
      assert (a + x)[1..] == a[1..] + x && (b + y)[1..] == b[1..] + y;
      LtConcat(a[1..], b[1..], x, y);
      assert a == [a[0]] + a[1..] && b == [b[0]] + b[1..];
    }
  }

  lemma LtCommonPrefix(p: Bytes, x: Bytes, y: Bytes)
    ensures Lt(p + x, p + y) <==> Lt(x, y)
  {
    LtConcat(p, p, x, y);
    LtIrreflexive(p);
  }

  /** Splitting both strings after at most `n` bytes. */
  lemma LtSplit(a: Bytes, b: Bytes, n: nat)
    ensures var p, q := Take(a, n), Take(b, n);
            Lt(a, b) <==> Lt(p, q) || (p == q && Lt(a[|p|..], b[|q|..]))
  {
    var p, q := Take(a, n), Take(b, n);
    if |p| == |q| {
      assert a == p + a[|p|..] && b == q + b[|q|..];
      LtConcat(p, q, a[|p|..], b[|q|..]);
    } else {
      LtDecidedEarly(a, b, n);
    }
  }

  lemma {:induction false} LtDecidedEarly(a: Bytes, b: Bytes, n: nat)
    requires |Take(a, n)| != |Take(b, n)|
    ensures Lt(a, b) <==> Lt(Take(a, n), Take(b, n))
  {
    if a != [] && b != [] {
      LtDecidedEarly(a[1..], b[1..], n - 1);
      assert Take(a, n)[1..] == Take(a[1..], n - 1) && Take(b, n)[1..] == Take(b[1..], n - 1);
    }
  }

  /** The first `n` bytes, or all of a shorter string. */
  function Take(a: Bytes, n: nat): (p: Bytes)
    ensures |p| == if |a| < n then |a| else n
    ensures p <= a
  {
    if |a| < n then a else a[..n]
  }

  // ----- Big-endian integers -----

  function Pow256(w: nat): (r: nat)
    ensures r > 0
  {
    if w == 0 then 1 else 256 * Pow256(w - 1)
  }

  /** The low `w` bytes of `n`, most significant first. */
  function BE(n: nat, w: nat): (b: Bytes)
    ensures |b| == w
  {
    if w == 0 then [] else BE(n / 256, w - 1) + [n % 256]
  }

  function FromBE(b: Bytes): (n: nat) {
    if b == [] then 0 else 256 * FromBE(b[..|b| - 1]) + b[|b| - 1]
  }

  lemma {:induction false} FromBEBound(b: Bytes)
    ensures FromBE(b) < Pow256(|b|)
  {
    if b != [] {
      FromBEBound(b[..|b| - 1]);
    }
  }

  lemma {:induction false} BERoundTrip(n: nat, w: nat)
    requires n < Pow256(w)
    ensures FromBE(BE(n, w)) == n
  {
    if w > 0 {
      BERoundTrip(n / 256, w - 1);
      assert BE(n, w)[..w - 1] == BE(n / 256, w - 1);
    }
  }

  lemma {:induction false} FromBERoundTrip(b: Bytes)
    ensures BE(FromBE(b), |b|) == b
  {
    if b != [] {
      FromBERoundTrip(b[..|b| - 1]);
      assert FromBE(b) / 256 == FromBE(b[..|b| - 1]) && FromBE(b) % 256 == b[|b| - 1];
    }
  }

  /** Big-endian encoding of integers that fit preserves and reflects the order. */
  lemma {:induction false} BEOrder(n: nat, m: nat, w: nat)
    requires n < Pow256(w) && m < Pow256(w)
    ensures Lt(BE(n, w), BE(m, w)) <==> n < m
    ensures BE(n, w) == BE(m, w) <==> n == m
  {
    BERoundTrip(n, w);
    BERoundTrip(m, w);
    if w > 0 {
      BEOrder(n / 256, m / 256, w - 1);
      LtConcat(BE(n / 256, w - 1), BE(m / 256, w - 1), [n % 256], [m % 256]);
      assert Lt([n % 256], [m % 256]) <==> n % 256 < m % 256;
    }
  }

  lemma Pow256Of8()
    ensures Pow256(8) == 0x1_0000_0000_0000_0000 && Pow256(4) == 0x1_0000_0000 && Pow256(2) == 0x1_0000
  {
    assert Pow256(2) == 0x1_0000;
    assert Pow256(4) == 256 * (256 * Pow256(2));
    assert Pow256(6) == 256 * (256 * Pow256(4));
    assert Pow256(8) == 256 * (256 * Pow256(6));
  }

  // ----- Finite sets -----

  lemma SubsetCount<T>(a: set<T>, b: set<T>)
    requires a <= b
    ensures |a| <= |b|
  {
    assert b == a + (b - a);
  }
}
