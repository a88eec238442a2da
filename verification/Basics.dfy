/** Bytes, digests, fixed-width integers and the way collisions are stated. */
module Basics {
  type Byte = i: int | 0 <= i < 256
  type Bytes = seq<Byte>

  /** The output of a 32-byte hash. */
  type Digest = b: Bytes | |b| == 32 witness seq(32, _ => 0)

  /** A hash function is a parameter of every statement: nothing is known about it. */
  type Hash = Bytes -> Digest

  datatype Option<+T> = None | Some(value: T) {
    predicate IsFailure() { None? }
    function PropagateFailure<U>(): Option<U> requires None? { None }
    function Extract(): T requires Some? { value }
  }

  /** Two different members of `s` have the same hash. `s` is always the explicit, finite set of
      the inputs that the statement at hand hashes, so this is a collision found in that run and
      not the mere existence of one. */
  ghost predicate Collides(h: Hash, s: set<Bytes>) {
    exists x, y :: x in s && y in s && x != y && h(x) == h(y)
  }

  /** No element occurs twice. */
  ghost predicate Distinct<T>(s: seq<T>) {
    forall i, j :: 0 <= i < j < |s| ==> s[i] != s[j]
  }

  function Cat(a: Bytes, b: Bytes): Bytes {
    a + b
  }

  lemma CollidesMonotone(h: Hash, small: set<Bytes>, large: set<Bytes>)
    requires small <= large && Collides(h, small)
    ensures Collides(h, large)
  {
    var x, y :| x in small && y in small && x != y && h(x) == h(y);
    assert x in large && y in large;
  }

  /** Equal hashes of two concatenations, split at the same place, have equal parts. */
  lemma SameParts(h: Hash, a: Bytes, b: Bytes, c: Bytes, d: Bytes, all: set<Bytes>)
    requires |a| == |c| && a + b in all && c + d in all
    requires h(a + b) == h(c + d) && !Collides(h, all)
    ensures a == c && b == d
  {
    assert a + b == c + d;
    assert a == (a + b)[..|a|] && c == (c + d)[..|a|];
    assert b == (a + b)[|a|..] && d == (c + d)[|a|..];
  }

  const U32: int := 0x1_0000_0000
  const U64: int := 0x1_0000_0000_0000_0000
  const U128: int := 0x1_0000_0000_0000_0000_0000_0000_0000_0000

  function Pow2(n: nat): (p: nat)
    ensures p >= 1
  {
    if n == 0 then 1 else 2 * Pow2(n - 1)
  }

  function Pow256(k: nat): (p: nat)
    ensures p >= 1
  {
    if k == 0 then 1 else 256 * Pow256(k - 1)
  }

  /** The k low bytes of n, least significant first: `n as uK` then `to_le_bytes`. */
  function LE(n: nat, k: nat): (b: Bytes)
    ensures |b| == k
  {
    if k == 0 then [] else [n % 256] + LE(n / 256, k - 1)
  }

  function FromLE(b: Bytes): (n: nat)
    ensures n < Pow256(|b|)
  {
    if b == [] then 0 else b[0] + 256 * FromLE(b[1..])
  }

  lemma {:induction false} FromLEOfLE(n: nat, k: nat)
    requires n < Pow256(k)
    ensures FromLE(LE(n, k)) == n
  {
    if k > 0 {
      FromLEOfLE(n / 256, k - 1);
      assert LE(n, k)[1..] == LE(n / 256, k - 1);
    }
  }

  lemma {:induction false} LEOfFromLE(b: Bytes)
    ensures LE(FromLE(b), |b|) == b
  {
    if b != [] {
      LEOfFromLE(b[1..]);
      var rest := FromLE(b[1..]);
      assert (b[0] + 256 * rest) / 256 == rest && (b[0] + 256 * rest) % 256 == b[0];
    }
  }

  /** The k low bytes of n, most significant first. */
  function BE(n: nat, k: nat): (b: Bytes)
    ensures |b| == k
  {
    if k == 0 then [] else BE(n / 256, k - 1) + [n % 256]
  }

  function FromBE(b: Bytes): (n: nat)
    ensures n < Pow256(|b|)
  {
    if b == [] then 0 else 256 * FromBE(b[..|b| - 1]) + b[|b| - 1]
  }

  lemma {:induction false} FromBEOfBE(n: nat, k: nat)
    requires n < Pow256(k)
    ensures FromBE(BE(n, k)) == n
  {
    if k > 0 {
      FromBEOfBE(n / 256, k - 1);
      assert BE(n, k)[..k - 1] == BE(n / 256, k - 1);
    }
  }

  lemma {:induction false} BEOfFromBE(b: Bytes)
    ensures BE(FromBE(b), |b|) == b
  {
    if b != [] {
      var init, last := b[..|b| - 1], b[|b| - 1];
      BEOfFromBE(init);
      var n := FromBE(init);
      assert (256 * n + last) / 256 == n && (256 * n + last) % 256 == last;
      assert b == init + [last];
    }
  }

  // ---- division ----

  lemma Gap(p: nat, x: int, y: int)
    requires x < y
    ensures x * p + p <= y * p
  {
    var k := y - x - 1;
    assert y * p == x * p + p + k * p;
    assert k * p >= 0;
  }

  lemma Quotient(x: nat, p: nat, r: nat)
    requires r < p
    ensures (x * p + r) / p == x && (x * p + r) % p == r
  {
    var n := x * p + r;
    var q, m := n / p, n % p;
    assert n == q * p + m;
    if q > x { Gap(p, x, q); }
    if q < x { Gap(p, q, x); }
  }

  function Concat(parts: seq<Bytes>): Bytes {
    if parts == [] then [] else parts[0] + Concat(parts[1..])
  }

  /** Membership of every element, as a set. */
  function Elements<T>(s: seq<T>): set<T> {
    set x | x in s
  }

  lemma Common<T>(a: set<T>, b: set<T>) returns (x: T)
    requires !(a !! b)
    ensures x in a && x in b
  {
    x :| x in b && x in a;
  }

  /** `s` stands in `b` at position `i`. */
  predicate At(b: Bytes, i: nat, s: Bytes): (r: bool)
    ensures r ==> i + |s| <= |b|
  {
    i + |s| <= |b| && b[i..i + |s|] == s
  }

  /** A slice is its first byte and the rest. */
  lemma SliceCons(b: Bytes, i: nat, n: nat)
    requires i + 1 + n <= |b|
    ensures b[i..i + 1 + n] == [b[i]] + b[i + 1..i + 1 + n]
  {
    var s, t := b[i..i + 1 + n], [b[i]] + b[i + 1..i + 1 + n];
    forall k | 0 <= k < 1 + n
      ensures s[k] == t[k]
    {
      assert s[k] == b[i + k];
    }
  }

  lemma AtSlice(b: Bytes, i: nat, s: Bytes)
    requires i + |s| <= |b| && b[i..i + |s|] == s
    ensures At(b, i, s)
  {
  }

  lemma AtSplit(b: Bytes, i: nat, s: Bytes, t: Bytes)
    ensures At(b, i, s + t) <==> At(b, i, s) && At(b, i + |s|, t)
  {
    if At(b, i, s + t) {
      assert b[i..i + |s|] == (s + t)[..|s|] == s;
      assert b[i + |s|..i + |s| + |t|] == (s + t)[|s|..] == t;
    }
    if At(b, i, s) && At(b, i + |s|, t) {
      assert b[i..i + |s + t|] == b[i..i + |s|] + b[i + |s|..i + |s| + |t|];
    }
  }

  lemma FourParts(b: Bytes, s: Bytes, t: Bytes, u: Bytes, v: Bytes, rest: Bytes)
    requires At(b, 0, s + (t + (u + (v + rest))))
    ensures At(b, 0, s) && At(b, |s|, t) && At(b, |s| + |t|, u) && At(b, |s| + |t| + |u|, v)
    ensures At(b, |s| + |t| + |u| + |v|, rest)
  {
    hide At;
    AtSplit(b, 0, s, t + (u + (v + rest)));
    AtSplit(b, |s|, t, u + (v + rest));
    AtSplit(b, |s| + |t|, u, v + rest);
    AtSplit(b, |s| + |t| + |u|, v, rest);
  }

  lemma AtWhole(s: Bytes)
    ensures At(s, 0, s)
  {
    assert s[0..|s|] == s;
  }

  lemma AtPrefix(s: Bytes, rest: Bytes)
    ensures At(s + rest, 0, s)
  {
    assert (s + rest)[0..|s|] == s;
  }

  lemma {:induction false} FromBEAppend(a: Bytes, b: Bytes)
    ensures FromBE(a + b) == FromBE(a) * Pow256(|b|) + FromBE(b)
  {
    if b == [] {
      assert a + b == a;
    } else {
      var init, last := b[..|b| - 1], b[|b| - 1];
      FromBEAppend(a, init);
      assert (a + b)[..|a + b| - 1] == a + init;
      Distribute(FromBE(a), Pow256(|init|), FromBE(init), last);
    }
  }

  lemma Distribute(a: nat, p: nat, i: nat, last: nat)
    ensures 256 * (a * p + i) + last == a * (256 * p) + (256 * i + last)
  {
  }
}
