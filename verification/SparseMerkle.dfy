/** The fixed-depth sparse Merkle tree shared by the nullifier registry (256 levels) and by the
    seal set of the return leg (the 128 low levels of the same tree). */
module SparseMerkle {
  import opened Basics

  const ZERO: Digest := [0, 0, 0, 0, 0, 0, 0, 0, 0, 0, 0, 0, 0, 0, 0, 0,
                        0, 0, 0, 0, 0, 0, 0, 0, 0, 0, 0, 0, 0, 0, 0, 0]
  const PRESENT: Digest := [1, 1, 1, 1, 1, 1, 1, 1, 1, 1, 1, 1, 1, 1, 1, 1,
                           1, 1, 1, 1, 1, 1, 1, 1, 1, 1, 1, 1, 1, 1, 1, 1]

  /** Of a bit in a byte. */
  function Weight(n: nat): (p: nat)
    requires n < 8
    ensures p >= 1
  {
    [1, 2, 4, 8, 16, 32, 64, 128][n]
  }

  /** Bit `i` of a key, most significant bit of byte 0 first. */
  function Bit(key: Digest, i: nat): (r: nat)
    requires i < 256
    ensures r < 2
  {
    (key[i / 8] / Weight(7 - i % 8)) % 2
  }

  /** The bits of a key are the binary digits of its big-endian number: bit i stands for 2^(255 - i). */
  lemma BitIsBinary(key: Digest, i: nat)
    requires i < 256
    ensures Bit(key, i) == FromBE(key) / Pow2(255 - i) % 2
  {
    hide FromBE, Pow2, Pow256;
    var j, n := i / 8, 7 - i % 8;
    var low := key[j + 1..];
    assert key == (key[..j] + [key[j]]) + low;
    FromBEAppend(key[..j] + [key[j]], low);
    FromBEAppend(key[..j], [key[j]]);
    FromBEBound(low);
    OneByte(key[j]);
    Pow2OfBytes(|low|, n);
    DigitOf(FromBE(key[..j]), key[j], FromBE(low), Pow256(|low|), n);
  }

  lemma OneByte(k: Byte)
    ensures FromBE([k]) == k && Pow256(1) == 256
  {
    assert FromBE([]) == 0 && [k][..0] == [];
  }

  lemma {:induction false} FromBEBound(b: Bytes)
    ensures FromBE(b) < Pow256(|b|)
  {
    if b != [] {
      FromBEBound(b[..|b| - 1]);
    }
  }

  lemma {:induction false} Pow2OfBytes(m: nat, n: nat)
    requires n < 8
    ensures Pow2(8 * m + n) == Weight(n) * Pow256(m)
    decreases m, n
  {
    hide Weight;
    if n > 0 {
      Pow2OfBytes(m, n - 1);
      WeightDoubles(n);
      assert 2 * (Weight(n - 1) * Pow256(m)) == Weight(n) * Pow256(m);
    } else if m > 0 {
      Pow2OfBytes(m - 1, 7);
      WeightDoubles(1);
      assert 2 * (Weight(7) * Pow256(m - 1)) == Weight(0) * Pow256(m);
    } else {
      WeightDoubles(1);
    }
  }

  lemma WeightDoubles(n: nat)
    requires 0 < n < 8
    ensures Weight(n) == 2 * Weight(n - 1) && Weight(0) == 1 && Weight(7) == 128
  {
  }

  /** The digit of 2^n in the byte `k`, between `high` and `low`. */
  lemma DigitOf(high: nat, k: Byte, low: nat, p: nat, n: nat)
    requires n < 8 && low < p
    ensures ((high * 256 + k) * p + low) / (Weight(n) * p) % 2 == k / Weight(n) % 2
  {
    var u := [128, 64, 32, 16, 8, 4, 2, 1][n];
    assert 2 * u * Weight(n) == 256;
    Digit(high, k / Weight(n), k % Weight(n), low, p, Weight(n), u);
  }

  lemma Digit(high: nat, e: nat, r: nat, low: nat, p: nat, w: nat, u: nat)
    requires r < w && 2 * u * w == 256 && low < p
    ensures ((high * 256 + (e * w + r)) * p + low) / (w * p) % 2 == e % 2
  {
    Regroup(high, u, w, e, r, p, low);
    Remains(r, w, p, low);
    Quotient(2 * (high * u) + e, w * p, r * p + low);
    EvenPart(high * u, e);
  }

  lemma EvenPart(x: nat, e: nat)
    ensures (2 * x + e) % 2 == e % 2
  {
  }

  lemma Regroup(high: nat, u: nat, w: nat, e: nat, r: nat, p: nat, low: nat)
    requires 2 * u * w == 256
    ensures (high * 256 + (e * w + r)) * p + low == (2 * (high * u) + e) * (w * p) + (r * p + low)
  {
    assert high * 256 == 2 * (high * u) * w;
    assert high * 256 + e * w == (2 * (high * u) + e) * w;
  }

  lemma Remains(r: nat, w: nat, p: nat, low: nat)
    requires r < w && low < p
    ensures r * p + low < w * p
  {
    Gap(p, r, w);
  }

  /** The keys of `keys` whose bit `i` is `b`. */
  function Side(keys: set<Digest>, i: nat, b: nat): set<Digest>
    requires i < 256
  {
    set k | k in keys && Bit(k, i) == b
  }

  /** What a tree of height `h` over the low `h` bits commits to: the set of the present keys. */
  function Root(node: Hash, h: nat, keys: set<Digest>): Digest
    requires h <= 256
    decreases h, keys
  {
    if h == 0 then
      (if keys == {} then ZERO else PRESENT)
    else
      node(Root(node, h - 1, Side(keys, 256 - h, 0)) + Root(node, h - 1, Side(keys, 256 - h, 1)))
  }

  /** A path step: `cur` goes right when the bit is 1. */
  function Join(bit: nat, cur: Digest, sibling: Digest): Bytes {
    if bit == 1 then sibling + cur else cur + sibling
  }

  /** `value` at `key` folded up through the first `h` siblings, leaf level first. */
  function FoldTo(node: Hash, value: Digest, key: Digest, sib: seq<Digest>, h: nat): Digest
    requires h <= 256 && h <= |sib|
    decreases h, sib
  {
    if h == 0 then value
    else node(Join(Bit(key, 256 - h), FoldTo(node, value, key, sib, h - 1), sib[h - 1]))
  }

  /** A step of the fold: at height h the path goes right exactly when the digit of 2^(h - 1) in the key's number is
      1. */
  lemma FoldStep(node: Hash, value: Digest, key: Digest, sib: seq<Digest>, h: nat)
    requires 0 < h <= 256 && h <= |sib|
    ensures var cur := FoldTo(node, value, key, sib, h - 1);
            FoldTo(node, value, key, sib, h)
            == if FromBE(key) / Pow2(h - 1) % 2 == 1 then node(sib[h - 1] + cur) else node(cur + sib[h - 1])
  {
    hide Bit, FromBE, Pow2;
    BitIsBinary(key, 256 - h);
  }

  /** The keys whose number has the digit `d` at 2^n. */
  ghost function WithDigit(keys: set<Digest>, n: nat, d: nat): set<Digest> {
    set k | k in keys && FromBE(k) / Pow2(n) % 2 == d
  }

  /** And the root splits the keys by that digit. */
  lemma RootStep(node: Hash, h: nat, keys: set<Digest>)
    requires 0 < h <= 256
    ensures Root(node, h, keys)
            == node(Root(node, h - 1, WithDigit(keys, h - 1, 0)) + Root(node, h - 1, WithDigit(keys, h - 1, 1)))
  {
    SideIsDigit(keys, h - 1, 0);
    SideIsDigit(keys, h - 1, 1);
    hide WithDigit, Side;
  }

  lemma SideIsDigit(keys: set<Digest>, n: nat, d: nat)
    requires n < 256
    ensures Side(keys, 255 - n, d) == WithDigit(keys, n, d)
  {
    hide Bit, FromBE, Pow2;
    forall k | k in keys
      ensures Bit(k, 255 - n) == FromBE(k) / Pow2(n) % 2
    {
      BitIsBinary(k, 255 - n);
    }
  }

  /** The loop of `fold`. */
  method Fold(node: Hash, value: Digest, key: Digest, sib: seq<Digest>) returns (cur: Digest)
    requires |sib| <= 256
    ensures cur == FoldTo(node, value, key, sib, |sib|)
  {
    hide Bit;
    cur := value;
    var d := 0;
    while d < |sib|
      invariant 0 <= d <= |sib|
      invariant cur == FoldTo(node, value, key, sib, d)
    {
      var bi := 255 - d;
      var bit := Bit(key, bi);
      cur := if bit == 1 then node(sib[d] + cur) else node(cur + sib[d]);
      d := d + 1;
    }
  }

  /** Equal on the low `h` bits: two such keys are the same leaf of a tree of height `h`. */
  ghost predicate SameLeaf(a: Digest, b: Digest, h: nat)
    requires h <= 256
  {
    forall i :: 256 - h <= i < 256 ==> Bit(a, i) == Bit(b, i)
  }

  ghost predicate Free(keys: set<Digest>, key: Digest, h: nat)
    requires h <= 256
  {
    forall k :: k in keys ==> !SameLeaf(k, key, h)
  }

  lemma SameLeafStep(a: Digest, b: Digest, h: nat)
    requires 0 < h <= 256
    ensures SameLeaf(a, b, h) <==> Bit(a, 256 - h) == Bit(b, 256 - h) && SameLeaf(a, b, h - 1)
  {
  }

  lemma BytesFromBits(a: Byte, b: Byte)
    requires forall j: nat :: j < 8 ==> (a / Weight(j)) % 2 == (b / Weight(j)) % 2
    ensures a == b
  {
    assert a / Weight(0) == a && b / Weight(0) == b;
    assert (a / Weight(1)) % 2 == (b / Weight(1)) % 2 && (a / Weight(2)) % 2 == (b / Weight(2)) % 2;
    assert (a / Weight(3)) % 2 == (b / Weight(3)) % 2 && (a / Weight(4)) % 2 == (b / Weight(4)) % 2;
    assert (a / Weight(5)) % 2 == (b / Weight(5)) % 2 && (a / Weight(6)) % 2 == (b / Weight(6)) % 2;
    assert (a / Weight(7)) % 2 == (b / Weight(7)) % 2;
    BitSumIsByte(a);
    BitSumIsByte(b);
  }

  ghost function BitSum(a: Byte): int {
    a % 2 + 2 * (a / 2 % 2) + 4 * (a / 4 % 2) + 8 * (a / 8 % 2)
    + 16 * (a / 16 % 2) + 32 * (a / 32 % 2) + 64 * (a / 64 % 2) + 128 * (a / 128 % 2)
  }

  lemma BitSumIsByte(a: Byte)
    ensures BitSum(a) == a
  {
    assert && a / 4 == a / 2 / 2 && a / 8 == a / 4 / 2 && a / 16 == a / 8 / 2 && a / 32 == a / 16 / 2
           && a / 64 == a / 32 / 2 && a / 128 == a / 64 / 2;
    Doubling(a, a / 2, a / 4, a / 8, a / 16, a / 32, a / 64, a / 128);
  }

  lemma Doubling(a: nat, b: nat, c: nat, d: nat, e: nat, f: nat, g: nat, h: nat)
    requires b == a / 2 && c == b / 2 && d == c / 2 && e == d / 2 && f == e / 2 && g == f / 2 && h == g / 2 && h < 2
    ensures a == a % 2 + 2 * (b % 2) + 4 * (c % 2) + 8 * (d % 2)
                 + 16 * (e % 2) + 32 * (f % 2) + 64 * (g % 2) + 128 * (h % 2)
  {
  }

  /** At full height a leaf is one key. */
  lemma SameLeafIsSameKey(a: Digest, b: Digest)
    ensures SameLeaf(a, b, 256) <==> a == b
  {
    if SameLeaf(a, b, 256) {
      forall n | 0 <= n < 32
        ensures a[n] == b[n]
      {
        forall j: nat | j < 8
          ensures (a[n] / Weight(j)) % 2 == (b[n] / Weight(j)) % 2
        {
          var i := 8 * n + (7 - j);
          assert i / 8 == n && 7 - i % 8 == j;
          assert Bit(a, i) == Bit(b, i);
        }
        BytesFromBits(a[n], b[n]);
      }
    }
  }

  /** Adding a key changes only the side it is routed to. */
  lemma SideOfInsert(keys: set<Digest>, key: Digest, i: nat, b: nat)
    requires i < 256
    ensures Side(keys + {key}, i, b) == if Bit(key, i) == b then Side(keys, i, b) + {key} else Side(keys, i, b)
  {
  }

  lemma SideOfEmpty(i: nat, b: nat)
    requires i < 256
    ensures Side({}, i, b) == {}
  {
  }

  /** Every input that a path of height `h` hashes: the node of the tree over `keys` on the way to
      `key`, and the node that the supplied siblings build there. */
  ghost function PathInputs(node: Hash, h: nat, keys: set<Digest>, key: Digest, sib: seq<Digest>): set<Bytes>
    requires h <= 256 && h <= |sib|
    decreases h, sib
  {
    if h == 0 then {} else
      { Root(node, h - 1, Side(keys, 256 - h, 0)) + Root(node, h - 1, Side(keys, 256 - h, 1)),
        Join(Bit(key, 256 - h), FoldTo(node, ZERO, key, sib, h - 1), sib[h - 1]) }
      + PathInputs(node, h - 1, Side(keys, 256 - h, Bit(key, 256 - h)), key, sib)
  }

  lemma PathStep(node: Hash, h: nat, keys: set<Digest>, key: Digest, sib: seq<Digest>, all: set<Bytes>)
    requires 0 < h <= 256 && h <= |sib|
    requires FoldTo(node, ZERO, key, sib, h) == Root(node, h, keys)
    requires PathInputs(node, h, keys, key, sib) <= all && !Collides(node, all)
    ensures var b := Bit(key, 256 - h);
            && FoldTo(node, ZERO, key, sib, h - 1) == Root(node, h - 1, Side(keys, 256 - h, b))
            && sib[h - 1] == Root(node, h - 1, Side(keys, 256 - h, 1 - b))
  {
    hide Bit, Side, PathSiblings;
    var b := Bit(key, 256 - h);
    var left, right := Root(node, h - 1, Side(keys, 256 - h, 0)), Root(node, h - 1, Side(keys, 256 - h, 1));
    var below := FoldTo(node, ZERO, key, sib, h - 1);
    if b == 1 {
      SameParts(node, sib[h - 1], below, left, right, all);
    } else {
      SameParts(node, below, sib[h - 1], left, right, all);
    }
  }

  /** The siblings of the path to `key` in the tree over `keys`, leaf level first. */
  ghost function PathSiblings(node: Hash, h: nat, keys: set<Digest>, key: Digest): (sib: seq<Digest>)
    requires h <= 256
    ensures |sib| == h
    decreases h, keys
  {
    if h == 0 then [] else
      PathSiblings(node, h - 1, Side(keys, 256 - h, Bit(key, 256 - h)), key)
      + [Root(node, h - 1, Side(keys, 256 - h, 1 - Bit(key, 256 - h)))]
  }

  lemma NoCollisionBelow(node: Hash, h: nat, keys: set<Digest>, key: Digest, sib: seq<Digest>)
    requires 0 < h <= 256 && h <= |sib|
    requires !Collides(node, PathInputs(node, h, keys, key, sib))
    ensures !Collides(node, PathInputs(node, h - 1, Side(keys, 256 - h, Bit(key, 256 - h)), key, sib))
  {
    var lower := PathInputs(node, h - 1, Side(keys, 256 - h, Bit(key, 256 - h)), key, sib);
    if Collides(node, lower) {
      CollidesMonotone(node, lower, PathInputs(node, h, keys, key, sib));
    }
  }

  /** Siblings that fold ZERO to the root of `keys` can only be those of the tree itself, */
  lemma {:induction false} SiblingsAreForced(node: Hash, h: nat, keys: set<Digest>, key: Digest, sib: seq<Digest>)
    requires h <= 256 && h <= |sib|
    requires FoldTo(node, ZERO, key, sib, h) == Root(node, h, keys)
    requires !Collides(node, PathInputs(node, h, keys, key, sib))
    ensures sib[..h] == PathSiblings(node, h, keys, key)
  {
    hide Bit, Side, FoldTo, Root, PathInputs, Collides;
    if h > 0 {
      var same := Side(keys, 256 - h, Bit(key, 256 - h));
      assert PathSiblings(node, h, keys, key) == PathSiblings(node, h - 1, same, key) + [sib[h - 1]] by {
        PathStep(node, h, keys, key, sib, PathInputs(node, h, keys, key, sib));
      }
      assert sib[..h - 1] == PathSiblings(node, h - 1, same, key) by {
        PathStep(node, h, keys, key, sib, PathInputs(node, h, keys, key, sib));
        NoCollisionBelow(node, h, keys, key, sib);
        SiblingsAreForced(node, h - 1, same, key, sib);
      }
      assert sib[..h] == sib[..h - 1] + [sib[h - 1]];
    }
  }

  /** and the leaf is then really empty. */
  lemma {:induction false} AbsenceIsSound(node: Hash, h: nat, keys: set<Digest>, key: Digest, sib: seq<Digest>)
    requires h <= 256 && h <= |sib|
    requires FoldTo(node, ZERO, key, sib, h) == Root(node, h, keys)
    requires !Collides(node, PathInputs(node, h, keys, key, sib))
    ensures Free(keys, key, h)
  {
    hide Bit, SameLeaf, FoldTo, PathInputs, Collides;
    if h == 0 {
      EmptyLeaf(node, keys, key, sib);
    } else {
      PathStep(node, h, keys, key, sib, PathInputs(node, h, keys, key, sib));
      NoCollisionBelow(node, h, keys, key, sib);
      AbsenceIsSound(node, h - 1, Side(keys, 256 - h, Bit(key, 256 - h)), key, sib);
      forall k | k in keys
        ensures !SameLeaf(k, key, h)
      {
        SameLeafStep(k, key, h);
      }
    }
  }

  lemma EmptyLeaf(node: Hash, keys: set<Digest>, key: Digest, sib: seq<Digest>)
    requires FoldTo(node, ZERO, key, sib, 0) == Root(node, 0, keys)
    ensures keys == {}
  {
    assert ZERO[0] != PRESENT[0];
  }

  lemma {:induction false} FoldPrefix(node: Hash, value: Digest, key: Digest, sib: seq<Digest>, more: seq<Digest>,
                                      h: nat)
    requires h <= 256 && h <= |sib|
    ensures FoldTo(node, value, key, sib + more, h) == FoldTo(node, value, key, sib, h)
  {
    hide Bit;
    if h > 0 {
      FoldPrefix(node, value, key, sib, more, h - 1);
    }
  }

  lemma {:induction false} PathSiblingsInsert(node: Hash, h: nat, keys: set<Digest>, key: Digest)
    requires h <= 256
    ensures FoldTo(node, PRESENT, key, PathSiblings(node, h, keys, key), h) == Root(node, h, keys + {key})
  {
    hide Bit, Side;
    if h > 0 {
      var i := 256 - h;
      var same, other := Side(keys, i, Bit(key, i)), Side(keys, i, 1 - Bit(key, i));
      PathSiblingsInsert(node, h - 1, same, key);
      FoldPrefix(node, PRESENT, key, PathSiblings(node, h - 1, same, key), [Root(node, h - 1, other)], h - 1);
      SideOfInsert(keys, key, i, 0);
      SideOfInsert(keys, key, i, 1);
    }
  }

  lemma FreeBelow(keys: set<Digest>, key: Digest, h: nat)
    requires 0 < h <= 256 && Free(keys, key, h)
    ensures Free(Side(keys, 256 - h, Bit(key, 256 - h)), key, h - 1)
  {
    var below := Side(keys, 256 - h, Bit(key, 256 - h));
    forall k | k in below
      ensures !SameLeaf(k, key, h - 1)
    {
      SameLeafStep(k, key, h);
    }
  }

  lemma FreeLeaf(keys: set<Digest>, key: Digest)
    requires Free(keys, key, 0)
    ensures keys == {}
  {
    forall k: Digest
      ensures k !in keys
    {
      assert SameLeaf(k, key, 0);
    }
  }

  lemma {:induction false} PathSiblingsAbsent(node: Hash, h: nat, keys: set<Digest>, key: Digest)
    requires h <= 256 && Free(keys, key, h)
    ensures FoldTo(node, ZERO, key, PathSiblings(node, h, keys, key), h) == Root(node, h, keys)
  {
    hide Bit, Side, Free, SameLeaf;
    if h > 0 {
      var i := 256 - h;
      var same, other := Side(keys, i, Bit(key, i)), Side(keys, i, 1 - Bit(key, i));
      FreeBelow(keys, key, h);
      PathSiblingsAbsent(node, h - 1, same, key);
      FoldPrefix(node, ZERO, key, PathSiblings(node, h - 1, same, key), [Root(node, h - 1, other)], h - 1);
    } else {
      FreeLeaf(keys, key);
    }
  }

  /** The two checks of an insertion against `oldRoot` and `newRoot`. */
  predicate Inserts(node: Hash, key: Digest, sib: seq<Digest>, oldRoot: Digest, newRoot: Digest)
    requires |sib| <= 256
  {
    FoldTo(node, ZERO, key, sib, |sib|) == oldRoot && FoldTo(node, PRESENT, key, sib, |sib|) == newRoot
  }

  /** An insertion into the tree of `keys` can be proved exactly when the leaf is free and the new
      root is the one with `key` added; `sib` is the attempt whose hashing might hold a collision. */
  lemma InsertionExact(node: Hash, h: nat, keys: set<Digest>, key: Digest, sib: seq<Digest>, newRoot: Digest)
    requires h <= 256 && |sib| == h
    ensures Inserts(node, key, sib, Root(node, h, keys), newRoot)
            ==> || (Free(keys, key, h) && newRoot == Root(node, h, keys + {key}))
                || Collides(node, PathInputs(node, h, keys, key, sib))
    ensures Free(keys, key, h) && newRoot == Root(node, h, keys + {key})
            ==> Inserts(node, key, PathSiblings(node, h, keys, key), Root(node, h, keys), newRoot)
  {
    if Inserts(node, key, sib, Root(node, h, keys), newRoot) && !Collides(node, PathInputs(node, h, keys, key, sib)) {
      AbsenceIsSound(node, h, keys, key, sib);
      SiblingsAreForced(node, h, keys, key, sib);
      assert sib[..h] == sib;
      PathSiblingsInsert(node, h, keys, key);
    }
    if Free(keys, key, h) {
      PathSiblingsInsert(node, h, keys, key);
      PathSiblingsAbsent(node, h, keys, key);
    }
  }
}
