/** The off-chain builders of insertion witnesses. The registry's builder and the two builders of
    the seal set are one algorithm at heights 256 and 128: level L of a tree of height H is the
    subtree of height H - L, split on bit 256 - height. */
module WitnessBuilder {
  import opened Basics
  import opened SparseMerkle
  import opened NullifierRegistry

  /** The keys of a list whose bit `i` is `b`, in order. */
  function Filter(keys: seq<Digest>, i: nat, b: nat): (r: seq<Digest>)
    requires i < 256
    ensures |r| <= |keys|
    ensures Elements(r) == Side(Elements(keys), i, b)
  {
    if keys == [] then []
    else
      assert Elements(keys) == {keys[0]} + Elements(keys[1..]);
      if Bit(keys[0], i) == b then
        var r := [keys[0]] + Filter(keys[1..], i, b);
        assert Elements(r) == {keys[0]} + Elements(Filter(keys[1..], i, b));
        r
      else Filter(keys[1..], i, b)
  }

  /** `subtree(h, keys)`, and `merkle_root(keys, H - h)`: the empty shortcut first. */
  function Subtree(node: Hash, h: nat, keys: seq<Digest>): Digest
    requires h <= 256
    decreases h, keys
  {
    if keys == [] then EmptyLevel(node, h)
    else if h == 0 then PRESENT
    else node(Subtree(node, h - 1, Filter(keys, 256 - h, 0)) + Subtree(node, h - 1, Filter(keys, 256 - h, 1)))
  }

  /** The shortcut does not change the root, and neither do order and repetition in the list. */
  lemma {:induction false} SubtreeIsRoot(node: Hash, h: nat, keys: seq<Digest>)
    requires h <= 256
    ensures Subtree(node, h, keys) == Root(node, h, Elements(keys))
  {
    hide Bit, Side, EmptyLevel, Filter;
    if keys == [] {
      assert Elements(keys) == {};
      EmptyLevelIsEmptyRoot(node, h, Elements(keys));
    } else if h == 0 {
      assert keys[0] in Elements(keys);
    } else {
      hide Elements;
      SubtreeIsRoot(node, h - 1, Filter(keys, 256 - h, 0));
      SubtreeIsRoot(node, h - 1, Filter(keys, 256 - h, 1));
    }
  }

  method Partition(cur: seq<Digest>, key: Digest, i: nat) returns (same: seq<Digest>, other: seq<Digest>)
    requires i < 256
    ensures Elements(same) == Side(Elements(cur), i, Bit(key, i))
    ensures Elements(other) == Side(Elements(cur), i, 1 - Bit(key, i))
  {
    same, other := [], [];
    var n := 0;
    while n < |cur|
      invariant 0 <= n <= |cur|
      invariant Elements(same) == Side(Elements(cur[..n]), i, Bit(key, i))
      invariant Elements(other) == Side(Elements(cur[..n]), i, 1 - Bit(key, i))
    {
      assert Elements(cur[..n + 1]) == Elements(cur[..n]) + {cur[n]};
      if Bit(cur[n], i) == Bit(key, i) {
        assert Elements(same + [cur[n]]) == Elements(same) + {cur[n]};
        same := same + [cur[n]];
      } else {
        assert Elements(other + [cur[n]]) == Elements(other) + {cur[n]};
        other := other + [cur[n]];
      }
      n := n + 1;
    }
    assert cur[..|cur|] == cur;
  }

  lemma PathSiblingsTop(node: Hash, h: nat, keys: set<Digest>, key: Digest)
    requires 0 < h <= 256
    ensures PathSiblings(node, h, keys, key)
            == PathSiblings(node, h - 1, Side(keys, 256 - h, Bit(key, 256 - h)), key)
               + [Root(node, h - 1, Side(keys, 256 - h, 1 - Bit(key, 256 - h)))]
  {
  }

  /** `siblings` (height 256) and `smt_siblings` (height 128): from the root down, each sibling is the
      subtree of the keys that part from `key` there. */
  method Siblings(node: Hash, height: nat, present: seq<Digest>, key: Digest) returns (sib: seq<Digest>)
    requires height <= 256
    ensures sib == PathSiblings(node, height, Elements(present), key)
  {
    hide Bit, Side, Root, PathSiblings, Subtree;
    var a := new Digest[height](_ => ZERO);
    var cur, h := present, height;
    while h > 0
      invariant 0 <= h <= height
      invariant PathSiblings(node, h, Elements(cur), key) + a[h..] == PathSiblings(node, height, Elements(present), key)
    {
      var same, other := Partition(cur, key, 256 - h);
      PathSiblingsTop(node, h, Elements(cur), key);
      SubtreeIsRoot(node, h - 1, other);
      a[h - 1] := Subtree(node, h - 1, other);
      assert a[h - 1..] == [a[h - 1]] + a[h..];
      cur, h := same, h - 1;
    }
    sib := a[..];
    assert sib == a[0..];
  }

  /** The witness bytes: the key and then the siblings. */
  function WitnessBytes(key: Digest, sib: seq<Digest>): Bytes {
    key + Concat(sib)
  }

  lemma {:induction false} ConcatAt(parts: seq<Digest>, i: nat)
    requires i < |parts|
    ensures |Concat(parts)| == 32 * |parts|
    ensures Concat(parts)[32 * i..32 * i + 32] == parts[i]
  {
    if |parts| > 1 {
      ConcatAt(parts[1..], if i == 0 then 0 else i - 1);
    }
    if i > 0 {
      assert Concat(parts)[32 * i..32 * i + 32] == Concat(parts[1..])[32 * (i - 1)..32 * (i - 1) + 32];
    }
  }

  lemma WitnessBytesParse(key: Digest, sib: seq<Digest>)
    requires |sib| == 256
    ensures |WitnessBytes(key, sib)| == WITNESS_LEN
    ensures WitnessKey(WitnessBytes(key, sib)) == key
    ensures WitnessSiblings(WitnessBytes(key, sib), 256) == sib
  {
    var raw := WitnessBytes(key, sib);
    ConcatAt(sib, 0);
    forall i | 0 <= i < 256
      ensures WitnessSibling(raw, i) == sib[i]
    {
      ConcatAt(sib, i);
    }
  }

  /** `main` of the registry builder: None is a refused key or a failed self-check. So the self-checks never fail. */
  method BuildInsertion(node: Hash, keys: seq<Digest>, key: Digest)
    returns (r: Option<(Bytes, Digest, Digest)>)
    ensures r == None <==> key in keys
    ensures r.Some? ==>
              && r.value.0 == WitnessBytes(key, PathSiblings(node, 256, Elements(keys), key))
              && r.value.1 == Root(node, 256, Elements(keys))
              && r.value.2 == Root(node, 256, Elements(keys) + {key})
  {
    hide Subtree, Root, PathSiblings, FoldTo, WitnessBytes;
    if key in keys { return None; }
    var oldRoot := Subtree(node, 256, keys);
    var sib := Siblings(node, 256, keys, key);
    ghost var present := Elements(keys);
    NewKeyIsFree(keys, key);
    SubtreeIsRoot(node, 256, keys);
    PathSiblingsAbsent(node, 256, present, key);
    var before := Fold(node, ZERO, key, sib);
    if before != oldRoot { return None; }
    var newRoot := Fold(node, PRESENT, key, sib);
    PathSiblingsInsert(node, 256, present, key);
    SubtreeIsRoot(node, 256, keys + [key]);
    assert Elements(keys + [key]) == present + {key};
    if Subtree(node, 256, keys + [key]) != newRoot { return None; }
    return Some((WitnessBytes(key, sib), oldRoot, newRoot));
  }

  lemma NewKeyIsFree(keys: seq<Digest>, key: Digest)
    requires key !in keys
    ensures Free(Elements(keys), key, 256)
  {
    forall k | k in Elements(keys)
      ensures !SameLeaf(k, key, 256)
    {
      SameLeafIsSameKey(k, key);
    }
  }

  /** An honest witness is always accepted: for every list of present keys and every absent key, the
      script's update branch returns 0 on the bytes that the builder emits. */
  lemma HonestWitnessAccepted(smt: Hash, ckb: Hash, typeId: Digest, keys: seq<Digest>, key: Digest,
                              first: Option<Bytes>)
    requires key !in keys
    ensures Verdict(smt, ckb, GroupView(typeId,
                                        [Root(smt, 256, Elements(keys))],
                                        [Root(smt, 256, Elements(keys) + {key})],
                                        first,
                                        Some(Some(WitnessBytes(key, PathSiblings(smt, 256, Elements(keys), key))))))
                                            == 0
  {
    hide Root, PathSiblings, FoldTo;
    NewKeyIsFree(keys, key);
    PathSiblingsAbsent(smt, 256, Elements(keys), key);
    PathSiblingsInsert(smt, 256, Elements(keys), key);
    WitnessBytesParse(key, PathSiblings(smt, 256, Elements(keys), key));
  }

  // ---- the seal set: the low 128 bits ----

  /** Siblings of the shortcut used before any seal was inserted: the empty levels, leaf first. */
  method EmptySiblings(node: Hash, depth: nat) returns (out: seq<Digest>)
    requires depth <= 256
    ensures |out| == depth && forall d :: 0 <= d < depth ==> out[d] == EmptyLevel(node, d)
  {
    var e: Digest := ZERO;
    out := [];
    while |out| < depth
      invariant |out| <= depth && e == EmptyLevel(node, |out|)
      invariant forall d :: 0 <= d < |out| ==> out[d] == EmptyLevel(node, d)
    {
      out := out + [e];
      e := node(e + e);
    }
  }

  /** With no seal present the shortcut is the real path of every key. */
  lemma {:induction false} EmptyShortcutIsPath(node: Hash, h: nat, none: set<Digest>, key: Digest, out: seq<Digest>)
    requires h <= 256 && h <= |out| && none == {}
    requires forall d :: 0 <= d < h ==> out[d] == EmptyLevel(node, d)
    ensures out[..h] == PathSiblings(node, h, none, key)
  {
    hide Bit, Side, EmptyLevel, Root, PathSiblings;
    if h == 0 {
      assert PathSiblings(node, h, none, key) == [];
    } else {
      var bit := Bit(key, 256 - h);
      SideOfEmpty(256 - h, bit);
      SideOfEmpty(256 - h, 1 - bit);
      EmptyShortcutIsPath(node, h - 1, none, key, out);
      EmptyLevelIsEmptyRoot(node, h - 1, none);
      PathSiblingsTop(node, h, none, key);
      assert out[..h] == out[..h - 1] + [out[h - 1]];
    }
  }

  /** The release builder's two folds give the tree's roots before and after; the first one exactly
      when no present seal has the same low 128 bits. */
  lemma SealPathExact(node: Hash, present: seq<Digest>, key: Digest)
    ensures var sib := PathSiblings(node, 128, Elements(present), key);
            && FoldTo(node, PRESENT, key, sib, 128) == Root(node, 128, Elements(present) + {key})
            && (Free(Elements(present), key, 128)
                ==> FoldTo(node, ZERO, key, sib, 128) == Subtree(node, 128, present))
            && (FoldTo(node, ZERO, key, sib, 128) == Subtree(node, 128, present)
                ==> Free(Elements(present), key, 128)
                    || Collides(node, PathInputs(node, 128, Elements(present), key, sib)))
  {
    hide Root, PathSiblings, FoldTo, PathInputs;
    var keys := Elements(present);
    var sib := PathSiblings(node, 128, keys, key);
    SubtreeIsRoot(node, 128, present);
    PathSiblingsInsert(node, 128, keys, key);
    if Free(keys, key, 128) {
      PathSiblingsAbsent(node, 128, keys, key);
    } else if FoldTo(node, ZERO, key, sib, 128) == Root(node, 128, keys)
        && !Collides(node, PathInputs(node, 128, keys, key, sib)) {
      AbsenceIsSound(node, 128, keys, key, sib);
    }
  }

  /** The first insertion: the shortcut's roots are those of the empty tree and of the one key. */
  method FirstSeal(node: Hash, key: Digest) returns (emptyRoot: Digest, newRoot: Digest)
    ensures emptyRoot == EmptyLevel(node, 128)
    ensures newRoot == Root(node, 128, {key})
  {
    hide Root, PathSiblings, FoldTo, EmptyLevel;
    ghost var none: set<Digest> := {};
    var sib := EmptySiblings(node, 128);
    newRoot := Fold(node, PRESENT, key, sib);
    emptyRoot := Fold(node, ZERO, key, sib);
    EmptyShortcutIsPath(node, 128, none, key, sib);
    assert sib[..128] == sib;
    PathSiblingsInsert(node, 128, none, key);
    PathSiblingsAbsent(node, 128, none, key);
    EmptyLevelIsEmptyRoot(node, 128, none);
    assert none + {key} == {key};
    assert Free(none, key, 128);
  }
}
