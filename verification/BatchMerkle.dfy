/** The batch Merkle proof of the signers: a heap-shaped tree, recomputed level by level. */
module BatchMerkle {
  import opened Basics

  /** The number of leaves rounded up to a power of two. */
  function NextPow2From(p: nat, n: nat): (r: nat)
    requires p >= 1
    ensures r >= n && r >= 1
    decreases n - p
  {
    if p < n then NextPow2From(2 * p, n) else p
  }

  function NextPow2(n: nat): (r: nat)
    ensures r >= n && r >= 1
  {
    NextPow2From(1, n)
  }

  /** The smallest power of two not below n. */
  method ComputeNextPow2(n: nat) returns (p: nat)
    ensures p == NextPow2(n)
    ensures n <= p && (exists e: nat :: p == Pow2(e)) && forall e: nat :: n <= Pow2(e) ==> p <= Pow2(e)
  {
    p := 1;
    ghost var k: nat := 0;
    while p < n
      invariant p >= 1 && NextPow2From(p, n) == NextPow2(n)
      invariant p == Pow2(k) && forall e: nat :: n <= Pow2(e) ==> p <= Pow2(e)
      decreases n - p
    {
      forall e: nat | n <= Pow2(e)
        ensures 2 * p <= Pow2(e)
      {
        Pow2Order(e, k);
      }
      p, k := 2 * p, k + 1;
    }
  }

  lemma {:induction false} Pow2Order(e: nat, k: nat)
    ensures Pow2(e) > Pow2(k) ==> Pow2(e) >= 2 * Pow2(k)
    decreases e
  {
    if e > 0 && k > 0 { Pow2Order(e - 1, k - 1); }
  }

  function Parent(i: nat): nat
    requires i > 0
  {
    (i - 1) / 2
  }

  /** A signer's leaf: its 96-byte key and the eight bytes of its stake. */
  const LEAF_LEN: nat := 104

  /** The tree: heap positions 0 .. leaves+npo-2, leaf k at npo-1+k, everything beyond it absent. */
  datatype Tree = Tree(h: Hash, leaves: seq<Bytes>) {
    function Npo(): (n: nat)
      ensures n >= 1 && n >= |leaves|
    {
      NextPow2(|leaves|)
    }

    function Nodes(): nat {
      |leaves| + Npo() - 1
    }

    ghost function Rank(i: nat): nat {
      if i < Npo() then Npo() - i else 0
    }

    /** The bytes hashed at a position; an absent node hashes a single zero byte. */
    function Preimage(i: nat): Bytes
      decreases Rank(i), 0
    {
      if i + 1 < Npo() then Value(2 * i + 1) + Value(2 * i + 2)
      else if i < Nodes() then leaves[i + 1 - Npo()]
      else [0]
    }

    function Value(i: nat): Digest
      decreases Rank(i), 1
    {
      h(Preimage(i))
    }

    ghost predicate Sized() {
      forall k :: 0 <= k < |leaves| ==> |leaves[k]| == LEAF_LEN
    }

    /** Everything hashed to build the tree. */
    ghost function Inputs(): set<Bytes> {
      set i: nat | i <= Nodes() :: Preimage(i)
    }

    lemma PreimageIsInput(i: nat)
      ensures Preimage(i) in Inputs()
    {
      hide Npo;
      if i > Nodes() {
        assert Preimage(i) == [0] && Preimage(Nodes()) == [0];
      }
    }
  }

  function Node(h: Hash, left: Bytes, right: Bytes): Digest {
    h(left + right)
  }

  datatype Step = Step(positions: seq<nat>, hashes: seq<Digest>, vals: seq<Digest>)

  /** One level: every position is paired with its right neighbour in the list when that is its
      sibling, with a proof value when its sibling exists, and with the absent-node hash otherwise.
      None is an index out of bounds (a panic) or the parent of position 0. */
  function Up(h: Hash, nodes: nat, oi: seq<nat>, lv: seq<Digest>, vals: seq<Digest>): (r: Option<Step>)
    ensures r.Some? && oi != [] ==> oi[0] > 0 && |r.value.positions| > 0 && r.value.positions[0] == Parent(oi[0])
    ensures r.Some? ==> |r.value.positions| == |r.value.hashes|
    decreases |oi|
  {
    if oi == [] then Some(Step([], [], vals))
    else if lv == [] || oi[0] == 0 then None
    else if oi[0] % 2 == 0 then
      if vals == [] then None else
      var rest :- Up(h, nodes, oi[1..], lv[1..], vals[1..]);
      Some(Step([Parent(oi[0])] + rest.positions, [Node(h, vals[0], lv[0])] + rest.hashes, rest.vals))
    else if |oi| > 1 && oi[1] == oi[0] + 1 then
      if |lv| < 2 then None else
      var rest :- Up(h, nodes, oi[2..], lv[2..], vals);
      Some(Step([Parent(oi[0])] + rest.positions, [Node(h, lv[0], lv[1])] + rest.hashes, rest.vals))
    else if oi[0] + 1 < nodes then
      if vals == [] then None else
      var rest :- Up(h, nodes, oi[1..], lv[1..], vals[1..]);
      Some(Step([Parent(oi[0])] + rest.positions, [Node(h, lv[0], vals[0])] + rest.hashes, rest.vals))
    else
      var rest :- Up(h, nodes, oi[1..], lv[1..], vals);
      Some(Step([Parent(oi[0])] + rest.positions, [Node(h, lv[0], h([0]))] + rest.hashes, rest.vals))
  }

  /** The levels up to the root, led by the first position. */
  function Climb(h: Hash, nodes: nat, oi: seq<nat>, lv: seq<Digest>, vals: seq<Digest>): Option<seq<Digest>>
    requires oi != []
    decreases oi[0]
  {
    if oi[0] == 0 then Some(lv)
    else
      var s :- Up(h, nodes, oi, lv, vals);
      Climb(h, nodes, s.positions, s.hashes, s.vals)
  }

  function Positions(npo: nat, indices: seq<nat>): (oi: seq<nat>)
    requires npo >= 1
    ensures |oi| == |indices| && forall k :: 0 <= k < |oi| ==> oi[k] == indices[k] + npo - 1
  {
    seq(|indices|, k requires 0 <= k < |indices| => indices[k] + npo - 1)
  }

  function LeafHashes(h: Hash, signers: seq<Bytes>): (lv: seq<Digest>)
    ensures |lv| == |signers| && forall k :: 0 <= k < |lv| ==> lv[k] == h(signers[k])
  {
    seq(|signers|, k requires 0 <= k < |signers| => h(signers[k]))
  }

  /** `merkle_root` of the host verifier, and `check_merkle`: acceptance against `root`. */
  function Recompute(h: Hash, nrLeaves: nat, signers: seq<Bytes>, indices: seq<nat>,
                     vals: seq<Digest>): Option<seq<Digest>> {
    if indices == [] then None
    else
      var npo := NextPow2(nrLeaves);
      Climb(h, nrLeaves + npo - 1, Positions(npo, indices), LeafHashes(h, signers), vals)
  }

  predicate Accepts(h: Hash, nrLeaves: nat, signers: seq<Bytes>, indices: seq<nat>, vals: seq<Digest>, root: Digest) {
    Recompute(h, nrLeaves, signers, indices, vals) == Some([root])
  }

  /** The step that `Up` takes at index i of the lists. */
  ghost function UpStep(h: Hash, nodes: nat, oi: seq<nat>, lv: seq<Digest>, vals: seq<Digest>, i: nat): Option<Step>
    requires i < |oi| && i <= |lv|
  {
    if i == |lv| || oi[i] == 0 then None
    else if oi[i] % 2 == 0 then
      if vals == [] then None
      else Prepend([Parent(oi[i])], [Node(h, vals[0], lv[i])], Up(h, nodes, oi[i + 1..], lv[i + 1..], vals[1..]))
    else if i + 1 < |oi| && oi[i + 1] == oi[i] + 1 then
      if i + 1 == |lv| then None
      else Prepend([Parent(oi[i])], [Node(h, lv[i], lv[i + 1])], Up(h, nodes, oi[i + 2..], lv[i + 2..], vals))
    else if oi[i] + 1 < nodes then
      if vals == [] then None
      else Prepend([Parent(oi[i])], [Node(h, lv[i], vals[0])], Up(h, nodes, oi[i + 1..], lv[i + 1..], vals[1..]))
    else Prepend([Parent(oi[i])], [Node(h, lv[i], h([0]))], Up(h, nodes, oi[i + 1..], lv[i + 1..], vals))
  }

  lemma UpAt(h: Hash, nodes: nat, oi: seq<nat>, lv: seq<Digest>, vals: seq<Digest>, i: nat)
    requires i < |oi| && i <= |lv|
    ensures Up(h, nodes, oi[i..], lv[i..], vals) == UpStep(h, nodes, oi, lv, vals, i)
  {
    hide Node;
    assert oi[i..][1..] == oi[i + 1..];
    if i < |lv| {
      assert lv[i..][1..] == lv[i + 1..];
    }
    if i + 1 < |oi| && i + 1 < |lv| {
      assert oi[i..][2..] == oi[i + 2..] && lv[i..][2..] == lv[i + 2..];
    }
  }

  /** The inner loop: one level of the list. */
  method ComputeLevel(h: Hash, nodes: nat, oi: seq<nat>, leaves: seq<Digest>, bvals: seq<Digest>)
    returns (r: Option<Step>)
    ensures r == Up(h, nodes, oi, leaves, bvals)
  {
    hide Node, Up, Prepend;
    var vals, zero := bvals, h([0]);
    var ni: seq<nat>, nh: seq<Digest>, i := [], [], 0;
    assert oi[0..] == oi && leaves[0..] == leaves;
    PrependNothing(Up(h, nodes, oi, leaves, bvals));
    while i < |oi|
      invariant 0 <= i <= |oi| && i <= |leaves|
      invariant Up(h, nodes, oi, leaves, bvals) == Prepend(ni, nh, Up(h, nodes, oi[i..], leaves[i..], vals))
      decreases |oi| - i
    {
      UpAt(h, nodes, oi, leaves, vals, i);
      PrependNone(ni, nh);
      if i >= |leaves| || oi[i] == 0 { return None; }
      ghost var ni0, nh0 := ni, nh;
      ni := ni + [Parent(oi[i])];
      if oi[i] % 2 == 0 {
        if vals == [] { return None; }
        nh := nh + [Node(h, vals[0], leaves[i])];
        vals := vals[1..];
      } else {
        var sib := oi[i] + 1;
        if i < |oi| - 1 && oi[i + 1] == sib {
          if i + 1 >= |leaves| { return None; }
          nh := nh + [Node(h, leaves[i], leaves[i + 1])];
          i := i + 1;
        } else if sib < nodes {
          if vals == [] { return None; }
          nh := nh + [Node(h, leaves[i], vals[0])];
          vals := vals[1..];
        } else {
          nh := nh + [Node(h, leaves[i], zero)];
        }
      }
      i := i + 1;
      PrependAssoc(ni0, nh0, ni[|ni| - 1], nh[|nh| - 1], Up(h, nodes, oi[i..], leaves[i..], vals));
    }
    assert oi[i..] == [];
    LastUp(h, nodes, leaves[i..], vals, ni, nh);
    return Some(Step(ni, nh, vals));
  }

  lemma LastUp(h: Hash, nodes: nat, lv: seq<Digest>, vals: seq<Digest>, ni: seq<nat>, nh: seq<Digest>)
    ensures Prepend(ni, nh, Up(h, nodes, [], lv, vals)) == Some(Step(ni, nh, vals))
  {
    assert ni + [] == ni && nh + [] == nh;
  }

  lemma PrependNothing(s: Option<Step>)
    ensures Prepend([], [], s) == s
  {
    if s.Some? {
      assert [] + s.value.positions == s.value.positions && [] + s.value.hashes == s.value.hashes;
    }
  }

  lemma PrependNone(ni: seq<nat>, nh: seq<Digest>)
    ensures Prepend(ni, nh, None) == None
  {
  }

  ghost function Prepend(ni: seq<nat>, nh: seq<Digest>, s: Option<Step>): Option<Step> {
    match s
    case None => None
    case Some(rest) => Some(Step(ni + rest.positions, nh + rest.hashes, rest.vals))
  }

  lemma PrependAssoc(ni: seq<nat>, nh: seq<Digest>, p: nat, d: Digest, s: Option<Step>)
    ensures Prepend(ni, nh, Prepend([p], [d], s)) == Prepend(ni + [p], nh + [d], s)
  {
    if s.Some? {
      assert ni + ([p] + s.value.positions) == (ni + [p]) + s.value.positions;
      assert nh + ([d] + s.value.hashes) == (nh + [d]) + s.value.hashes;
    }
  }

  /** `check_merkle`: the loop over the levels. */
  method CheckMerkle(h: Hash, nrLeaves: nat, signers: seq<Bytes>, indices: seq<nat>, bvals: seq<Digest>, root: Digest)
    returns (ok: bool)
    ensures ok <==> Accepts(h, nrLeaves, signers, indices, bvals, root)
  {
    hide Up;
    var npo := ComputeNextPow2(nrLeaves);
    var nodes := nrLeaves + npo - 1;
    var oi, leaves, vals := Positions(npo, indices), LeafHashes(h, signers), bvals;
    if oi == [] { return false; }
    while oi[0] > 0
      invariant oi != []
      invariant Climb(h, nodes, oi, leaves, vals) == Recompute(h, nrLeaves, signers, indices, bvals)
      decreases oi[0]
    {
      var level := ComputeLevel(h, nodes, oi, leaves, vals);
      if level == None { return false; }
      oi, leaves, vals := level.value.positions, level.value.hashes, level.value.vals;
    }
    assert |leaves| == 1 ==> leaves == [leaves[0]];
    return |leaves| == 1 && leaves[0] == root;
  }

  // ---- soundness: whatever the proof values and indices are ----

  ghost predicate Increasing(oi: seq<nat>) {
    forall j, k :: 0 <= j < k < |oi| ==> oi[j] < oi[k]
  }

  ghost predicate Matches(t: Tree, oi: seq<nat>, lv: seq<Digest>) {
    |oi| <= |lv| && forall k :: 0 <= k < |oi| ==> lv[k] == t.Value(oi[k])
  }

  /** Everything hashed in one level. */
  ghost function UpInputs(h: Hash, nodes: nat, oi: seq<nat>, lv: seq<Digest>, vals: seq<Digest>): set<Bytes>
    decreases |oi|
  {
    if oi == [] || lv == [] || oi[0] == 0 then {}
    else if oi[0] % 2 == 0 then
      if vals == [] then {} else {Cat(vals[0], lv[0])} + UpInputs(h, nodes, oi[1..], lv[1..], vals[1..])
    else if |oi| > 1 && oi[1] == oi[0] + 1 then
      if |lv| < 2 then {} else {Cat(lv[0], lv[1])} + UpInputs(h, nodes, oi[2..], lv[2..], vals)
    else if oi[0] + 1 < nodes then
      if vals == [] then {} else {Cat(lv[0], vals[0])} + UpInputs(h, nodes, oi[1..], lv[1..], vals[1..])
    else {Cat(lv[0], h([0]))} + UpInputs(h, nodes, oi[1..], lv[1..], vals)
  }

  ghost function ClimbInputs(h: Hash, nodes: nat, oi: seq<nat>, lv: seq<Digest>, vals: seq<Digest>): set<Bytes>
    requires oi != []
    decreases oi[0]
  {
    if oi[0] == 0 || Up(h, nodes, oi, lv, vals) == None then {}
    else
      UpInputs(h, nodes, oi, lv, vals)
      + ClimbInputs(h, nodes, Up(h, nodes, oi, lv, vals).value.positions, Up(h, nodes, oi, lv, vals).value.hashes,
                    Up(h, nodes, oi, lv, vals).value.vals)
  }

  lemma PairPreimage(t: Tree, p: nat, left: Digest, right: Digest, all: set<Bytes>)
    requires t.Sized() && !Collides(t.h, all) && t.Preimage(p) in all && Cat(left, right) in all
    requires Node(t.h, left, right) == t.Value(p)
    ensures left == t.Value(2 * p + 1) && right == t.Value(2 * p + 2)
  {
    var l: Bytes, r: Bytes := t.Value(2 * p + 1), t.Value(2 * p + 2);
    assert Cat(left, right) == t.Preimage(p);
    assert |Cat(left, right)| == 64;
    assert p + 1 < t.Npo();
    assert t.Preimage(p) == l + r;
    assert left == (left + right)[..32] && right == (left + right)[32..];
    assert l == (l + r)[..32] && r == (l + r)[32..];
  }

  /** The pair that a level hashes first, and where it goes on. */
  lemma FirstPair(h: Hash, nodes: nat, oi: seq<nat>, lv: seq<Digest>, vals: seq<Digest>)
    returns (n: nat, vs: seq<Digest>, left: Digest, right: Digest)
    requires oi != [] && Up(h, nodes, oi, lv, vals).Some?
    ensures oi[0] > 0 && n == (if oi[0] % 2 == 1 && |oi| > 1 && oi[1] == oi[0] + 1 then 2 else 1) && n <= |lv|
    ensures if oi[0] % 2 == 0 then right == lv[0] else left == lv[0] && (n == 2 ==> right == lv[1])
    ensures Cat(left, right) in UpInputs(h, nodes, oi, lv, vals)
    ensures UpInputs(h, nodes, oi[n..], lv[n..], vs) <= UpInputs(h, nodes, oi, lv, vals)
    ensures var up, rest := Up(h, nodes, oi, lv, vals).value, Up(h, nodes, oi[n..], lv[n..], vs);
            && rest.Some? && up.positions == [Parent(oi[0])] + rest.value.positions
            && up.hashes == [Node(h, left, right)] + rest.value.hashes
  {
    hide Node, Cat;
    n := if oi[0] % 2 == 1 && |oi| > 1 && oi[1] == oi[0] + 1 then 2 else 1;
    vs := if oi[0] % 2 == 0 || (n == 1 && oi[0] + 1 < nodes) then vals[1..] else vals;
    if oi[0] % 2 == 0 {
      left, right := vals[0], lv[0];
    } else {
      left, right := lv[0], if n == 2 then lv[1] else if oi[0] + 1 < nodes then vals[0] else h([0]);
    }
  }

  /** The first pair of a level whose parents match the tree. */
  lemma FirstPairSound(t: Tree, nodes: nat, oi: seq<nat>, lv: seq<Digest>, vals: seq<Digest>, all: set<Bytes>)
    returns (n: nat, vs: seq<Digest>)
    requires t.Sized() && !Collides(t.h, all) && t.Inputs() <= all && UpInputs(t.h, nodes, oi, lv, vals) <= all
    requires oi != [] && Up(t.h, nodes, oi, lv, vals).Some?
    requires Matches(t, Up(t.h, nodes, oi, lv, vals).value.positions, Up(t.h, nodes, oi, lv, vals).value.hashes)
    ensures 1 <= n <= 2 && n <= |oi| && n <= |lv| && (n == 2 ==> oi[1] == oi[0] + 1 && lv[1] == t.Value(oi[1]))
    ensures lv[0] == t.Value(oi[0])
    ensures UpInputs(t.h, nodes, oi[n..], lv[n..], vs) <= all && Up(t.h, nodes, oi[n..], lv[n..], vs).Some?
    ensures var s := Up(t.h, nodes, oi[n..], lv[n..], vs).value; Matches(t, s.positions, s.hashes)
  {
    hide Node, Cat, Up, UpInputs, Tree.Value, Tree.Npo, Tree.Inputs, Tree.Sized, Collides;
    var up := Up(t.h, nodes, oi, lv, vals).value;
    var left, right;
    n, vs, left, right := FirstPair(t.h, nodes, oi, lv, vals);
    var rest := Up(t.h, nodes, oi[n..], lv[n..], vs).value;
    var p := Parent(oi[0]);
    assert up.positions[0] == p && up.hashes[0] == t.Value(p);
    assert left == t.Value(2 * p + 1) && right == t.Value(2 * p + 2) by {
      hide *;
      t.PreimageIsInput(p);
      PairPreimage(t, p, left, right, all);
    }
    assert Matches(t, up.positions[1..], up.hashes[1..]);
    assert up.positions[1..] == rest.positions && up.hashes[1..] == rest.hashes;
  }

  /** If the level above matches the tree, so does this one. */
  lemma {:induction false} UpSound(t: Tree, nodes: nat, oi: seq<nat>, lv: seq<Digest>, vals: seq<Digest>,
                                   all: set<Bytes>)
    requires t.Sized() && !Collides(t.h, all) && t.Inputs() <= all && UpInputs(t.h, nodes, oi, lv, vals) <= all
    requires Up(t.h, nodes, oi, lv, vals).Some?
    requires Matches(t, Up(t.h, nodes, oi, lv, vals).value.positions, Up(t.h, nodes, oi, lv, vals).value.hashes)
    ensures Matches(t, oi, lv)
    decreases |oi|
  {
    hide Up, UpInputs, Tree.Value, Tree.Inputs, Tree.Sized, Collides;
    if oi != [] {
      var n, vs := FirstPairSound(t, nodes, oi, lv, vals, all);
      UpSound(t, nodes, oi[n..], lv[n..], vs, all);
      if n == 2 {
        assert oi[1..][1..] == oi[2..] && lv[1..][1..] == lv[2..];
        MatchesCons(t, oi[1..], lv[1..]);
      }
      MatchesCons(t, oi, lv);
    }
  }

  lemma MatchesCons(t: Tree, oi: seq<nat>, lv: seq<Digest>)
    requires |oi| > 0 && |lv| > 0
    ensures Matches(t, oi[1..], lv[1..]) && lv[0] == t.Value(oi[0]) ==> Matches(t, oi, lv)
  {
    if Matches(t, oi[1..], lv[1..]) && lv[0] == t.Value(oi[0]) {
      forall k | 0 <= k < |oi|
        ensures lv[k] == t.Value(oi[k])
      {
        if k > 0 {
          assert lv[k] == lv[1..][k - 1] && oi[k] == oi[1..][k - 1];
        }
      }
    }
  }

  /** The step that a level makes at its first position: how many positions it takes, and where it goes on. */
  lemma UpFirst(h: Hash, nodes: nat, oi: seq<nat>, lv: seq<Digest>, vals: seq<Digest>)
    returns (n: nat, lvs: seq<Digest>, vs: seq<Digest>)
    requires Up(h, nodes, oi, lv, vals).Some? && oi != []
    ensures n == if oi[0] % 2 == 1 && |oi| > 1 && oi[1] == oi[0] + 1 then 2 else 1
    ensures oi[0] > 0 && n <= |oi| && Up(h, nodes, oi[n..], lvs, vs).Some?
    ensures Up(h, nodes, oi, lv, vals).value.positions
            == [Parent(oi[0])] + Up(h, nodes, oi[n..], lvs, vs).value.positions
  {
    hide Node;
    n := if oi[0] % 2 == 1 && |oi| > 1 && oi[1] == oi[0] + 1 then 2 else 1;
    lvs := lv[n..];
    vs := if oi[0] % 2 == 0 || (n == 1 && oi[0] + 1 < nodes) then vals[1..] else vals;
  }

  /** A strictly increasing level can only come from a strictly increasing level. */
  lemma {:induction false} UpIncreasing(h: Hash, nodes: nat, oi: seq<nat>, lv: seq<Digest>, vals: seq<Digest>)
    requires Up(h, nodes, oi, lv, vals).Some? && Increasing(Up(h, nodes, oi, lv, vals).value.positions)
    ensures Increasing(oi)
    decreases |oi|
  {
    hide Up, Increasing;
    if oi == [] {
      NothingIncreasing(oi);
    } else {
      var up := Up(h, nodes, oi, lv, vals).value.positions;
      var n, lvs, vs := UpFirst(h, nodes, oi, lv, vals);
      var rest := Up(h, nodes, oi[n..], lvs, vs).value.positions;
      IncreasingTail(up);
      assert up[1..] == rest;
      UpIncreasing(h, nodes, oi[n..], lvs, vs);
      if n < |oi| {
        assert && oi[n..][0] > 0 && Up(h, nodes, oi[n..], lvs, vs).value.positions != []
               && Up(h, nodes, oi[n..], lvs, vs).value.positions[0] == Parent(oi[n..][0]);
        assert up[1] == Parent(oi[n]);
        IncreasingFirst(up);
        IncreasingCons(oi, n);
      } else {
        NothingIncreasing(oi);
      }
    }
  }

  lemma NothingIncreasing(oi: seq<nat>)
    requires |oi| <= 1 || (|oi| == 2 && oi[0] < oi[1])
    ensures Increasing(oi)
  {
  }

  lemma IncreasingFirst(oi: seq<nat>)
    requires |oi| > 1 && Increasing(oi)
    ensures oi[0] < oi[1]
  {
  }

  lemma IncreasingTail(oi: seq<nat>)
    requires oi != [] && Increasing(oi)
    ensures Increasing(oi[1..])
  {
  }

  lemma IncreasingCons(oi: seq<nat>, n: nat)
    requires 1 <= n <= 2 && n < |oi| && Increasing(oi[n..])
    requires n == 2 ==> oi[1] == oi[0] + 1 && oi[1] < oi[2]
    requires oi[0] < oi[n]
    ensures Increasing(oi)
  {
    forall j, k | 0 <= j < k < |oi|
      ensures oi[j] < oi[k]
    {
      assert k >= n ==> oi[k] == oi[n..][k - n];
      assert j >= n ==> oi[j] == oi[n..][j - n];
      assert oi[n] == oi[n..][0];
    }
  }

  /** From the root down: a climb that ends in the tree's root started in the tree's leaves, in order. */
  lemma {:induction false} ClimbSound(t: Tree, nodes: nat, oi: seq<nat>, lv: seq<Digest>, vals: seq<Digest>,
                                      all: set<Bytes>)
    requires t.Sized() && !Collides(t.h, all) && t.Inputs() <= all && oi != []
    requires ClimbInputs(t.h, nodes, oi, lv, vals) <= all && oi[0] > 0
    requires Climb(t.h, nodes, oi, lv, vals) == Some([t.Value(0)])
    ensures Matches(t, oi, lv) && Increasing(oi)
    decreases oi[0]
  {
    hide Up, UpInputs, Tree.Value, Tree.Inputs, Tree.Sized, Collides;
    var s := Up(t.h, nodes, oi, lv, vals).value;
    if s.positions[0] == 0 {
      assert Climb(t.h, nodes, s.positions, s.hashes, s.vals) == Some(s.hashes);
      assert s.positions == [0] && s.hashes == [t.Value(0)];
    } else {
      ClimbSound(t, nodes, s.positions, s.hashes, s.vals, all);
    }
    UpSound(t, nodes, oi, lv, vals, all);
    UpIncreasing(t.h, nodes, oi, lv, vals);
  }

  /** Everything hashed by the check, for the claimed number of leaves, and by the tree. */
  ghost function CheckInputs(t: Tree, nr: nat, signers: seq<Bytes>, indices: seq<nat>, vals: seq<Digest>): set<Bytes>
    requires indices != []
  {
    t.Inputs() + Elements(signers)
    + ClimbInputs(t.h, nr + NextPow2(nr) - 1, Positions(NextPow2(nr), indices), LeafHashes(t.h, signers), vals)
  }

  /** The leaf of the committed tree at the heap position that the claimed number of leaves gives to an index. */
  function LeafOf(t: Tree, nr: nat, index: nat): int {
    index + NextPow2(nr) - t.Npo()
  }

  lemma LeafPreimage(t: Tree, leaf: Bytes, i: nat, all: set<Bytes>)
    requires !Collides(t.h, all) && t.Preimage(i) in all && leaf in all && |leaf| == LEAF_LEN
    requires t.h(leaf) == t.Value(i)
    ensures i + 1 >= t.Npo() && i < t.Nodes() && leaf == t.leaves[i + 1 - t.Npo()]
  {
    assert leaf == t.Preimage(i);
    assert i + 1 < t.Npo() ==> |t.Preimage(i)| == 64;
  }

  /** Acceptance against the tree's root, with any claimed number of leaves, any indices and any proof values: every
      signer that has an index is the leaf at that index's position, and no position is used twice or out of order.
      Only where the first position is the root can there be more indices than signers, and then there is one signer. */
  lemma BatchSound(t: Tree, nr: nat, signers: seq<Bytes>, indices: seq<nat>, vals: seq<Digest>)
    requires t.Sized() && forall k :: 0 <= k < |signers| ==> |signers[k]| == LEAF_LEN
    requires Accepts(t.h, nr, signers, indices, vals, t.Value(0))
    ensures indices != []
    ensures || Collides(t.h, CheckInputs(t, nr, signers, indices, vals))
            || (&& (forall k :: 0 <= k < |indices| && k < |signers| ==>
                      0 <= LeafOf(t, nr, indices[k]) < |t.leaves| && signers[k] == t.leaves[LeafOf(t, nr, indices[k])])
                && (|signers| == 1 || (|indices| <= |signers| && Increasing(indices))))
  {
    hide Up, UpInputs, Tree.Value, Tree.Sized, Tree.Inputs, Collides;
    var all := CheckInputs(t, nr, signers, indices, vals);
    var oi, lv := Positions(NextPow2(nr), indices), LeafHashes(t.h, signers);
    if !Collides(t.h, all) {
      if oi[0] > 0 {
        ClimbSound(t, nr + NextPow2(nr) - 1, oi, lv, vals, all);
      } else {
        assert lv == [t.Value(0)];
      }
      forall k | 0 <= k < |indices| && k < |signers|
        ensures 0 <= LeafOf(t, nr, indices[k]) < |t.leaves| && signers[k] == t.leaves[LeafOf(t, nr, indices[k])]
      {
        assert lv[k] == t.Value(oi[k]);
        assert 0 <= LeafOf(t, nr, indices[k]) < |t.leaves| && signers[k] == t.leaves[LeafOf(t, nr, indices[k])] by {
          var i := indices[k] + NextPow2(nr) - 1;
          LeafPreimage(t, signers[k], i, all) by { t.PreimageIsInput(i); }
        }
      }
      if oi[0] > 0 {
        forall j, k | 0 <= j < k < |indices|
          ensures indices[j] < indices[k]
        {
          assert oi[j] < oi[k];
        }
      }
    }
  }

  /** The position of a signer's leaf is its own index exactly when the claimed number of leaves rounds up to the
      same power of two as the tree's. */
  lemma BatchAtIndex(t: Tree, nr: nat, signers: seq<Bytes>, indices: seq<nat>, vals: seq<Digest>, k: nat)
    requires t.Sized() && forall i :: 0 <= i < |signers| ==> |signers[i]| == LEAF_LEN
    requires Accepts(t.h, nr, signers, indices, vals, t.Value(0)) && k < |indices| && k < |signers|
    ensures || Collides(t.h, CheckInputs(t, nr, signers, indices, vals))
            || (var i := LeafOf(t, nr, indices[k]);
                && 0 <= i < |t.leaves| && signers[k] == t.leaves[i]
                && (i == indices[k] <==> NextPow2(nr) == t.Npo()))
  {
    hide Accepts, Collides, CheckInputs, Tree.Value, Tree.Sized, Tree.Npo, NextPow2, Increasing;
    BatchSound(t, nr, signers, indices, vals);
  }

  /** With another number of leaves the index differs: in the tree of two leaves, leaf 1 is accepted at index 2 of
      one. */
  lemma ClaimedIndexMayDiffer(h: Hash, a: Bytes, b: Bytes)
    ensures Accepts(h, 1, [b], [2], [h(a)], Tree(h, [a, b]).Value(0))
    ensures LeafOf(Tree(h, [a, b]), 1, 2) == 1
  {
    var t := Tree(h, [a, b]);
    assert NextPow2From(2, 2) == 2 && NextPow2(2) == 2 && NextPow2(1) == 1 && t.Npo() == 2;
    assert t.Value(1) == h(a) && t.Value(2) == h(b);
    ParentIsNode(t, 0);
    var vals := [h(a)];
    assert Positions(1, [2]) == [2] && LeafHashes(h, [b]) == [h(b)];
    assert vals[1..] == [] && [2][1..] == [] && [h(b)][1..] == [];
    assert Up(h, 1, [], [], []) == Some(Step([], [], []));
    UpUnfold(h, 1, [2], [h(b)], vals, 1, Step([], [], []));
    assert [Parent(2)] + [] == [0] && [Node(h, vals[0], h(b))] + [] == [Node(h, h(a), h(b))];
    assert Climb(h, 1, [0], [Node(h, h(a), h(b))], []) == Some([Node(h, h(a), h(b))]);
  }

  /** Signers past the indices are not looked at: below the root, acceptance does not depend on them. */
  lemma BeyondIndicesIgnored(h: Hash, nr: nat, signers: seq<Bytes>, more: seq<Bytes>, indices: seq<nat>,
                             vals: seq<Digest>, root: Digest)
    requires |indices| <= |signers| && indices != [] && indices[0] + NextPow2(nr) > 1
    ensures Accepts(h, nr, signers + more, indices, vals, root) <==> Accepts(h, nr, signers, indices, vals, root)
  {
    hide Up, NextPow2, Climb;
    var npo := NextPow2(nr);
    var oi, nodes := Positions(npo, indices), nr + npo - 1;
    assert LeafHashes(h, signers + more) == LeafHashes(h, signers) + LeafHashes(h, more);
    UpIgnores(h, nodes, oi, LeafHashes(h, signers), LeafHashes(h, more), vals);
    ClimbOnce(h, nodes, oi, LeafHashes(h, signers), vals);
    ClimbOnce(h, nodes, oi, LeafHashes(h, signers + more), vals);
  }

  lemma ClimbOnce(h: Hash, nodes: nat, oi: seq<nat>, lv: seq<Digest>, vals: seq<Digest>)
    requires oi != [] && oi[0] > 0
    ensures Climb(h, nodes, oi, lv, vals)
            == match Up(h, nodes, oi, lv, vals)
               case None => None
               case Some(s) => Climb(h, nodes, s.positions, s.hashes, s.vals)
  {
    hide Up;
  }

  lemma {:induction false} UpIgnores(h: Hash, nodes: nat, oi: seq<nat>, lv: seq<Digest>, more: seq<Digest>,
                                     vals: seq<Digest>)
    requires |oi| <= |lv|
    ensures Up(h, nodes, oi, lv + more, vals) == Up(h, nodes, oi, lv, vals)
    decreases |oi|
  {
    hide Node;
    if oi != [] && oi[0] > 0 {
      var n := if oi[0] % 2 == 1 && |oi| > 1 && oi[1] == oi[0] + 1 then 2 else 1;
      var uses := oi[0] % 2 == 0 || (n == 1 && oi[0] + 1 < nodes);
      assert (lv + more)[n..] == lv[n..] + more;
      if !uses || vals != [] {
        UpIgnores(h, nodes, oi[n..], lv[n..], more, if uses then vals[1..] else vals);
      }
    }
  }

  // ---- completeness: the honest sibling list ----

  function Parents(oi: seq<nat>): (ps: seq<nat>)
    requires forall k :: 0 <= k < |oi| ==> oi[k] > 0
    ensures oi != [] ==> ps != [] && ps[0] == Parent(oi[0])
    ensures forall p :: p in ps ==> exists k :: 0 <= k < |oi| && p == Parent(oi[k])
    decreases |oi|
  {
    if oi == [] then []
    else if oi[0] % 2 == 1 && |oi| > 1 && oi[1] == oi[0] + 1 then [Parent(oi[0])] + Parents(oi[2..])
    else [Parent(oi[0])] + Parents(oi[1..])
  }

  /** The siblings one level needs, left to right. */
  function LevelSiblings(t: Tree, oi: seq<nat>): seq<Digest>
    decreases |oi|
  {
    if oi == [] then []
    else if oi[0] > 0 && oi[0] % 2 == 0 then [t.Value(oi[0] - 1)] + LevelSiblings(t, oi[1..])
    else if |oi| > 1 && oi[1] == oi[0] + 1 then LevelSiblings(t, oi[2..])
    else if oi[0] + 1 < t.Nodes() then [t.Value(oi[0] + 1)] + LevelSiblings(t, oi[1..])
    else LevelSiblings(t, oi[1..])
  }

  function Values(t: Tree, oi: seq<nat>): (lv: seq<Digest>)
    ensures |lv| == |oi| && forall k :: 0 <= k < |oi| ==> lv[k] == t.Value(oi[k])
  {
    seq(|oi|, k requires 0 <= k < |oi| => t.Value(oi[k]))
  }

  /** All positions on one level of the heap: low .. 2*low, where low is 0, 1, 3, 7, ... */
  ghost predicate OnLevel(oi: seq<nat>, low: nat) {
    forall k :: 0 <= k < |oi| ==> low <= oi[k] <= 2 * low
  }

  ghost predicate IsLow(low: nat) {
    low == 0 || (low % 2 == 1 && IsLow((low - 1) / 2))
  }

  lemma {:induction false} NextPow2IsLow(p: nat, n: nat)
    requires p >= 1 && IsLow(p - 1)
    ensures IsLow(NextPow2From(p, n) - 1)
    decreases n - p
  {
    if p < n {
      assert (2 * p - 1 - 1) / 2 == p - 1;
      NextPow2IsLow(2 * p, n);
    }
  }

  lemma ParentIsNode(t: Tree, p: nat)
    requires p + 1 < t.Npo()
    ensures t.Value(p) == Node(t.h, t.Value(2 * p + 1), t.Value(2 * p + 2))
  {
  }

  lemma AbsentIsZero(t: Tree, i: nat)
    requires i >= t.Nodes()
    ensures t.Value(i) == t.h([0])
  {
  }

  lemma {:induction false} UpComplete(t: Tree, oi: seq<nat>, rest: seq<Digest>)
    requires forall k :: 0 <= k < |oi| ==> 0 < oi[k] <= 2 * (t.Npo() - 1)
    ensures Up(t.h, t.Nodes(), oi, Values(t, oi), LevelSiblings(t, oi) + rest)
            == Some(Step(Parents(oi), Values(t, Parents(oi)), rest))
    decreases |oi|
  {
    hide Node, Tree.Value, Tree.Npo, Tree.Nodes, Up, Values, LevelSiblings;
    if oi == [] {
      NoSiblings(t, rest);
      UpNothing(t.h, t.Nodes(), Values(t, oi), rest);
      assert Values(t, []) == [];
    } else {
      var n := if oi[0] % 2 == 1 && |oi| > 1 && oi[1] == oi[0] + 1 then 2 else 1;
      UpComplete(t, oi[n..], rest);
      PairComplete(t, oi, rest, n);
    }
  }

  lemma NoSiblings(t: Tree, rest: seq<Digest>)
    ensures LevelSiblings(t, []) + rest == rest
  {
  }

  /** One pair of a level of tree nodes makes the parent node. */
  lemma PairComplete(t: Tree, oi: seq<nat>, rest: seq<Digest>, n: nat)
    requires oi != [] && 0 < oi[0] <= 2 * (t.Npo() - 1)
    requires n == if oi[0] % 2 == 1 && |oi| > 1 && oi[1] == oi[0] + 1 then 2 else 1
    requires forall k :: 0 <= k < |oi| ==> oi[k] > 0
    requires Up(t.h, t.Nodes(), oi[n..], Values(t, oi[n..]), LevelSiblings(t, oi[n..]) + rest)
             == Some(Step(Parents(oi[n..]), Values(t, Parents(oi[n..])), rest))
    ensures Up(t.h, t.Nodes(), oi, Values(t, oi), LevelSiblings(t, oi) + rest)
            == Some(Step(Parents(oi), Values(t, Parents(oi)), rest))
  {
    var p, lv, vals := Parent(oi[0]), Values(t, oi), LevelSiblings(t, oi) + rest;
    assert p + 1 < t.Npo();
    assert Parents(oi) == [p] + Parents(oi[n..]);
    SiblingNeeded(t, oi, rest, n);
    PairValue(t, oi, n, vals);
    hide Node, Tree.Value, Tree.Npo, Tree.Nodes, Up, Values, LevelSiblings, Parents, Parent;
    assert Values(t, oi)[n..] == Values(t, oi[n..]) by {
      hide Tree.Value;
    }
    assert Values(t, [p] + Parents(oi[n..])) == [t.Value(p)] + Values(t, Parents(oi[n..])) by {
      hide Tree.Value;
    }
    UpUnfold(t.h, t.Nodes(), oi, lv, vals, n, Step(Parents(oi[n..]), Values(t, Parents(oi[n..])), rest));
  }

  /** The node over the first pair. */
  lemma PairValue(t: Tree, oi: seq<nat>, n: nat, vals: seq<Digest>)
    requires oi != [] && 0 < oi[0] && Parent(oi[0]) + 1 < t.Npo()
    requires n == if oi[0] % 2 == 1 && |oi| > 1 && oi[1] == oi[0] + 1 then 2 else 1
    requires oi[0] % 2 == 0 ==> vals != [] && vals[0] == t.Value(oi[0] - 1)
    requires oi[0] % 2 == 1 && n == 1 ==>
               if oi[0] + 1 < t.Nodes() then vals != [] && vals[0] == t.Value(oi[0] + 1)
               else t.Value(oi[0] + 1) == t.h([0])
    ensures (if oi[0] % 2 == 0 then Node(t.h, vals[0], Values(t, oi)[0])
             else if n == 2 then Node(t.h, Values(t, oi)[0], Values(t, oi)[1])
             else if oi[0] + 1 < t.Nodes() then Node(t.h, Values(t, oi)[0], vals[0])
             else Node(t.h, Values(t, oi)[0], t.h([0]))) == t.Value(Parent(oi[0]))
  {
    var p := Parent(oi[0]);
    assert oi[0] == if oi[0] % 2 == 0 then 2 * p + 2 else 2 * p + 1;
    hide Node, Tree.Value, Tree.Npo, Tree.Nodes, Values, Parent;
    ParentIsNode(t, p);
  }

  /** The first of the level's siblings is the one its first position needs, if it needs one. */
  lemma SiblingNeeded(t: Tree, oi: seq<nat>, rest: seq<Digest>, n: nat)
    requires oi != [] && oi[0] > 0
    requires n == if oi[0] % 2 == 1 && |oi| > 1 && oi[1] == oi[0] + 1 then 2 else 1
    ensures var vals := LevelSiblings(t, oi) + rest;
            if oi[0] % 2 == 0 then vals != [] && vals[0] == t.Value(oi[0] - 1)
                && vals[1..] == LevelSiblings(t, oi[1..]) + rest
            else if n == 2 then vals == LevelSiblings(t, oi[2..]) + rest
            else if oi[0] + 1 < t.Nodes() then
              vals != [] && vals[0] == t.Value(oi[0] + 1) && vals[1..] == LevelSiblings(t, oi[1..]) + rest
            else vals == LevelSiblings(t, oi[1..]) + rest && t.Value(oi[0] + 1) == t.h([0])
  {
    hide Tree.Value, Tree.Nodes;
    if oi[0] % 2 == 0 {
      SiblingFirst(t.Value(oi[0] - 1), LevelSiblings(t, oi[1..]), rest);
    } else if n == 1 && oi[0] + 1 < t.Nodes() {
      SiblingFirst(t.Value(oi[0] + 1), LevelSiblings(t, oi[1..]), rest);
    } else if n == 1 {
      AbsentIsZero(t, oi[0] + 1);
    }
  }

  lemma UpNothing(h: Hash, nodes: nat, lv: seq<Digest>, vals: seq<Digest>)
    ensures Up(h, nodes, [], lv, vals) == Some(Step([], [], vals))
  {
  }

  /** One unfolding of a level, by the four ways a position is paired. */
  lemma UpUnfold(h: Hash, nodes: nat, oi: seq<nat>, lv: seq<Digest>, vals: seq<Digest>, n: nat, step: Step)
    requires oi != [] && oi[0] > 0 && |lv| == |oi|
    requires n == if oi[0] % 2 == 1 && |oi| > 1 && oi[1] == oi[0] + 1 then 2 else 1
    requires var uses := oi[0] % 2 == 0 || (n == 1 && oi[0] + 1 < nodes);
             (uses ==> vals != []) && Up(h, nodes, oi[n..], lv[n..], if uses then vals[1..] else vals) == Some(step)
    ensures Up(h, nodes, oi, lv, vals)
            == Some(Step([Parent(oi[0])] + step.positions,
                         [if oi[0] % 2 == 0 then Node(h, vals[0], lv[0])
                          else if n == 2 then Node(h, lv[0], lv[1])
                          else if oi[0] + 1 < nodes then Node(h, lv[0], vals[0])
                          else Node(h, lv[0], h([0]))] + step.hashes, step.vals))
  {
    hide Node;
  }

  lemma SiblingFirst(v: Digest, siblings: seq<Digest>, rest: seq<Digest>)
    ensures ([v] + siblings + rest)[0] == v && ([v] + siblings + rest)[1..] == siblings + rest
  {
  }

  lemma ParentsOnLevel(oi: seq<nat>, low: nat)
    requires low % 2 == 1 && OnLevel(oi, low)
    ensures OnLevel(Parents(oi), (low - 1) / 2)
  {
    forall k | 0 <= k < |Parents(oi)|
      ensures (low - 1) / 2 <= Parents(oi)[k] <= 2 * ((low - 1) / 2)
    {
      assert Parents(oi)[k] in Parents(oi);
    }
  }

  lemma {:induction false} ParentsIncrease(oi: seq<nat>)
    requires Increasing(oi) && forall k :: 0 <= k < |oi| ==> oi[k] > 0
    ensures Increasing(Parents(oi))
    decreases |oi|
  {
    hide Increasing;
    if oi == [] {
      NothingIncreasing([]);
    } else {
      var n := if oi[0] % 2 == 1 && |oi| > 1 && oi[1] == oi[0] + 1 then 2 else 1;
      IncreasingDrop(oi, n);
      ParentsIncrease(oi[n..]);
      var ps, rest := Parents(oi), Parents(oi[n..]);
      assert ps == [Parent(oi[0])] + rest;
      if n < |oi| {
        assert rest[0] == Parent(oi[n]);
        assert ps[1..] == rest;
        IncreasingCons(ps, 1);
      } else {
        NothingIncreasing(ps);
      }
    }
  }

  lemma IncreasingDrop(oi: seq<nat>, n: nat)
    requires Increasing(oi) && n <= |oi|
    ensures Increasing(oi[n..])
    ensures n == 1 && 1 < |oi| ==> oi[0] < oi[1]
    ensures n == 2 && 2 < |oi| ==> oi[0] < oi[1] < oi[2]
  {
  }

  /** The siblings of all levels. */
  ghost function HonestVals(t: Tree, oi: seq<nat>, low: nat): seq<Digest>
    requires OnLevel(oi, low) && IsLow(low) && oi != []
    decreases low
  {
    if low == 0 then [] else
      ParentsOnLevel(oi, low);
      LevelSiblings(t, oi) + HonestVals(t, Parents(oi), (low - 1) / 2)
  }

  lemma {:induction false} ClimbComplete(t: Tree, oi: seq<nat>, low: nat)
    requires OnLevel(oi, low) && IsLow(low) && oi != [] && Increasing(oi) && low <= t.Npo() - 1
    ensures Climb(t.h, t.Nodes(), oi, Values(t, oi), HonestVals(t, oi, low)) == Some([t.Value(0)])
    decreases low
  {
    hide Up, Tree.Value, LevelSiblings, Tree.Npo, Tree.Nodes;
    if low == 0 {
      assert oi[|oi| - 1] == oi[0];
      assert Values(t, oi) == [t.Value(0)];
    } else {
      ParentsOnLevel(oi, low);
      ParentsIncrease(oi);
      UpComplete(t, oi, HonestVals(t, Parents(oi), (low - 1) / 2));
      ClimbComplete(t, Parents(oi), (low - 1) / 2);
    }
  }

  /** For strictly increasing indices the tree's own siblings prove the tree's own leaves. */
  lemma BatchComplete(t: Tree, indices: seq<nat>)
    requires indices != [] && Increasing(indices)
    requires forall k :: 0 <= k < |indices| ==> indices[k] < |t.leaves|
    ensures OnLevel(Positions(t.Npo(), indices), t.Npo() - 1) && IsLow(t.Npo() - 1)
    ensures Accepts(t.h, |t.leaves|, seq(|indices|, k requires 0 <= k < |indices| => t.leaves[indices[k]]), indices,
                    HonestVals(t, Positions(t.Npo(), indices), t.Npo() - 1), t.Value(0))
  {
    hide Tree.Value, Tree.Npo, Tree.Nodes, Positions, LeafHashes, Values, HonestVals, Climb, OnLevel, Increasing, IsLow;
    var signers := seq(|indices|, k requires 0 <= k < |indices| => t.leaves[indices[k]]);
    NpoIsLow(t);
    PositionsOnLevel(t, indices);
    ClimbComplete(t, Positions(t.Npo(), indices), t.Npo() - 1);
    SignersMatch(t, indices, signers);
    NodesAre(t);
  }

  lemma PositionsOnLevel(t: Tree, indices: seq<nat>)
    requires Increasing(indices) && forall k :: 0 <= k < |indices| ==> indices[k] < |t.leaves|
    ensures OnLevel(Positions(t.Npo(), indices), t.Npo() - 1) && Increasing(Positions(t.Npo(), indices))
    ensures |Positions(t.Npo(), indices)| == |indices|
  {
    hide Tree.Value, Tree.Npo;
    NodesAre(t);
  }

  lemma SignersMatch(t: Tree, indices: seq<nat>, signers: seq<Bytes>)
    requires |signers| == |indices|
    requires forall k :: 0 <= k < |indices| ==> indices[k] < |t.leaves| && signers[k] == t.leaves[indices[k]]
    ensures LeafHashes(t.h, signers) == Values(t, Positions(t.Npo(), indices))
  {
    hide Tree.Value, Tree.Npo;
    forall k | 0 <= k < |indices|
      ensures LeafHashes(t.h, signers)[k] == Values(t, Positions(t.Npo(), indices))[k]
    {
      LeafValue(t, indices[k]);
    }
  }

  lemma NpoIsLow(t: Tree)
    ensures IsLow(t.Npo() - 1)
  {
    NextPow2IsLow(1, |t.leaves|);
  }

  lemma NodesAre(t: Tree)
    ensures t.Npo() == NextPow2(|t.leaves|) && t.Nodes() == |t.leaves| + t.Npo() - 1
  {
  }

  lemma LeafValue(t: Tree, k: nat)
    requires k < |t.leaves|
    ensures t.Value(k + t.Npo() - 1) == t.h(t.leaves[k])
  {
  }
}
