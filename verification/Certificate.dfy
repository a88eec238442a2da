/** A certificate's lottery and its batch proof together: the quorum is one of registered signers. */
module Certificate {
  import opened Basics
  import opened BatchMerkle
  import opened Lottery

  /** What both checks read of a signer. */
  datatype Signer = Signer(mvk: Bytes, stake: int, indices: seq<int>)

  predicate WellFormed(s: Signer) {
    |s.mvk| == 96 && 0 <= s.stake < U64 && forall i :: i in s.indices ==> 0 <= i
  }

  /** The leaf of a signer: the key and the big-endian stake. */
  function Leaf(s: Signer): (leaf: Bytes)
    requires WellFormed(s)
    ensures |leaf| == LEAF_LEN
  {
    s.mvk + BE(s.stake, 8)
  }

  function Leaves(signers: seq<Signer>): (r: seq<Bytes>)
    requires forall s :: s in signers ==> WellFormed(s)
    ensures |r| == |signers| && forall k :: 0 <= k < |r| ==> r[k] == Leaf(signers[k])
  {
    seq(|signers|, k requires 0 <= k < |signers| => Leaf(signers[k]))
  }

  function Tickets(signers: seq<Signer>): (r: seq<Ticket>)
    ensures |r| == |signers| && forall k :: 0 <= k < |r| ==> r[k] == Ticket(signers[k].stake, signers[k].indices)
  {
    seq(|signers|, k requires 0 <= k < |signers| => Ticket(signers[k].stake, signers[k].indices))
  }

  /** The stake that a leaf of the committed tree registers. */
  function RegisteredStake(leaf: Bytes): nat
    requires |leaf| == LEAF_LEN
  {
    FromBE(leaf[96..])
  }

  lemma LeafRegisters(s: Signer)
    requires WellFormed(s)
    ensures RegisteredStake(Leaf(s)) == s.stake
  {
    assert Pow256(4) == 0x1_0000_0000 && Pow256(8) == U64;
    FromBEOfBE(s.stake, 8);
    assert Leaf(s)[96..] == BE(s.stake, 8);
  }

  /** The (position in the tree, lottery index) pairs behind the (signer, index) pairs. */
  ghost function Placed(pairs: set<(int, int)>, at: int -> int): set<(int, int)> {
    set p | p in pairs :: (at(p.0), p.1)
  }

  lemma {:induction false} PlacedSize(pairs: set<(int, int)>, at: int -> int)
    requires forall p, q :: p in pairs && q in pairs && at(p.0) == at(q.0) ==> p.0 == q.0
    ensures |Placed(pairs, at)| == |pairs|
    decreases |pairs|
  {
    if pairs == {} {
      assert Placed(pairs, at) == {};
    } else {
      var p :| p in pairs;
      var rest := pairs - {p};
      PlacedSize(rest, at);
      assert Placed(pairs, at) == Placed(rest, at) + {(at(p.0), p.1)} by {
        assert forall q :: q in pairs <==> q in rest || q == p;
      }
      assert (at(p.0), p.1) !in Placed(rest, at);
    }
  }

  /** Where signer n stands in the committed tree, for the claimed number of leaves. */
  function PositionOf(t: Tree, nr: nat, indices: seq<nat>): int -> int {
    n => if 0 <= n < |indices| then LeafOf(t, nr, indices[n]) else n
  }

  /** Everything that both checks accept. */
  ghost predicate Passes(ev: (int, int) -> int, total: int, t: Tree, nr: nat, signers: seq<Signer>, indices: seq<nat>,
                         vals: seq<Digest>)
  {
    && total > 0 && (forall s :: s in signers ==> WellFormed(s))
    && Count(Tickets(signers), |signers|) >= STM_K
    && (forall n :: 0 <= n < |signers| ==> Winning(ev, total, n, Tickets(signers)[n]))
    && Accepts(t.h, nr, Leaves(signers), indices, vals, t.Value(0))
  }

  /** What an accepted certificate shows against the root of a tree, of its first m signers, those with a batch
      index: the (leaf, lottery index) pairs are different, as many as their indices, and each pair whose registered
      stake is within the total wins the exact lottery with that stake, or sits at the one value just below the
      target. Every signer is among them unless signers are left without an index. Or a collision among the listed
      inputs is found. */
  lemma {:induction false} QuorumIsRegistered(ev: (int, int) -> int, total: int, t: Tree, nr: nat, signers: seq<Signer>,
                                              indices: seq<nat>, vals: seq<Digest>, m: nat)
    requires Passes(ev, total, t, nr, signers, indices, vals) && t.Sized()
    requires m == if |indices| < |signers| then |indices| else |signers|
    requires forall n, i :: 0 <= ev(n, i) < TWO512
    ensures |indices| >= |signers| ==> Count(Tickets(signers), m) >= STM_K
    ensures || Collides(t.h, CheckInputs(t, nr, Leaves(signers), indices, vals))
            || (var pairs := Pairs(Tickets(signers), m);
                && |Placed(pairs, PositionOf(t, nr, indices))| == Count(Tickets(signers), m)
                && forall p :: p in pairs ==>
                     && 0 <= p.0 < m && 0 <= LeafOf(t, nr, indices[p.0]) < |t.leaves|
                     && var leaf := t.leaves[LeafOf(t, nr, indices[p.0])];
                        && leaf == Leaf(signers[p.0]) && 0 <= p.1 < STM_M
                        && (RegisteredStake(leaf) <= total ==>
                              || Won(ev(p.0, p.1), RegisteredStake(leaf), total)
                              || ev(p.0, p.1) == Target(RegisteredStake(leaf), total) - 1))
  {
    hide Tree.Value, Tree.Npo, Collides, CheckInputs, Accepts, Target, Won, RegisteredStake, Leaf, Pairs, Count;
    BatchSound(t, nr, Leaves(signers), indices, vals);
    if !Collides(t.h, CheckInputs(t, nr, Leaves(signers), indices, vals)) {
      var tickets := Tickets(signers);
      forall n | 0 <= n < |signers|
        ensures 0 <= tickets[n].stake
      {
        assert signers[n] in signers;
      }
      forall n | 0 <= n < m
        ensures RegisteredStake(t.leaves[LeafOf(t, nr, indices[n])]) == tickets[n].stake
      {
        assert signers[n] in signers && Leaves(signers)[n] == Leaf(signers[n]);
        LeafRegisters(signers[n]);
      }
      QuorumIsExact(ev, total, tickets, m);
      PairsMembers(tickets, m);
      PlacedSize(Pairs(tickets, m), PositionOf(t, nr, indices));
    }
  }

  function Zero(n: int, i: int): int {
    0
  }

  lemma FirstIndices() returns (s: seq<int>)
    ensures |s| == STM_K && StrictlyIncreasing(s) && forall i :: i in s ==> 0 <= i < STM_M
  {
    var n: nat := STM_K;
    s := seq(n, i requires 0 <= i => i);
  }

  /** A signer without lottery indices, and one who wins a whole quorum of them at the hash value 0. */
  lemma QuorumOfTheSecond(signers: seq<Signer>)
    requires |signers| == 2 && signers[0].indices == [] && signers[1].stake == 1
    requires var s := signers[1].indices; |s| == STM_K && StrictlyIncreasing(s) && forall i :: i in s ==> 0 <= i < STM_M
    ensures Count(Tickets(signers), 1) == 0 && Count(Tickets(signers), 2) == STM_K
    ensures forall n :: 0 <= n < 2 ==> Winning(Zero, 1, n, Tickets(signers)[n])
  {
    hide Target, StrictlyIncreasing;
    assert 0 < Target(1, 1) by { TargetRange(1, 1); }
    assert StrictlyIncreasing([]) by { NothingIncreases(); }
    assert Count(Tickets(signers), 0) == 0;
  }

  lemma NothingIncreases()
    ensures StrictlyIncreasing([])
  {
  }

  lemma KeyOfLeaf(s: Signer)
    requires WellFormed(s)
    ensures Leaf(s)[..96] == s.mvk
  {
    hide BE;
  }

  /** With fewer batch indices than signers that count can be 0: in the tree of any two leaves of other keys there is
      an accepted certificate whose one indexed signer has no lottery index, and whose quorum is that of a key
      outside the tree. */
  lemma QuorumBeyondTheIndices(h: Hash, mvk: Bytes, next: Bytes, stranger: Bytes)
    returns (t: Tree, signers: seq<Signer>, vals: seq<Digest>)
    requires |mvk| == |stranger| == 96 && mvk != stranger && |next| == LEAF_LEN && next[..96] != stranger
    ensures t == Tree(h, [Leaf(Signer(mvk, 0, [])), next]) && t.Sized()
    ensures |signers| == 2 && signers[1].mvk == stranger && WellFormed(signers[1]) && Leaf(signers[1]) !in t.leaves
    ensures Passes(Zero, 1, t, 2, signers, [0], vals) && Count(Tickets(signers), 1) == 0
  {
    hide Tree.Value, Tree.Npo, HonestVals, Target, Winning, Count, Leaf, Positions, Accepts, StrictlyIncreasing,
      OnLevel, IsLow;
    var won := FirstIndices();
    var known, far := Signer(mvk, 0, []), Signer(stranger, 1, won);
    t, signers := Tree(h, [Leaf(known), next]), [known, far];
    OneLeafAndMore(t, Leaf(far));
    vals := HonestVals(t, Positions(t.Npo(), [0]), t.Npo() - 1);
    KeyOfLeaf(known);
    KeyOfLeaf(far);
    QuorumOfTheSecond(signers);
    assert Leaves(signers) == [Leaf(known), Leaf(far)];
  }

  /** The proof of leaf 0 of two, with one more signer. */
  lemma OneLeafAndMore(t: Tree, more: Bytes)
    requires |t.leaves| == 2
    ensures OnLevel(Positions(t.Npo(), [0]), t.Npo() - 1) && IsLow(t.Npo() - 1)
    ensures Accepts(t.h, 2, [t.leaves[0], more], [0], HonestVals(t, Positions(t.Npo(), [0]), t.Npo() - 1), t.Value(0))
  {
    hide Tree.Value, Tree.Npo, HonestVals, Positions, Accepts, NextPow2, OnLevel, IsLow;
    BatchComplete(t, [0]);
    assert seq(1, k requires 0 <= k < 1 => t.leaves[[0][k]]) == [t.leaves[0]];
    assert NextPow2(2) >= 2;
    BeyondIndicesIgnored(t.h, 2, [t.leaves[0]], [more], [0], HonestVals(t, Positions(t.Npo(), [0]), t.Npo() - 1),
                         t.Value(0));
    assert [t.leaves[0]] + [more] == [t.leaves[0], more];
  }
}
