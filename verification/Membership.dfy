/** What the two-level proof of the leg scripts shows, for a verifier that accepts only the leaves of a tree: the
    body is in a block range that the certified root commits to. */
module Membership {
  import opened Basics
  import opened Ledger
  import opened Scripts
  import opened WitnessLayout
  import BurnUnlock
  import XadaMint
  import XadaOwner
  import BoundAsset
  import SharedRun

  /** A block range: its key and the root over the transactions of its blocks. */
  datatype Range = Range(key: Bytes, sub: Digest)

  /** `leaves` says what a root commits to; the verifier accepts nothing else. */
  ghost predicate Sound(env: Env, leaves: Bytes -> set<Bytes>) {
    forall root, size, pos, items, leaf :: env.mmr(root, size, pos, items, leaf) ==> leaf in leaves(root)
  }

  /** And it accepts every leaf, with some proof. */
  ghost predicate Complete(env: Env, leaves: Bytes -> set<Bytes>) {
    forall root, leaf :: leaf in leaves(root) ==>
      exists size: nat, pos: nat, items :: size < U64 && pos < U64 && env.mmr(root, size, pos, items, leaf)
  }

  /** The leaves of `root` are the hashes of key and root of these ranges, in this order. */
  ghost predicate CommitsTo(env: Env, leaves: Bytes -> set<Bytes>, root: Bytes, ranges: set<Range>) {
    leaves(root) == set r | r in ranges :: env.b2s(Cat(r.key, r.sub))
  }

  ghost function RangeInputs(ranges: set<Range>, p: Proof): set<Bytes> {
    (set r | r in ranges :: Cat(r.key, r.sub)) + {Cat(p.rangeKey, p.subRoot)}
  }

  /** The hash of the body, in lower-case hexadecimal, is a leaf under the root of a range: that of the range key
      shown, when the sub-root shown has 32 bytes. Or the hashes of two ranges collide. */
  ghost predicate InRange(env: Env, leaves: Bytes -> set<Bytes>, ranges: set<Range>, p: Proof) {
    || Collides(env.b2s, RangeInputs(ranges, p))
    || (exists r :: r in ranges && r.key + r.sub == p.rangeKey + p.subRoot && Hex(env.b2b(p.body)) in leaves(p.subRoot)
                    && (|p.subRoot| == 32 ==> r == Range(p.rangeKey, p.subRoot)))
  }

  /** What an accepted proof shows. */
  lemma ProofShowsRange(env: Env, leaves: Bytes -> set<Bytes>, root: Bytes, ranges: set<Range>, p: Proof)
    requires Sound(env, leaves) && CommitsTo(env, leaves, root, ranges) && Certified(env, root, p)
    ensures InRange(env, leaves, ranges, p)
  {
    hide Hex, Collides;
    var all, shown := RangeInputs(ranges, p), Cat(p.rangeKey, p.subRoot);
    assert env.b2s(shown) in leaves(root);
    var r :| r in ranges && env.b2s(Cat(r.key, r.sub)) == env.b2s(shown);
    assert Cat(r.key, r.sub) in all && shown in all;
    if Cat(r.key, r.sub) != shown {
      Differ(env.b2s, all, Cat(r.key, r.sub), shown);
    } else if |p.subRoot| == 32 {
      assert shown[|r.key|..] == r.sub && shown[..|r.key|] == r.key;
      assert shown[|p.rangeKey|..] == p.subRoot && shown[..|p.rangeKey|] == p.rangeKey;
    }
  }

  lemma Differ(h: Hash, all: set<Bytes>, a: Bytes, b: Bytes)
    requires a in all && b in all && a != b && h(a) == h(b)
    ensures Collides(h, all)
  {
  }

  /** And for every body of every range there is an accepted proof, whatever the range key. */
  lemma RangeHasProof(env: Env, leaves: Bytes -> set<Bytes>, root: Bytes, ranges: set<Range>, r: Range, body: Bytes)
    returns (p: Proof)
    requires Complete(env, leaves) && CommitsTo(env, leaves, root, ranges) && r in ranges
    requires Hex(env.b2b(body)) in leaves(r.sub)
    ensures p.body == body && p.rangeKey == r.key && p.subRoot == r.sub && Certified(env, root, p)
  {
    hide Hex;
    var leaf, top := Hex(env.b2b(body)), env.b2s(Cat(r.key, r.sub));
    assert top in leaves(root);
    var subSize: nat, subPos: nat, subItems :| env.mmr(r.sub, subSize, subPos, subItems, leaf);
    var size: nat, pos: nat, items :| env.mmr(root, size, pos, items, top);
    p := Proof(body, r.sub, subPos, subSize, subItems, r.key, pos, size, items);
  }

  /** Of another length the sub-root may begin inside the key of the range: for every body there is a certified proof
      under a key that is not that of the range. */
  lemma AnotherSplit(env: Env, key: Bytes, body: Bytes)
    returns (leaves: Bytes -> set<Bytes>, root: Bytes, r: Range, p: Proof)
    requires env.mmr == SharedRun.SingleLeaf
    ensures Sound(env, leaves) && CommitsTo(env, leaves, root, {r})
    ensures p.body == body && p.rangeKey == key != r.key && |p.subRoot| == 64 && Certified(env, root, p)
  {
    hide Hex;
    var h := Hex(env.b2b(body));
    leaves := (x: Bytes) => {x};
    r := Range(key + h[..32], h[32..]);
    assert Cat(r.key, r.sub) == key + h && |r.key| != |key|;
    root := env.b2s(Cat(r.key, r.sub));
    p := Proof(body, h, 0, 1, [], key, 0, 1, []);
    assert leaves(root) == set x | x in {r} :: env.b2s(Cat(x.key, x.sub));
  }

  // ---- the four legs ----

  /** A release, */
  lemma ReleaseInRange(env: Env, leaves: Bytes -> set<Bytes>, ranges: set<Range>, args: Bytes, tx: Tx, self: Digest)
    returns (root: Bytes, p: Proof)
    requires Sound(env, leaves) && BurnUnlock.Verdict(env, args, tx, self) == 0
    ensures |args| >= BurnUnlock.ARGS_LEN
    ensures BurnUnlock.CertRoot(tx.deps, BurnUnlock.TermsOf(args).checkpoint) == Some(root)
    ensures p.body == BurnUnlock.BurnBody(env, args, tx, self)
    ensures CommitsTo(env, leaves, root, ranges) ==> InRange(env, leaves, ranges, p)
  {
    hide InRange, CommitsTo, Sound, Read, SelectLock, FirstLock, BurnUnlock.CertRoot, InsertsKey, WitnessAt;
    root := BurnUnlock.CertRoot(tx.deps, BurnUnlock.TermsOf(args).checkpoint).value;
    p := Read(WitnessAt(tx, FirstLock(tx.ins, self)).value.lock.value);
    if CommitsTo(env, leaves, root, ranges) { ProofShowsRange(env, leaves, root, ranges, p); }
  }

  /** a mint by the type script, */
  lemma MintInRange(env: Env, leaves: Bytes -> set<Bytes>, ranges: set<Range>, args: Bytes, tx: Tx, self: Digest)
    returns (p: Proof)
    requires Sound(env, leaves) && XadaMint.Mints(env, args, tx, self)
    ensures |args| >= XadaMint.ARGS_LEN && p.body == XadaMint.EscrowBody(env, args, tx, self)
    ensures var c := Checkpoint(tx.deps, XadaMint.TermsOf(args).checkpoint);
            c.Agreed? && (CommitsTo(env, leaves, c.root, ranges) ==> InRange(env, leaves, ranges, p))
  {
    hide InRange, CommitsTo, Sound, Read, SumAmounts, GroupWitness, Checkpoint, XadaMint.EscrowVerdict;
    p := Read(GroupWitness(tx, self).value.inputType.value);
    var c := Checkpoint(tx.deps, XadaMint.TermsOf(args).checkpoint);
    assert c.Agreed? && Certified(env, c.root, p);
    if CommitsTo(env, leaves, c.root, ranges) { ProofShowsRange(env, leaves, c.root, ranges, p); }
  }

  /** a mint by the owner lock, */
  lemma OwnerMintInRange(env: Env, leaves: Bytes -> set<Bytes>, ranges: set<Range>, args: Bytes, tx: Tx, self: Digest,
                         body: Bytes) returns (p: Proof)
    requires Sound(env, leaves) && XadaOwner.Mints(env, args, tx, self, body)
    ensures |args| >= XadaOwner.ARGS_LEN && p.body == body
    ensures var c := Checkpoint(tx.deps, XadaOwner.TermsOf(args).checkpoint);
            c.Agreed? && (CommitsTo(env, leaves, c.root, ranges) ==> InRange(env, leaves, ranges, p))
  {
    hide InRange, CommitsTo, Sound, Read, SumAmounts, WitnessAt, FirstLock, Checkpoint, XadaMint.EscrowVerdict,
      XadaOwner.Tokens;
    p := Read(WitnessAt(tx, FirstLock(tx.ins, self)).value.lock.value);
    var c := Checkpoint(tx.deps, XadaOwner.TermsOf(args).checkpoint);
    assert c.Agreed? && Certified(env, c.root, p);
    if CommitsTo(env, leaves, c.root, ranges) { ProofShowsRange(env, leaves, c.root, ranges, p); }
  }

  /** and every shape of a bound asset show a body of a certified range. */
  lemma AssetInRange(env: Env, leaves: Bytes -> set<Bytes>, ranges: set<Range>, args: Bytes, tx: Tx, self: Digest)
    returns (p: Proof)
    requires Sound(env, leaves) && BoundAsset.Verdict(env, args, tx, self) == 0
    ensures p.body == BoundAsset.ShownBody(env, args, tx, self)
    ensures var c := Checkpoint(tx.deps, env.lckp);
            c.Agreed? && (CommitsTo(env, leaves, c.root, ranges) ==> InRange(env, leaves, ranges, p))
  {
    hide InRange, CommitsTo, Sound, BoundAsset.Verdict, Checkpoint, BoundAsset.Legal;
    BoundAsset.AcceptedIsLegal(env, args, tx, self);
    p := BoundAsset.ShownProof(env, args, tx, self);
    var c := Checkpoint(tx.deps, env.lckp);
    if CommitsTo(env, leaves, c.root, ranges) { ProofShowsRange(env, leaves, c.root, ranges, p); }
  }
}
