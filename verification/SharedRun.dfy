/** A run in which two scripts use one registry insertion: the registry is created, and then the key of the evidence
    that both scripts show is inserted. */
module SharedRun {
  import opened Basics
  import opened Ledger
  import opened Scripts
  import opened WitnessLayout
  import opened SparseMerkle
  import opened WitnessBuilder
  import opened Runs
  import opened RegistryRuns
  import opened Bridge
  import opened RegistryLiveness
  import BurnReceipt
  import BurnUnlock

  // ---- the environment ----

  /** Two locks, a plain lock, the registry, the checkpoint and the key of the block range. */
  datatype Setting = Setting(one: Digest, other: Digest, plain: Digest, reg: Digest, checkpoint: Digest, range: Bytes) {
    predicate Apart() {
      one != other && plain !in {one, other} && reg !in {one, other, plain} && Short(range)
    }
  }

  /** A tree of one leaf is its own root. */
  function SingleLeaf(root: Bytes, size: nat, pos: nat, items: seq<Bytes>, leaf: Bytes): bool {
    size == 1 && pos == 0 && items == [] && root == leaf
  }

  /** The hash functions of `base` with these scripts; the registry is the one named after the outpoint [9]. */
  function World(base: Env, reg: Digest, script: Digest -> Script): Env {
    base.(script := (h: Digest) => if h == reg then Script.Registry(base.ckb([9])) else script(h), mmr := SingleLeaf)
  }

  function ProofOf(env: Env, range: Bytes, body: Bytes): Proof {
    Proof(body, Hex(env.b2b(body)), 0, 1, [], range, 0, 1, [])
  }

  /** The root over one block range of one transaction. */
  function RootOf(env: Env, range: Bytes, body: Bytes): Digest {
    env.b2s(Cat(range, Hex(env.b2b(body))))
  }

  lemma ProofIs(env: Env, range: Bytes, body: Bytes)
    requires env.mmr == SingleLeaf && |body| < U32 && Short(range)
    ensures Certified(env, RootOf(env, range, body), ProofOf(env, range, body)) && Packable(ProofOf(env, range, body))
    ensures ProofOf(env, range, body).body == body && Read(Transcode(ProofOf(env, range, body))).body == body
  {
    var p := ProofOf(env, range, body);
    assert Packable(p) by { hide Hex; }
    RoundTrip(p, []);
    hide Hex, Read, Transcode;
    assert Transcode(p) + [] == Transcode(p);
  }

  /** The amount of a cell. */
  lemma AmountOfOne(c: Cell, n: nat)
    requires c.data == LE(n, 16) && n < U32
    ensures SumAmounts([c]) == Some(n) && SumAmounts([]) == Some(0)
  {
    BurnUnlock.U128Bytes();
    FromLEOfLE(n, 16);
    hide FromLE, LE;
    assert [c][..0] == [] && c.data[..16] == c.data;
  }

  // ---- the run ----

  /** A cell of each lock, and a plain one to create the registry from. */
  function Start(s: Setting): State {
    State(map[[0] := Cell(s.one, None, []), [1] := Cell(s.other, None, []), [9] := Cell(s.plain, None, [])],
          {[0], [1], [9]})
  }

  ghost function RegistryCell(env: Env, s: Setting, keys: set<Digest>): Cell {
    Cell(s.plain, Some(s.reg), Root(env.smt, 256, keys))
  }

  /** The relayer's witness for the first insertion. */
  ghost function FirstInsertion(env: Env, key: Digest): Bytes {
    WitnessBytes(key, PathSiblings(env.smt, 256, {}, key))
  }

  function Checkpointed(s: Setting, root: Digest): Cell {
    Cell(s.plain, Some(s.checkpoint), LCKP + (root + LE(1, 8)))
  }

  /** The cells of both locks are spent under the same proof, and the registry goes from no key to this one. */
  ghost function Together(env: Env, s: Setting, root: Digest, key: Digest, proof: Bytes, tokens: seq<Cell>): Tx
    requires |tokens| <= 2
  {
    var shown := Some(WitnessArgs(Some(proof), Some(proof)));
    Tx([[0], [1], [2]], [Cell(s.one, None, []), Cell(s.other, None, []), RegistryCell(env, s, {})],
       [[3], [4], [5]][..|tokens| + 1], tokens + [RegistryCell(env, s, {key})], [Checkpointed(s, root)],
       [shown, shown, Some(WitnessArgs(None, Some(FirstInsertion(env, key))))])
  }

  /** What the locks see. */
  lemma TogetherIs(env: Env, s: Setting, root: Digest, key: Digest, proof: Bytes, tokens: seq<Cell>)
    requires s.Apart() && |tokens| <= 2
    ensures var tx := Together(env, s, root, key, proof, tokens);
            && FirstLock(tx.ins, s.one) == 0 && FirstLock(tx.ins, s.other) == 1 && FirstOf(tx.ins, s.reg) == 2
            && |SelectLock(tx.ins, s.one)| == |SelectLock(tx.ins, s.other)| == 1
            && WitnessAt(tx, 0) == WitnessAt(tx, 1) == Some(WitnessArgs(Some(proof), Some(proof)))
            && InsertsKey(tx, s.reg, key)
            && BurnUnlock.CertRoot(tx.deps, s.checkpoint) == Some(root)
            && Checkpoint(tx.deps, s.checkpoint) == Agreed(root, 1)
  {
    hide LE, FromLE, Checkpoint, BurnUnlock.CertRoot, Root, FirstOf, FirstLock, SelectLock, Checkpointed;
    ThreeLocks(Cell(s.one, None, []), Cell(s.other, None, []), RegistryCell(env, s, {}), s.reg);
    OneCheckpoint(s, root);
    FirstInsertionReveals(env, key);
  }

  lemma FirstInsertionReveals(env: Env, key: Digest)
    ensures |FirstInsertion(env, key)| >= 32 && FirstInsertion(env, key)[..32] == key
  {
    hide PathSiblings;
    WitnessBytesParse(key, PathSiblings(env.smt, 256, {}, key));
  }

  lemma ThreeLocks(a: Cell, b: Cell, c: Cell, reg: Digest)
    requires a.lock != b.lock && a.lock != c.lock && b.lock != c.lock && a.typ == b.typ == None && c.typ == Some(reg)
    ensures FirstOf([a, b, c], reg) == 2 && FirstLock([a, b, c], a.lock) == 0 && FirstLock([a, b, c], b.lock) == 1
    ensures |SelectLock([a, b, c], a.lock)| == |SelectLock([a, b, c], b.lock)| == 1
    ensures Select([a, b, c], reg) == [c]
  {
    assert [a, b, c][1..] == [b, c] && [b, c][1..] == [c] && [c][1..] == [];
    assert FirstOf([c], reg) == 0 && FirstOf([b, c], reg) == 1;
    assert Select([], reg) == [] && Select([c], reg) == [c] && Select([b, c], reg) == [c];
    assert SelectLock([], a.lock) == [] && SelectLock([c], a.lock) == [] && SelectLock([b, c], a.lock) == [];
    assert SelectLock([], b.lock) == [] && SelectLock([c], b.lock) == [] && SelectLock([b, c], b.lock) == [b];
  }

  lemma OneCheckpoint(s: Setting, root: Digest)
    ensures BurnUnlock.CertRoot([Checkpointed(s, root)], s.checkpoint) == Some(root)
    ensures Checkpoint([Checkpointed(s, root)], s.checkpoint) == Agreed(root, 1)
  {
    hide LE, FromLE;
    var dep := Checkpointed(s, root);
    CheckpointData(root);
    assert CheckpointOf(dep, s.checkpoint) == Some((root, 1));
    hide CheckpointOf;
    assert ScanDeps([dep], s.checkpoint, 0) == Nothing;
  }

  lemma CheckpointData(root: Digest)
    ensures var data := LCKP + (root + LE(1, 8));
            |data| == 44 && data[..4] == LCKP && data[4..36] == root && FromLE(data[36..44]) == 1
  {
    var data := LCKP + (root + LE(1, 8));
    assert Pow256(4) == U32 && Pow256(8) == U64;
    FromLEOfLE(1, 8);
    hide LE, FromLE;
    AtWhole(data);
    AtSplit(data, 0, LCKP, root + LE(1, 8));
    AtSplit(data, 4, root, LE(1, 8));
  }

  /** The registry takes the key. */
  lemma RegistryTakes(env: Env, s: Setting, root: Digest, key: Digest, proof: Bytes, tokens: seq<Cell>)
    requires s.Apart() && env.script(s.reg).Registry? && |env.script(s.reg).args| == 32
    requires |tokens| <= 2 && forall c :: c in tokens ==> c.typ != Some(s.reg)
    ensures TypeVerdict(env, Together(env, s, root, key, proof, tokens), s.reg) == 0
  {
    hide Root, FirstOf, FirstLock, SelectLock, Select, Checkpointed, FirstInsertion;
    var tx, before, after := Together(env, s, root, key, proof, tokens), RegistryCell(env, s, {}),
        RegistryCell(env, s, {key});
    ThreeLocks(Cell(s.one, None, []), Cell(s.other, None, []), before, s.reg);
    assert Select(tx.ins, s.reg) == [before];
    assert Select(tx.outs, s.reg) == [after] by {
      BurnReceipt.SelectAppend(tokens, [after], s.reg);
      NotSelected(tokens, s.reg);
      SelectSingle(after, s.reg);
    }
    FirstInsertionAccepted(env, env.script(s.reg).args, key, tx.ops[0]);
  }

  lemma {:induction false} NotSelected(cells: seq<Cell>, th: Digest)
    requires forall c :: c in cells ==> c.typ != Some(th)
    ensures Select(cells, th) == []
  {
    if cells != [] { NotSelected(cells[1..], th); }
  }

  lemma FirstInsertionAccepted(env: Env, args: Bytes, key: Digest, first: Bytes)
    requires |args| == 32
    ensures NullifierRegistry.Verdict(env.smt, env.ckb,
              NullifierRegistry.GroupView(args, [Root(env.smt, 256, {})], [Root(env.smt, 256, {key})], Some(first),
                                          Some(Some(FirstInsertion(env, key))))) == 0
  {
    hide Root, PathSiblings, NullifierRegistry.Verdict, WitnessBytes;
    var none: seq<Digest> := [];
    assert Elements(none) == {} && Elements(none) + {key} == {key};
    HonestWitnessAccepted(env.smt, env.ckb, args, none, key, Some(first));
  }

  /** All scripts accept when both locks do, and the types of the tokens. */
  lemma TogetherAccepted(env: Env, s: Setting, root: Digest, key: Digest, proof: Bytes, tokens: seq<Cell>)
    requires s.Apart() && env.script(s.reg).Registry? && |env.script(s.reg).args| == 32 && PlainLock(env, s.plain)
    requires |tokens| <= 2 && forall c :: c in tokens ==> c.typ.Some? && c.typ.value != s.reg
    requires var tx := Together(env, s, root, key, proof, tokens);
             && LockVerdict(env, tx, s.one) == 0 && LockVerdict(env, tx, s.other) == 0
             && forall c :: c in tokens ==> TypeVerdict(env, tx, c.typ.value) == 0
    ensures Accepted(env, Together(env, s, root, key, proof, tokens))
  {
    hide TypeVerdict, LockVerdict, Checkpointed, FirstInsertion, Root, Select, SelectLock;
    var tx := Together(env, s, root, key, proof, tokens);
    RegistryTakes(env, s, root, key, proof, tokens);
    forall th: Digest | Touches(tx, th)
      ensures TypeVerdict(env, tx, th) == 0
    {
      if Select(tx.ins, th) != [] { assert Select(tx.ins, th)[0] in tx.ins; }
      else { assert Select(tx.outs, th)[0] in tx.outs; }
    }
    forall lh: Digest | SelectLock(tx.ins, lh) != []
      ensures LockVerdict(env, tx, lh) == 0
    {
      SelectedLock(tx.ins, lh);
      if lh == s.plain { assert LockVerdict(env, tx, lh) == 0 by { PlainPasses(env, tx, lh); } }
    }
  }

  lemma PlainPasses(env: Env, tx: Tx, lh: Digest)
    requires PlainLock(env, lh)
    ensures LockVerdict(env, tx, lh) == 0
  {
  }

  lemma {:induction false} SelectedLock(cells: seq<Cell>, lh: Digest)
    requires SelectLock(cells, lh) != []
    ensures exists c :: c in cells && c.lock == lh
  {
    if cells[0].lock != lh {
      SelectedLock(cells[1..], lh);
    } else {
      assert cells[0] in cells;
    }
  }

  /** From the start the registry can be created, and then this transaction applies. */
  lemma TogetherRuns(env: Env, s: Setting, root: Digest, key: Digest, proof: Bytes, tokens: seq<Cell>)
    returns (create: Tx)
    requires s.Apart() && |tokens| <= 2 && env.script(s.reg) == Script.Registry(env.ckb([9])) && PlainLock(env, s.plain)
    requires Accepted(env, Together(env, s, root, key, proof, tokens))
    ensures ValidRun(env, Start(s), [create, Together(env, s, root, key, proof, tokens)]) && NoneLive(Start(s), s.reg)
  {
    hide Accepted, Checkpointed, FirstInsertion, Root, CanApply, After, NoneLive;
    var start, tx := Start(s), Together(env, s, root, key, proof, tokens);
    assert NoneLive(start, s.reg) by { NothingTyped(s); }
    create := RegistryCanBeCreated(env, start, s.reg, [9], [2], {});
    Created(env, s, root, key, proof, tokens);
    var txs := [create, tx];
    assert txs[..1] == [create];
  }

  lemma NothingTyped(s: Setting)
    ensures NoneLive(Start(s), s.reg) && WfState(Start(s))
  {
  }

  lemma Created(env: Env, s: Setting, root: Digest, key: Digest, proof: Bytes, tokens: seq<Cell>)
    requires |tokens| <= 2 && Run(Start(s), [Creation(env, s.reg, [9], Cell(s.plain, None, []), [2], {})])
    ensures CanApply(After(Start(s), [Creation(env, s.reg, [9], Cell(s.plain, None, []), [2], {})]),
                     Together(env, s, root, key, proof, tokens))
  {
    hide Checkpointed, FirstInsertion, Root, Apply, CanApply;
    var create := Creation(env, s.reg, [9], Cell(s.plain, None, []), [2], {});
    LastStep(Start(s), [create]);
    hide Run;
    assert [create][..0] == [];
    CanFollow(env, s, root, key, proof, tokens, After(Start(s), [create]));
  }

  lemma CanFollow(env: Env, s: Setting, root: Digest, key: Digest, proof: Bytes, tokens: seq<Cell>, t: State)
    requires |tokens| <= 2 && t.created == {[0], [1], [9], [2]}
    requires [0] in t.live && t.live[[0]] == Cell(s.one, None, []) && [1] in t.live
    requires t.live[[1]] == Cell(s.other, None, [])
    requires [2] in t.live && t.live[[2]] == RegistryCell(env, s, {})
    ensures CanApply(t, Together(env, s, root, key, proof, tokens))
  {
    hide Checkpointed, FirstInsertion, Root;
  }
}
