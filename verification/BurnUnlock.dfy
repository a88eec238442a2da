/** The lock that releases a CKB cell against a certified burn (`burn_gated_unlock_v2`). */
module BurnUnlock {
  import opened Basics
  import opened Ledger
  import opened Scripts
  import opened WitnessLayout
  import opened MintField

  const ARGS_LEN: nat := 108

  /** Checkpoint type (32), amount (16), policy (28), registry type (32) and the asset name. */
  datatype Terms = Terms(checkpoint: Digest, amount: nat, policy: Bytes, registry: Digest, name: Bytes)

  function TermsOf(args: Bytes): (t: Terms)
    requires |args| >= ARGS_LEN
    ensures t.amount < U128
  {
    U128Bytes();
    Terms(args[..32], FromLE(args[32..48]), args[48..76], args[76..108], args[108..])
  }

  lemma U128Bytes()
    ensures Pow256(16) == U128
  {
    assert Pow256(4) == 0x1_0000_0000;
    assert Pow256(8) == 256 * (256 * (256 * (256 * Pow256(4))));
    assert Pow256(12) == 256 * (256 * (256 * (256 * Pow256(8))));
    assert Pow256(16) == 256 * (256 * (256 * (256 * Pow256(12))));
  }

  /** The transaction-set root of the first dependency that is the checkpoint. */
  function CertRoot(deps: seq<Cell>, checkpoint: Digest): Option<Bytes> {
    if deps == [] then None
    else
      var c := deps[0];
      if |c.data| >= 36 && c.data[..4] == LCKP && c.typ == Some(checkpoint) then Some(c.data[4..36])
      else CertRoot(deps[1..], checkpoint)
  }

  method CertRootFromCheckpoint(deps: seq<Cell>, checkpoint: Digest) returns (r: Option<Bytes>)
    ensures r == CertRoot(deps, checkpoint)
  {
    var i := 0;
    while i < |deps|
      invariant 0 <= i <= |deps| && CertRoot(deps, checkpoint) == CertRoot(deps[i..], checkpoint)
    {
      var data := deps[i].data;
      if |data| >= 36 && data[..4] == LCKP && deps[i].typ == Some(checkpoint) { return Some(data[4..36]); }
      i := i + 1;
    }
    return None;
  }

  /** The nullifier of a burn. */
  function Key(env: Env, body: Bytes): Digest {
    env.b2b([0x02] + body)
  }

  /** The exit code after the witness was read. */
  function ReleaseVerdict(env: Env, t: Terms, tx: Tx, root: Bytes, p: Proof): int
    requires t.amount < U128
  {
    if !SubProof(env, p) then 5
    else if !MasterProof(env, root, p) then 6
    else if MintQty(p.body, t.policy, t.name) != RequiredQty(t.amount) then 7
    else if !InsertsKey(tx, t.registry, Key(env, p.body)) then 15
    else 0
  }

  /** The exit code of the lock `self`. */
  function Verdict(env: Env, args: Bytes, tx: Tx, self: Digest): int {
    if |args| < ARGS_LEN then 2
    else
      var t := TermsOf(args);
      if |SelectLock(tx.ins, self)| > 1 then 14
      else
        match CertRoot(tx.deps, t.checkpoint)
        case None => 10
        case Some(root) =>
          match WitnessAt(tx, FirstLock(tx.ins, self))
          case None => 3
          case Some(w) =>
            match w.lock
            case None => 4
            case Some(raw) => ReleaseVerdict(env, t, tx, root, Read(raw))
  }

  method ProgramEntry(env: Env, args: Bytes, tx: Tx, self: Digest) returns (code: int)
    ensures code == Verdict(env, args, tx, self)
  {
    hide MintQty, Read, InsertsKey, SubProof, MasterProof, SelectLock, FirstLock;
    if |args| < ARGS_LEN { return 2; }
    var t := TermsOf(args);
    if |SelectLock(tx.ins, self)| > 1 { return 14; }
    var root := CertRootFromCheckpoint(tx.deps, t.checkpoint);
    if root == None { return 10; }
    var w := WitnessAt(tx, FirstLock(tx.ins, self));
    if w == None { return 3; }
    if w.value.lock == None { return 4; }
    var p := ReadProof(w.value.lock.value);
    if !SubProof(env, p) { return 5; }
    if !MasterProof(env, root.value, p) { return 6; }
    var burned := ComputeMintQty(p.body, t.policy, t.name);
    if burned != RequiredQty(t.amount) { return 7; }
    var ok := RegistryInsertsKey(tx, t.registry, Key(env, p.body));
    return if ok then 0 else 15;
  }

  /** The burn that an accepted release shows. */
  function BurnBody(env: Env, args: Bytes, tx: Tx, self: Digest): Bytes
    requires Verdict(env, args, tx, self) == 0
  {
    Read(WitnessAt(tx, FirstLock(tx.ins, self)).value.lock.value).body
  }

  /** The lock accepts, showing `body`. */
  predicate Releases(env: Env, args: Bytes, tx: Tx, self: Digest, body: Bytes) {
    Verdict(env, args, tx, self) == 0 && BurnBody(env, args, tx, self) == body
  }

  /** What an accepted release has shown about the burn. */
  lemma ReleaseMeans(env: Env, args: Bytes, tx: Tx, self: Digest)
    requires Verdict(env, args, tx, self) == 0
    ensures |args| >= ARGS_LEN
    ensures var t, body := TermsOf(args), BurnBody(env, args, tx, self);
            && |SelectLock(tx.ins, self)| <= 1
            && MintQty(body, t.policy, t.name) == RequiredQty(t.amount)
            && InsertsKey(tx, t.registry, Key(env, body))
            && (exists c, p: Proof ::
                  && c in tx.deps && c.typ == Some(t.checkpoint) && |c.data| >= 36 && c.data[..4] == LCKP
                  && p.body == body && Certified(env, c.data[4..36], p))
  {
    hide MintQty, Read, InsertsKey, SubProof, MasterProof, SelectLock, FirstLock;
    var t := TermsOf(args);
    var c := CheckpointCell(tx.deps, t.checkpoint);
    var p := Read(WitnessAt(tx, FirstLock(tx.ins, self)).value.lock.value);
    assert p.body == BurnBody(env, args, tx, self) && Certified(env, c.data[4..36], p);
  }

  /** When the relayer's witness is in place, the lock opens exactly on certified evidence of the required quantity
      whose nullifier is inserted here. */
  lemma ReleaseExact(env: Env, args: Bytes, tx: Tx, self: Digest, root: Bytes, p: Proof)
    requires |args| >= ARGS_LEN && |SelectLock(tx.ins, self)| <= 1
    requires CertRoot(tx.deps, TermsOf(args).checkpoint) == Some(root)
    requires WitnessAt(tx, FirstLock(tx.ins, self)).Some? && Packable(p)
    requires WitnessAt(tx, FirstLock(tx.ins, self)).value.lock == Some(Transcode(p))
    ensures Verdict(env, args, tx, self) == 0 <==>
              && Certified(env, root, p)
              && MintQty(p.body, TermsOf(args).policy, TermsOf(args).name) == RequiredQty(TermsOf(args).amount)
              && InsertsKey(tx, TermsOf(args).registry, Key(env, p.body))
  {
    hide MintQty, RequiredQty, Read, Transcode, Packable, InsertsKey, SubProof, MasterProof, SelectLock, FirstLock,
      WitnessAt, TermsOf, CertRoot;
    RoundTrip(p, []);
    assert Transcode(p) + [] == Transcode(p);
  }

  lemma {:induction false} CheckpointCell(deps: seq<Cell>, checkpoint: Digest) returns (c: Cell)
    requires CertRoot(deps, checkpoint).Some?
    ensures c in deps && c.typ == Some(checkpoint) && |c.data| >= 36 && c.data[..4] == LCKP
    ensures CertRoot(deps, checkpoint) == Some(c.data[4..36])
  {
    var first := deps[0];
    if |first.data| >= 36 && first.data[..4] == LCKP && first.typ == Some(checkpoint) {
      c := first;
    } else {
      c := CheckpointCell(deps[1..], checkpoint);
    }
  }
}
