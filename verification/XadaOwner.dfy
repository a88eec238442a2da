/** The owner lock of the χADA xUDT (`xada_mint_owner`): the mint rule of `XadaMint` under a lock script. */
module XadaOwner {
  import opened Basics
  import opened Ledger
  import opened Scripts
  import opened WitnessLayout
  import opened EscrowWalk
  import XadaMint

  const ARGS_LEN: nat := 66

  /** A salt byte, then checkpoint type (32), registry type (32) and the escrow address. */
  function TermsOf(args: Bytes): XadaMint.Terms
    requires |args| >= ARGS_LEN
  {
    XadaMint.Terms(args[1..33], args[33..65], args[65..])
  }

  /** `is_xada`: an xUDT whose args start with the owner. */
  predicate IsXada(env: Env, c: Cell, owner: Digest) {
    && c.typ.Some? && env.script(c.typ.value).Xudt?
    && |env.script(c.typ.value).args| >= 32 && env.script(c.typ.value).args[..32] == owner
  }

  /** The χADA cells of the owner among `cells`. */
  function Tokens(env: Env, cells: seq<Cell>, owner: Digest): seq<Cell> {
    if cells == [] then []
    else (if IsXada(env, cells[0], owner) then [cells[0]] else []) + Tokens(env, cells[1..], owner)
  }

  lemma {:induction false} TokensAre(env: Env, cells: seq<Cell>, owner: Digest)
    ensures forall c :: c in Tokens(env, cells, owner) <==> c in cells && IsXada(env, c, owner)
  {
    if cells != [] {
      TokensAre(env, cells[1..], owner);
    }
  }

  lemma {:induction false} TokensAppend(env: Env, a: seq<Cell>, b: seq<Cell>, owner: Digest)
    ensures Tokens(env, a + b, owner) == Tokens(env, a, owner) + Tokens(env, b, owner)
  {
    hide IsXada;
    if a == [] {
      assert a + b == b;
    } else {
      TokensAppend(env, a[1..], b, owner);
      assert (a + b)[1..] == a[1..] + b;
    }
  }

  lemma TokensLast(env: Env, cells: seq<Cell>, owner: Digest, i: nat)
    requires i < |cells|
    ensures Tokens(env, cells[..i + 1], owner)
            == Tokens(env, cells[..i], owner) + if IsXada(env, cells[i], owner) then [cells[i]] else []
  {
    hide IsXada;
    TokensAppend(env, cells[..i], [cells[i]], owner);
    assert cells[..i + 1] == cells[..i] + [cells[i]] && [cells[i]][1..] == [];
  }

  lemma TokensPrefix(env: Env, cells: seq<Cell>, owner: Digest, i: nat)
    requires i <= |cells|
    ensures |Tokens(env, cells[..i], owner)| <= |Tokens(env, cells, owner)|
    ensures Tokens(env, cells, owner)[..|Tokens(env, cells[..i], owner)|] == Tokens(env, cells[..i], owner)
  {
    TokensAppend(env, cells[..i], cells[i..], owner);
    assert cells == cells[..i] + cells[i..];
  }

  method SumXada(env: Env, cells: seq<Cell>, owner: Digest) returns (r: Option<nat>)
    ensures r == SumAmounts(Tokens(env, cells, owner))
  {
    hide Tokens, SumAmounts, IsXada;
    var sum: nat, i := 0, 0;
    NoTokens(env, owner);
    assert cells[..0] == [];
    while i < |cells|
      invariant 0 <= i <= |cells| && SumAmounts(Tokens(env, cells[..i], owner)) == Some(sum)
    {
      TokensLast(env, cells, owner, i);
      if IsXada(env, cells[i], owner) {
        SumOneMore(Tokens(env, cells[..i], owner), cells[i]);
        var d := cells[i].data;
        if |d| < 16 || sum + FromLE(d[..16]) >= U128 {
          TokensPrefix(env, cells, owner, i + 1);
          SumFails(Tokens(env, cells, owner), |Tokens(env, cells[..i + 1], owner)|);
          return None;
        }
        sum := sum + FromLE(d[..16]);
      } else {
        assert Tokens(env, cells[..i], owner) + [] == Tokens(env, cells[..i], owner);
      }
      i := i + 1;
    }
    assert cells[..i] == cells;
    return Some(sum);
  }

  lemma NoTokens(env: Env, owner: Digest)
    ensures SumAmounts(Tokens(env, [], owner)) == Some(0)
  {
  }

  method XadaOutputsAt(env: Env, cells: seq<Cell>, owner: Digest, recipient: Bytes) returns (ok: bool)
    ensures ok <==> AllAt(Tokens(env, cells, owner), recipient)
  {
    hide IsXada, Tokens;
    TokensAre(env, cells, owner);
    var i := 0;
    while i < |cells|
      invariant 0 <= i <= |cells|
      invariant forall k :: 0 <= k < i && IsXada(env, cells[k], owner)
                            ==> cells[k].lock == recipient && cells[k].lock != seq(32, i => 0)
    {
      if IsXada(env, cells[i], owner) {
        if cells[i].lock == seq(32, i => 0) || cells[i].lock != recipient {
          assert cells[i] in cells && cells[i] in Tokens(env, cells, owner);
          return false;
        }
      }
      i := i + 1;
    }
    return true;
  }

  function MintVerdict(env: Env, t: XadaMint.Terms, tx: Tx, self: Digest, minted: int): int {
    match Checkpoint(tx.deps, t.checkpoint)
    case Nothing => 10
    case Conflict => 53
    case Agreed(root, height) =>
      if height == 0 then 6
      else
        match WitnessAt(tx, FirstLock(tx.ins, self))
        case None => 3
        case Some(w) =>
          match w.lock
          case None => 4
          case Some(raw) =>
            var p := Read(raw);
            if !SubProof(env, p) then 5
            else if !MasterProof(env, root, p) then 7
            else XadaMint.EscrowVerdict(env, t, tx, Tokens(env, tx.outs, self), minted, p.body)
  }

  /** The exit code of the lock `self`. */
  function Verdict(env: Env, args: Bytes, tx: Tx, self: Digest): int {
    if |args| < ARGS_LEN then 2
    else
      match SumAmounts(Tokens(env, tx.ins, self))
      case None => 16
      case Some(inSum) =>
        match SumAmounts(Tokens(env, tx.outs, self))
        case None => 17
        case Some(outSum) =>
          if outSum < inSum then 0
          else if outSum == inSum then 18
          else if inSum != 0 then 19
          else MintVerdict(env, TermsOf(args), tx, self, outSum - inSum)
  }

  method ProgramEntry(env: Env, args: Bytes, tx: Tx, self: Digest) returns (code: int)
    ensures code == Verdict(env, args, tx, self)
  {
    hide EscrowOutput, DatumRecipient, DatumAmount, Read, InsertsKey, SubProof, MasterProof, SumAmounts, Checkpoint,
      AllAt, FirstLock, Tokens;
    if |args| < ARGS_LEN { return 2; }
    var t := TermsOf(args);
    var inSum := SumXada(env, tx.ins, self);
    if inSum == None { return 16; }
    var outSum := SumXada(env, tx.outs, self);
    if outSum == None { return 17; }
    if outSum.value < inSum.value { return 0; }
    if outSum.value == inSum.value { return 18; }
    var minted := outSum.value - inSum.value;
    if inSum.value != 0 { return 19; }
    var cert := CheckpointRoot(tx.deps, t.checkpoint);
    if cert == Nothing { return 10; }
    if cert == Conflict { return 53; }
    if cert.height == 0 { return 6; }
    var w := WitnessAt(tx, FirstLock(tx.ins, self));
    if w == None { return 3; }
    if w.value.lock == None { return 4; }
    var p := ReadProof(w.value.lock.value);
    if !SubProof(env, p) { return 5; }
    if !MasterProof(env, cert.root, p) { return 7; }
    var escrow := ComputeEscrowOutput(p.body, t.escrow);
    if escrow == None { return 20; }
    var (locked, datum) := escrow.value;
    var recipient := DatumRecipient(datum);
    if recipient == None || |recipient.value| != 32 { return 21; }
    var amount := DatumAmount(datum);
    if amount == None { return 22; }
    if amount.value < 0 || amount.value != locked { return 23; }
    if minted != locked { return 24; }
    var pinned := XadaOutputsAt(env, tx.outs, self, recipient.value);
    if !pinned { return 28; }
    var ok := RegistryInsertsKey(tx, t.registry, XadaMint.Key(env, p.body));
    return if ok then 0 else 25;
  }

  function InSum(env: Env, tx: Tx, self: Digest): nat
    requires SumAmounts(Tokens(env, tx.ins, self)).Some?
  {
    SumAmounts(Tokens(env, tx.ins, self)).value
  }

  function OutSum(env: Env, tx: Tx, self: Digest): nat
    requires SumAmounts(Tokens(env, tx.outs, self)).Some?
  {
    SumAmounts(Tokens(env, tx.outs, self)).value
  }

  /** The owner unlocks a mint, showing `body`. */
  predicate Mints(env: Env, args: Bytes, tx: Tx, self: Digest, body: Bytes) {
    && Verdict(env, args, tx, self) == 0
    && OutSum(env, tx, self) > InSum(env, tx, self)
    && Read(WitnessAt(tx, FirstLock(tx.ins, self)).value.lock.value).body == body
  }

  /** The owner unlocks only strict burns and exact mints from nothing: exactly the lovelace locked by a certified
      escrow transaction, all at its recipient, nullified under the key that the type script uses. */
  lemma OwnerMeans(env: Env, args: Bytes, tx: Tx, self: Digest)
    requires Verdict(env, args, tx, self) == 0
    ensures |args| >= ARGS_LEN
    ensures SumAmounts(Tokens(env, tx.ins, self)).Some? && SumAmounts(Tokens(env, tx.outs, self)).Some?
    ensures || OutSum(env, tx, self) < InSum(env, tx, self)
            || (exists p: Proof :: Mints(env, args, tx, self, p.body) && MintedAgainst(env, args, tx, self, p))
  {
    hide EscrowOutput, DatumRecipient, DatumAmount, Read, InsertsKey, SubProof, MasterProof, SumAmounts, Checkpoint,
      AllAt, FirstLock, Tokens, WitnessAt;
    if OutSum(env, tx, self) >= InSum(env, tx, self) {
      var p := Read(WitnessAt(tx, FirstLock(tx.ins, self)).value.lock.value);
      assert Mints(env, args, tx, self, p.body) && MintedAgainst(env, args, tx, self, p);
    }
  }

  /** The conditions of an exact mint. */
  predicate MintedAgainst(env: Env, args: Bytes, tx: Tx, self: Digest, p: Proof)
    requires |args| >= ARGS_LEN && SumAmounts(Tokens(env, tx.ins, self)).Some?
    requires SumAmounts(Tokens(env, tx.outs, self)).Some?
  {
    var t := TermsOf(args);
    && InSum(env, tx, self) == 0
    && Checkpoint(tx.deps, t.checkpoint).Agreed? && Checkpoint(tx.deps, t.checkpoint).height > 0
    && Certified(env, Checkpoint(tx.deps, t.checkpoint).root, p)
    && EscrowOutput(p.body, t.escrow).Some?
    && var (locked, datum) := EscrowOutput(p.body, t.escrow).value;
       && locked == OutSum(env, tx, self)
       && DatumAmount(datum) == Some(locked)
       && DatumRecipient(datum).Some? && |DatumRecipient(datum).value| == 32
       && AllAt(Tokens(env, tx.outs, self), DatumRecipient(datum).value)
       && InsertsKey(tx, t.registry, XadaMint.Key(env, p.body))
  }

  /** With the relayer's witness in place, the lock opens exactly for a strict burn and for such a mint. */
  lemma OwnerExact(env: Env, args: Bytes, tx: Tx, self: Digest, p: Proof)
    requires |args| >= ARGS_LEN && Packable(p)
    requires SumAmounts(Tokens(env, tx.ins, self)).Some? && SumAmounts(Tokens(env, tx.outs, self)).Some?
    requires WitnessAt(tx, FirstLock(tx.ins, self)).Some?
    requires WitnessAt(tx, FirstLock(tx.ins, self)).value.lock == Some(Transcode(p))
    ensures Verdict(env, args, tx, self) == 0
            <==> || OutSum(env, tx, self) < InSum(env, tx, self)
                 || (OutSum(env, tx, self) > InSum(env, tx, self) && MintedAgainst(env, args, tx, self, p))
  {
    hide EscrowOutput, DatumRecipient, DatumAmount, Read, Transcode, Packable, InsertsKey, SubProof, MasterProof,
      WitnessAt, SumAmounts, Checkpoint, AllAt, Tokens, FirstLock, TermsOf;
    RoundTrip(p, []);
    assert Transcode(p) + [] == Transcode(p);
  }

  /** An unlocked mint nullifies its escrow transaction. */
  lemma MintInserts(env: Env, args: Bytes, tx: Tx, self: Digest, body: Bytes)
    requires Mints(env, args, tx, self, body)
    ensures |args| >= ARGS_LEN && InsertsKey(tx, TermsOf(args).registry, XadaMint.Key(env, body))
  {
    hide EscrowOutput, DatumRecipient, DatumAmount, Read, InsertsKey, SubProof, MasterProof, SumAmounts, Checkpoint,
      AllAt, FirstLock, Tokens, WitnessAt;
  }
}
