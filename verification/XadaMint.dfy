/** The χADA type script (`xada_mint`). */
module XadaMint {
  import opened Basics
  import opened Ledger
  import opened Scripts
  import opened WitnessLayout
  import opened EscrowWalk

  const ARGS_LEN: nat := 65

  /** Checkpoint type (32), registry type (32) and the escrow address. */
  datatype Terms = Terms(checkpoint: Digest, registry: Digest, escrow: Bytes)

  function TermsOf(args: Bytes): Terms
    requires |args| >= ARGS_LEN
  {
    Terms(args[..32], args[32..64], args[64..])
  }

  /** The nullifier of an escrow transaction. */
  function Key(env: Env, body: Bytes): Digest {
    env.b2b([0x01] + body)
  }

  /** The exit code after the escrow transaction is certified. */
  function EscrowVerdict(env: Env, t: Terms, tx: Tx, outs: seq<Cell>, minted: int, body: Bytes): int {
    match EscrowOutput(body, t.escrow)
    case None => 20
    case Some((locked, datum)) =>
      match DatumRecipient(datum)
      case None => 21
      case Some(recipient) =>
        if |recipient| != 32 then 21
        else
          match DatumAmount(datum)
          case None => 22
          case Some(amount) =>
            if amount < 0 || amount != locked then 23
            else if minted != locked then 24
            else if !AllAt(outs, recipient) then 28
            else if !InsertsKey(tx, t.registry, Key(env, body)) then 25
            else 0
  }

  function MintVerdict(env: Env, t: Terms, tx: Tx, self: Digest, minted: int): int {
    match Checkpoint(tx.deps, t.checkpoint)
    case Nothing => 10
    case Conflict => 53
    case Agreed(root, height) =>
      if height == 0 then 6
      else
        match GroupWitness(tx, self)
        case None => 3
        case Some(w) =>
          match w.inputType
          case None => 4
          case Some(raw) =>
            var p := Read(raw);
            if !SubProof(env, p) then 5
            else if !MasterProof(env, root, p) then 7
            else EscrowVerdict(env, t, tx, Select(tx.outs, self), minted, p.body)
  }

  /** The exit code of the type script `self`. */
  function Verdict(env: Env, args: Bytes, tx: Tx, self: Digest): int {
    if |args| < ARGS_LEN then 2
    else
      match SumAmounts(Select(tx.ins, self))
      case None => 16
      case Some(inSum) =>
        match SumAmounts(Select(tx.outs, self))
        case None => 17
        case Some(outSum) =>
          if outSum <= inSum then 0
          else if inSum != 0 then 18
          else MintVerdict(env, TermsOf(args), tx, self, outSum - inSum)
  }

  /** A transaction that does not raise the supply always passes; one that raises it from a positive amount never
      does. */
  method ProgramEntry(env: Env, args: Bytes, tx: Tx, self: Digest) returns (code: int)
    ensures code == Verdict(env, args, tx, self)
    ensures |args| >= ARGS_LEN && SumAmounts(Select(tx.ins, self)).Some? && SumAmounts(Select(tx.outs, self)).Some? ==>
              && (OutSum(tx, self) <= InSum(tx, self) ==> code == 0)
              && (OutSum(tx, self) > InSum(tx, self) > 0 ==> code == 18)
  {
    hide EscrowOutput, DatumRecipient, DatumAmount, Read, InsertsKey, SubProof, MasterProof, GroupWitness, SumAmounts,
      Checkpoint, AllAt;
    if |args| < ARGS_LEN { return 2; }
    var t := TermsOf(args);
    var inSum := SumGroup(Select(tx.ins, self));
    if inSum == None { return 16; }
    var outSum := SumGroup(Select(tx.outs, self));
    if outSum == None { return 17; }
    if outSum.value <= inSum.value { return 0; }
    var minted := outSum.value - inSum.value;
    if inSum.value != 0 { return 18; }
    var cert := CheckpointRoot(tx.deps, t.checkpoint);
    if cert == Nothing { return 10; }
    if cert == Conflict { return 53; }
    if cert.height == 0 { return 6; }
    var w := GroupWitness(tx, self);
    if w == None { return 3; }
    if w.value.inputType == None { return 4; }
    var p := ReadProof(w.value.inputType.value);
    if !SubProof(env, p) { return 5; }
    if !MasterProof(env, cert.root, p) { return 7; }
    var escrow := ComputeEscrowOutput(p.body, t.escrow);
    if escrow == None { return 20; }
    var (locked, datum) := escrow.value;
    var recipient := DatumRecipient(datum);
    if recipient == None || |recipient.value| != 32 { return 21; }
    var amount := DatumAmount(datum);
    if amount == None { return 22; }
    if amount.value < 0 || amount.value != locked { return 23; }
    if minted != locked { return 24; }
    var pinned := OutputsAllAt(Select(tx.outs, self), recipient.value);
    if !pinned { return 28; }
    var ok := RegistryInsertsKey(tx, t.registry, Key(env, p.body));
    return if ok then 0 else 25;
  }

  function InSum(tx: Tx, self: Digest): nat
    requires SumAmounts(Select(tx.ins, self)).Some?
  {
    SumAmounts(Select(tx.ins, self)).value
  }

  function OutSum(tx: Tx, self: Digest): nat
    requires SumAmounts(Select(tx.outs, self)).Some?
  {
    SumAmounts(Select(tx.outs, self)).value
  }

  /** An accepted transaction that raises the supply. */
  predicate Mints(env: Env, args: Bytes, tx: Tx, self: Digest) {
    && Verdict(env, args, tx, self) == 0
    && OutSum(tx, self) > InSum(tx, self)
  }

  /** The escrow transaction that an accepted mint shows. */
  function EscrowBody(env: Env, args: Bytes, tx: Tx, self: Digest): Bytes
    requires Mints(env, args, tx, self)
  {
    Read(GroupWitness(tx, self).value.inputType.value).body
  }

  /** The lovelace that a body locks at an escrow address. */
  function Locked(escrow: Bytes, body: Bytes): nat {
    match EscrowOutput(body, escrow) case None => 0 case Some((locked, _)) => locked
  }

  /** What an accepted mint has shown: exactly the locked lovelace appears, all of it at the recipient named
      by a certified escrow transaction, and that transaction is nullified. */
  lemma MintMeans(env: Env, args: Bytes, tx: Tx, self: Digest)
    requires Mints(env, args, tx, self)
    ensures |args| >= ARGS_LEN && InSum(tx, self) == 0
    ensures var t, body := TermsOf(args), EscrowBody(env, args, tx, self);
            && OutSum(tx, self) == Locked(t.escrow, body)
            && InsertsKey(tx, t.registry, Key(env, body))
            && EscrowOutput(body, t.escrow).Some?
            && DatumRecipient(EscrowOutput(body, t.escrow).value.1).Some?
            && AllAt(Select(tx.outs, self), DatumRecipient(EscrowOutput(body, t.escrow).value.1).value)
            && Checkpoint(tx.deps, t.checkpoint).Agreed?
            && Checkpoint(tx.deps, t.checkpoint).height > 0
            && exists p: Proof :: p.body == body && Certified(env, Checkpoint(tx.deps, t.checkpoint).root, p)
  {
    hide EscrowOutput, DatumRecipient, DatumAmount, Read, InsertsKey, SubProof, MasterProof, GroupWitness, SumAmounts,
      Checkpoint, AllAt;
    var p := Read(GroupWitness(tx, self).value.inputType.value);
    assert Certified(env, Checkpoint(tx.deps, TermsOf(args).checkpoint).root, p);
  }

  /** When the relayer's witness is in place, a mint passes exactly on a certified escrow transaction whose datum
      declares the locked lovelace, which is the minted amount, with every minted cell at its recipient and its
      nullifier inserted. */
  lemma MintExact(env: Env, args: Bytes, tx: Tx, self: Digest, p: Proof)
    requires |args| >= ARGS_LEN && Packable(p)
    requires SumAmounts(Select(tx.ins, self)) == Some(0) && SumAmounts(Select(tx.outs, self)).Some?
    requires OutSum(tx, self) > 0
    requires Checkpoint(tx.deps, TermsOf(args).checkpoint).Agreed?
    requires Checkpoint(tx.deps, TermsOf(args).checkpoint).height > 0
    requires GroupWitness(tx, self).Some? && GroupWitness(tx, self).value.inputType == Some(Transcode(p))
    ensures Verdict(env, args, tx, self) == 0 <==>
              && Certified(env, Checkpoint(tx.deps, TermsOf(args).checkpoint).root, p)
              && EscrowOutput(p.body, TermsOf(args).escrow).Some?
              && var (locked, datum) := EscrowOutput(p.body, TermsOf(args).escrow).value;
                 && locked == OutSum(tx, self)
                 && DatumAmount(datum) == Some(locked)
                 && DatumRecipient(datum).Some? && |DatumRecipient(datum).value| == 32
                 && AllAt(Select(tx.outs, self), DatumRecipient(datum).value)
                 && InsertsKey(tx, TermsOf(args).registry, Key(env, p.body))
  {
    hide EscrowOutput, DatumRecipient, DatumAmount, Read, Transcode, Packable, InsertsKey, SubProof, MasterProof,
      GroupWitness, SumAmounts, Checkpoint, AllAt, Select, TermsOf;
    RoundTrip(p, []);
    assert Transcode(p) + [] == Transcode(p);
  }
}
