/** One insertion can serve several scripts of one transaction: what bounds how often a claim is used there. */
module SharedInsertion {
  import opened Basics
  import opened Ledger
  import opened Scripts
  import opened Runs
  import opened RegistryRuns
  import opened WitnessLayout
  import opened ReplayOnce
  import BurnUnlock
  import MintField
  import XadaMint
  import XadaOwner
  import EscrowWalk

  /** Over a run, all cells released against one burn under one registry are released by one transaction, at most one
      by each lock hash: two of them are the same cell exactly when their lock hashes are the same. */
  lemma ReleasedTogether(env: Env, start: State, txs: seq<Tx>, reg: Digest, one: Digest, other: Digest, body: Bytes,
                         i: nat, k: nat, j: nat, l: nat)
    requires i <= j < |txs| && env.script(reg).Registry? && RegistryRun(env, reg, start, txs) && NoneLive(start, reg)
    requires Release(env, txs[i], k, one, body) && Release(env, txs[j], l, other, body)
    requires BurnUnlock.TermsOf(env.script(one).args).registry == reg
             == BurnUnlock.TermsOf(env.script(other).args).registry
    ensures (i == j && (k == l <==> one == other)) || Broken(env, reg, txs)
  {
    hide Broken, RegistryRun, NoneLive, BurnUnlock.Verdict, BurnUnlock.BurnBody, BurnUnlock.TermsOf;
    BurnUnlock.ReleaseMeans(env, env.script(one).args, txs[i], one);
    if i == j {
      if one == other && k < l { LockGroup(txs[i].ins, one, k, l); }
      if one == other && l < k { LockGroup(txs[i].ins, one, l, k); }
    } else {
      LockMember(txs[i].ins, one, k);
      LockMember(txs[j].ins, other, l);
      assert ReleasesAgainst(env, txs[i], one, reg, body) && ReleasesAgainst(env, txs[j], other, reg, body);
      assert Uses(env, txs[i], reg, Released(body)) && Uses(env, txs[j], reg, Released(body));
      ClaimUsedOnce(env, start, txs, reg, i, j, Released(body));
    }
  }

  /** And several lock hashes do release together: beside one release, another lock on the same checkpoint and
      registry that shows the same burn opens exactly when that burn is of its own quantity. */
  lemma ReleasesShareTheInsertion(env: Env, tx: Tx, one: Digest, other: Digest, root: Bytes, p: Proof)
    requires env.script(one).BurnUnlock? && env.script(other).BurnUnlock? && Packable(p)
    requires var a, b := env.script(one).args, env.script(other).args;
             && |a| >= BurnUnlock.ARGS_LEN && |b| >= BurnUnlock.ARGS_LEN
             && BurnUnlock.TermsOf(b).checkpoint == BurnUnlock.TermsOf(a).checkpoint
             && BurnUnlock.TermsOf(b).registry == BurnUnlock.TermsOf(a).registry
             && BurnUnlock.CertRoot(tx.deps, BurnUnlock.TermsOf(a).checkpoint) == Some(root)
             && BurnUnlock.Releases(env, a, tx, one, p.body)
    requires |SelectLock(tx.ins, one)| <= 1 && |SelectLock(tx.ins, other)| <= 1
    requires WitnessAt(tx, FirstLock(tx.ins, one)).Some? && WitnessAt(tx, FirstLock(tx.ins, other)).Some?
    requires WitnessAt(tx, FirstLock(tx.ins, one)).value.lock == Some(Transcode(p))
    requires WitnessAt(tx, FirstLock(tx.ins, other)).value.lock == Some(Transcode(p))
    ensures BurnUnlock.Verdict(env, env.script(other).args, tx, other) == 0
            <==> var t := BurnUnlock.TermsOf(env.script(other).args);
                 MintField.MintQty(p.body, t.policy, t.name) == MintField.RequiredQty(t.amount)
  {
    hide BurnUnlock.Verdict, BurnUnlock.TermsOf, MintField.MintQty, MintField.RequiredQty, BurnUnlock.BurnBody,
      Transcode, Packable, InsertsKey, Certified, BurnUnlock.CertRoot, SelectLock, FirstLock, WitnessAt;
    BurnUnlock.ReleaseExact(env, env.script(one).args, tx, one, root, p);
    BurnUnlock.ReleaseExact(env, env.script(other).args, tx, other, root, p);
  }

  /** Two owner locks with the same terms, which may differ in the salt, mint against one escrow transaction side by
      side: beside one mint the other passes exactly when it too mints the whole lock, to the same recipient. */
  lemma OwnersShareTheInsertion(env: Env, tx: Tx, one: Digest, other: Digest, p: Proof)
    requires env.script(one).XadaOwner? && env.script(other).XadaOwner? && Packable(p)
    requires var a, b := env.script(one).args, env.script(other).args;
             |a| >= XadaOwner.ARGS_LEN && |b| >= XadaOwner.ARGS_LEN && XadaOwner.TermsOf(a) == XadaOwner.TermsOf(b)
    requires SumAmounts(XadaOwner.Tokens(env, tx.ins, one)) == SumAmounts(XadaOwner.Tokens(env, tx.ins, other))
             == Some(0)
    requires SumAmounts(XadaOwner.Tokens(env, tx.outs, one)).Some?
    requires SumAmounts(XadaOwner.Tokens(env, tx.outs, other)).Some?
    requires XadaOwner.OutSum(env, tx, one) > 0 && XadaOwner.OutSum(env, tx, other) > 0
    requires XadaOwner.Verdict(env, env.script(one).args, tx, one) == 0
    requires WitnessAt(tx, FirstLock(tx.ins, one)).Some? && WitnessAt(tx, FirstLock(tx.ins, other)).Some?
    requires WitnessAt(tx, FirstLock(tx.ins, one)).value.lock == Some(Transcode(p))
    requires WitnessAt(tx, FirstLock(tx.ins, other)).value.lock == Some(Transcode(p))
    ensures var escrow := EscrowWalk.EscrowOutput(p.body, XadaOwner.TermsOf(env.script(one).args).escrow);
            && escrow.Some? && EscrowWalk.DatumRecipient(escrow.value.1).Some?
            && (XadaOwner.Verdict(env, env.script(other).args, tx, other) == 0 <==>
                  && XadaOwner.OutSum(env, tx, other) == XadaOwner.OutSum(env, tx, one)
                  && AllAt(XadaOwner.Tokens(env, tx.outs, other), EscrowWalk.DatumRecipient(escrow.value.1).value))
  {
    hide XadaOwner.Verdict, XadaOwner.TermsOf, XadaOwner.Tokens, EscrowWalk.EscrowOutput, EscrowWalk.DatumRecipient,
      EscrowWalk.DatumAmount, Transcode, Packable, InsertsKey, Certified, Checkpoint, WitnessAt, FirstLock, AllAt,
      SumAmounts;
    XadaOwner.OwnerExact(env, env.script(one).args, tx, one, p);
    XadaOwner.OwnerExact(env, env.script(other).args, tx, other, p);
  }

  /** The same for the type script and an owner lock on one registry and escrow. `SharedExamples` has a run for each. */
  lemma MintsShareTheInsertion(env: Env, tx: Tx, th: Digest, lh: Digest, p: Proof)
    requires env.script(th).XadaMint? && env.script(lh).XadaOwner? && Packable(p)
    requires var a, b := env.script(th).args, env.script(lh).args;
             |a| >= XadaMint.ARGS_LEN && |b| >= XadaOwner.ARGS_LEN && XadaMint.TermsOf(a) == XadaOwner.TermsOf(b)
    requires SumAmounts(Select(tx.ins, th)) == SumAmounts(XadaOwner.Tokens(env, tx.ins, lh)) == Some(0)
    requires SumAmounts(Select(tx.outs, th)).Some? && SumAmounts(XadaOwner.Tokens(env, tx.outs, lh)).Some?
    requires XadaMint.OutSum(tx, th) > 0 && XadaOwner.OutSum(env, tx, lh) > 0
    requires XadaMint.Verdict(env, env.script(th).args, tx, th) == 0
    requires var c := Checkpoint(tx.deps, XadaMint.TermsOf(env.script(th).args).checkpoint); c.Agreed? && c.height > 0
    requires GroupWitness(tx, th).Some? && GroupWitness(tx, th).value.inputType == Some(Transcode(p))
    requires WitnessAt(tx, FirstLock(tx.ins, lh)).Some?
    requires WitnessAt(tx, FirstLock(tx.ins, lh)).value.lock == Some(Transcode(p))
    ensures var escrow := EscrowWalk.EscrowOutput(p.body, XadaMint.TermsOf(env.script(th).args).escrow);
            && escrow.Some? && EscrowWalk.DatumRecipient(escrow.value.1).Some?
            && (XadaOwner.Verdict(env, env.script(lh).args, tx, lh) == 0 <==>
                  && XadaOwner.OutSum(env, tx, lh) == XadaMint.OutSum(tx, th)
                  && AllAt(XadaOwner.Tokens(env, tx.outs, lh), EscrowWalk.DatumRecipient(escrow.value.1).value))
  {
    hide XadaMint.Verdict, XadaMint.TermsOf, XadaOwner.Verdict, XadaOwner.TermsOf, XadaOwner.Tokens,
      EscrowWalk.EscrowOutput, EscrowWalk.DatumRecipient, EscrowWalk.DatumAmount, Transcode, Packable, InsertsKey,
      Certified, Checkpoint, WitnessAt, GroupWitness, FirstLock, AllAt, SumAmounts, Select;
    XadaMint.MintExact(env, env.script(th).args, tx, th, p);
    XadaOwner.OwnerExact(env, env.script(lh).args, tx, lh, p);
  }
}
