/** Each of the three legs uses its evidence at most once, because the registry inserts a key at most once. */
module ReplayOnce {
  import opened Basics
  import opened Ledger
  import opened Scripts
  import opened Runs
  import opened RegistryRuns
  import BurnUnlock
  import XadaMint
  import XadaOwner
  import BoundAsset

  /** What a leg uses up. */
  datatype Claim = Minted(body: Bytes) | Released(body: Bytes) | Leaped(seal: Bytes)

  function Preimage(c: Claim): Bytes {
    match c
    case Minted(body) => [0x01] + body
    case Released(body) => [0x02] + body
    case Leaped(seal) => [0x03] + seal
  }

  /** The χADA script `th` mints here against `body`. */
  ghost predicate MintsAgainst(env: Env, tx: Tx, th: Digest, reg: Digest, body: Bytes) {
    && Touches(tx, th) && env.script(th).XadaMint?
    && XadaMint.Mints(env, env.script(th).args, tx, th)
    && XadaMint.TermsOf(env.script(th).args).registry == reg
    && XadaMint.EscrowBody(env, env.script(th).args, tx, th) == body
  }

  /** The owner lock `lh` unlocks a mint here against `body`. */
  ghost predicate UnlocksMint(env: Env, tx: Tx, lh: Digest, reg: Digest, body: Bytes) {
    && SelectLock(tx.ins, lh) != [] && env.script(lh).XadaOwner?
    && XadaOwner.Mints(env, env.script(lh).args, tx, lh, body)
    && XadaOwner.TermsOf(env.script(lh).args).registry == reg
  }

  /** The lock `lh` releases here against `body`. */
  ghost predicate ReleasesAgainst(env: Env, tx: Tx, lh: Digest, reg: Digest, body: Bytes) {
    && SelectLock(tx.ins, lh) != [] && env.script(lh).BurnUnlock?
    && BurnUnlock.Releases(env, env.script(lh).args, tx, lh, body)
    && BurnUnlock.TermsOf(env.script(lh).args).registry == reg
  }

  /** The bound asset `th` leaps to CKB here from `seal`. */
  ghost predicate LeapsFrom(env: Env, tx: Tx, th: Digest, seal: Bytes) {
    && env.script(th).BoundAsset?
    && BoundAsset.Verdict(env, env.script(th).args, tx, th) == 0
    && Select(tx.ins, th) != [] && Select(tx.outs, th) != []
    && BoundAsset.IsCell(Select(tx.ins, th)[0].data) && BoundAsset.IsCell(Select(tx.outs, th)[0].data)
    && Select(tx.ins, th)[0].data[1] == BoundAsset.CARDANO_BOUND
    && Select(tx.outs, th)[0].data[1] == BoundAsset.CKB_OWNED
    && Select(tx.ins, th)[0].data[2..38] == seal
  }

  ghost predicate Uses(env: Env, tx: Tx, reg: Digest, c: Claim) {
    match c
    case Minted(body) =>
      (exists th: Digest :: MintsAgainst(env, tx, th, reg, body))
          || (exists lh: Digest :: UnlocksMint(env, tx, lh, reg, body))
    case Released(body) => exists lh: Digest :: ReleasesAgainst(env, tx, lh, reg, body)
    case Leaped(seal) => reg == env.leapRegistry && exists th: Digest :: LeapsFrom(env, tx, th, seal)
  }

  lemma LeapInserts(env: Env, tx: Tx, th: Digest, seal: Bytes)
    requires LeapsFrom(env, tx, th, seal)
    ensures InsertsKey(tx, env.leapRegistry, env.b2b([0x03] + seal))
  {
    hide InsertsKey, Select, BoundAsset.Verdict, BoundAsset.ShownEvidence, BoundAsset.ShownBody;
    BoundAsset.AcceptedIsLegal(env, env.script(th).args, tx, th);
  }

  lemma MintInserts(env: Env, tx: Tx, th: Digest, reg: Digest, body: Bytes)
    requires MintsAgainst(env, tx, th, reg, body)
    ensures InsertsKey(tx, reg, env.b2b([0x01] + body))
  {
    hide InsertsKey, XadaMint.Verdict, XadaMint.TermsOf, XadaMint.EscrowBody;
    XadaMint.MintMeans(env, env.script(th).args, tx, th);
  }

  lemma OwnerInserts(env: Env, tx: Tx, lh: Digest, reg: Digest, body: Bytes)
    requires UnlocksMint(env, tx, lh, reg, body)
    ensures InsertsKey(tx, reg, env.b2b([0x01] + body))
  {
    hide InsertsKey, XadaOwner.Verdict, XadaOwner.TermsOf;
    XadaOwner.MintInserts(env, env.script(lh).args, tx, lh, body);
  }

  /** Every use of a claim goes through the registry. */
  lemma UseInserts(env: Env, tx: Tx, reg: Digest, c: Claim)
    requires Uses(env, tx, reg, c)
    ensures InsertsKey(tx, reg, env.b2b(Preimage(c)))
  {
    hide InsertsKey, LeapsFrom, MintsAgainst, UnlocksMint;
    match c
    case Minted(body) =>
      if th: Digest :| MintsAgainst(env, tx, th, reg, body) {
        MintInserts(env, tx, th, reg, body);
      } else {
        var lh: Digest :| UnlocksMint(env, tx, lh, reg, body);
        OwnerInserts(env, tx, lh, reg, body);
      }
    case Released(body) =>
      var lh: Digest :| ReleasesAgainst(env, tx, lh, reg, body);
      hide BurnUnlock.Verdict, BurnUnlock.TermsOf, BurnUnlock.BurnBody;
      BurnUnlock.ReleaseMeans(env, env.script(lh).args, tx, lh);
    case Leaped(seal) =>
      var th: Digest :| LeapsFrom(env, tx, th, seal);
      LeapInserts(env, tx, th, seal);
  }

  /** Replay-once: no two transactions of a run use the same claim on a registry. */
  lemma ClaimUsedOnce(env: Env, start: State, txs: seq<Tx>, reg: Digest, i: nat, j: nat, c: Claim)
    requires env.script(reg).Registry? && RegistryRun(env, reg, start, txs) && NoneLive(start, reg)
    requires i < j < |txs| && Uses(env, txs[i], reg, c) && Uses(env, txs[j], reg, c)
    ensures Broken(env, reg, txs)
  {
    hide Uses, Broken, InsertsKey, RegistryRun;
    UseInserts(env, txs[i], reg, c);
    UseInserts(env, txs[j], reg, c);
    KeyInsertedOnce(env, start, txs, reg, i, j, env.b2b(Preimage(c)));
  }

  /** Equal keys come from equal claims, so the keys of different legs never coincide. */
  lemma LegsAreDisjoint(env: Env, c: Claim, d: Claim)
    requires env.b2b(Preimage(c)) == env.b2b(Preimage(d))
    ensures c == d || Collides(env.b2b, {Preimage(c), Preimage(d)})
  {
    if Preimage(c) == Preimage(d) {
      assert c == d by {
        assert Preimage(c)[0] == Preimage(d)[0];
        assert Preimage(c)[1..] == Preimage(d)[1..];
      }
    }
  }

  /** A transaction uses at most one claim on a registry. */
  lemma OneClaimPerTransaction(env: Env, tx: Tx, reg: Digest, c: Claim, d: Claim)
    requires Uses(env, tx, reg, c) && Uses(env, tx, reg, d)
    ensures c == d || Collides(env.b2b, {Preimage(c), Preimage(d)})
  {
    hide Uses;
    UseInserts(env, tx, reg, c);
    UseInserts(env, tx, reg, d);
    LegsAreDisjoint(env, c, d);
  }

  // ---- cell by cell ----

  lemma {:induction false} LockGroup(cells: seq<Cell>, lh: Digest, k: nat, l: nat)
    requires k < l < |cells| && cells[k].lock == lh && cells[l].lock == lh
    ensures |SelectLock(cells, lh)| > 1
  {
    if k == 0 {
      LockMember(cells[1..], lh, l - 1);
    } else {
      LockGroup(cells[1..], lh, k - 1, l - 1);
    }
  }

  lemma {:induction false} LockMember(cells: seq<Cell>, lh: Digest, k: nat)
    requires k < |cells| && cells[k].lock == lh
    ensures SelectLock(cells, lh) != []
  {
    if k > 0 {
      LockMember(cells[1..], lh, k - 1);
    }
  }

  /** Input k of the transaction is a cell released by its burn lock against `body`. */
  ghost predicate Release(env: Env, tx: Tx, k: nat, lh: Digest, body: Bytes) {
    && k < |tx.ins| && tx.ins[k].lock == lh && env.script(lh).BurnUnlock?
    && BurnUnlock.Releases(env, env.script(lh).args, tx, lh, body)
  }

  /** At most one cell is ever released by a lock against one burn. */
  lemma ReleasedOnce(env: Env, start: State, txs: seq<Tx>, lh: Digest, body: Bytes, i: nat, k: nat, j: nat, l: nat)
    requires i <= j < |txs| && Release(env, txs[i], k, lh, body) && Release(env, txs[j], l, lh, body)
    requires var reg := BurnUnlock.TermsOf(env.script(lh).args).registry;
             env.script(reg).Registry? && RegistryRun(env, reg, start, txs) && NoneLive(start, reg)
    ensures (i == j && k == l) || Broken(env, BurnUnlock.TermsOf(env.script(lh).args).registry, txs)
  {
    hide Broken, RegistryRun, NoneLive, BurnUnlock.Verdict, BurnUnlock.BurnBody, BurnUnlock.TermsOf;
    var args := env.script(lh).args;
    BurnUnlock.ReleaseMeans(env, args, txs[i], lh);
    if i == j {
      if k < l { LockGroup(txs[i].ins, lh, k, l); }
      if l < k { LockGroup(txs[i].ins, lh, l, k); }
    } else {
      var reg := BurnUnlock.TermsOf(args).registry;
      LockMember(txs[i].ins, lh, k);
      LockMember(txs[j].ins, lh, l);
      assert ReleasesAgainst(env, txs[i], lh, reg, body) && ReleasesAgainst(env, txs[j], lh, reg, body);
      assert Uses(env, txs[i], reg, Released(body)) && Uses(env, txs[j], reg, Released(body));
      ClaimUsedOnce(env, start, txs, reg, i, j, Released(body));
    }
  }

  /** Two different bound asset scripts in one transaction are two instances of the program. */
  lemma {:induction false} InstancesCount(env: Env, cells: seq<Cell>, one: Digest, other: Digest)
    requires env.script(one).BoundAsset? && env.script(other).BoundAsset?
    ensures Select(cells, one) != [] ==> BoundAsset.Instances(env, cells) >= 1
    ensures Select(cells, one) != [] && Select(cells, other) != [] && one != other
            ==> BoundAsset.Instances(env, cells) >= 2
  {
    if cells != [] {
      InstancesCount(env, cells[1..], one, other);
      InstancesCount(env, cells[1..], other, one);
    }
  }

  /** The program forbids a second instance in the transaction. */
  lemma OneLeapPerTransaction(env: Env, tx: Tx, one: Digest, other: Digest, seal: Bytes)
    requires LeapsFrom(env, tx, one, seal) && LeapsFrom(env, tx, other, seal)
    ensures one == other
  {
    hide Select, BoundAsset.Verdict;
    BoundAsset.AcceptedSizes(env, env.script(one).args, tx, one);
    InstancesCount(env, tx.ins, one, other);
  }

  /** At most one cell, of whatever instance, ever leaps to CKB from one seal. */
  lemma LeapedOnce(env: Env, start: State, txs: seq<Tx>, seal: Bytes, i: nat, one: Digest, j: nat, other: Digest)
    requires env.script(env.leapRegistry).Registry? && NoneLive(start, env.leapRegistry)
    requires RegistryRun(env, env.leapRegistry, start, txs)
    requires i <= j < |txs| && LeapsFrom(env, txs[i], one, seal) && LeapsFrom(env, txs[j], other, seal)
    ensures (i == j && one == other) || Broken(env, env.leapRegistry, txs)
  {
    hide Broken, RegistryRun, NoneLive, LeapsFrom;
    if i == j {
      OneLeapPerTransaction(env, txs[i], one, other, seal);
    } else {
      assert Uses(env, txs[i], env.leapRegistry, Leaped(seal)) && Uses(env, txs[j], env.leapRegistry, Leaped(seal));
      ClaimUsedOnce(env, start, txs, env.leapRegistry, i, j, Leaped(seal));
    }
  }
}
