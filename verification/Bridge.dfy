/** Runs of the ledger in which every transaction satisfies every script of its cells. */
module Bridge {
  import opened Basics
  import opened Ledger
  import opened Scripts
  import opened Runs
  import opened RegistryRuns
  import NullifierRegistry
  import BurnUnlock
  import XadaMint
  import XadaOwner
  import BurnReceipt
  import BoundAsset
  import opened BoundLineage
  import opened Conservation

  /** The exit code of the type script `self`. Programs outside the model accept. */
  function TypeVerdict(env: Env, tx: Tx, self: Digest): int {
    match env.script(self)
    case Registry(_) => NullifierRegistry.Verdict(env.smt, env.ckb, RegistryView(env, tx, self))
    case XadaMint(args) => XadaMint.Verdict(env, args, tx, self)
    case BurnReceipt(args) => BurnReceipt.Verdict(args, tx, self)
    case BoundAsset(args) => BoundAsset.Verdict(env, args, tx, self)
    case _ => 0
  }

  /** The exit code of the lock script `self`. */
  function LockVerdict(env: Env, tx: Tx, self: Digest): int {
    match env.script(self)
    case BurnUnlock(args) => BurnUnlock.Verdict(env, args, tx, self)
    case XadaOwner(args) => XadaOwner.Verdict(env, args, tx, self)
    case _ => 0
  }

  /** Every script of the transaction accepts: the types of its inputs and outputs, and the locks of its inputs. */
  ghost predicate Accepted(env: Env, tx: Tx) {
    && (forall th: Digest {:trigger TypeVerdict(env, tx, th)} :: Touches(tx, th) ==> TypeVerdict(env, tx, th) == 0)
    && (forall lh: Digest {:trigger LockVerdict(env, tx, lh)} ::
          SelectLock(tx.ins, lh) != [] ==> LockVerdict(env, tx, lh) == 0)
  }

  /** A run in which every script of every transaction accepts. */
  ghost predicate ValidRun(env: Env, start: State, txs: seq<Tx>) {
    Run(start, txs) && forall tx :: tx in txs ==> Accepted(env, tx)
  }

  /** In particular each script accepts in its own right. */
  lemma ValidMeans(env: Env, start: State, txs: seq<Tx>)
    requires ValidRun(env, start, txs)
    ensures forall reg: Digest :: env.script(reg).Registry? ==> RegistryRun(env, reg, start, txs)
    ensures forall th: Digest :: env.script(th).XadaMint? ==> XadaRun(env, th, start, txs)
    ensures BoundRun(env, start, txs)
  {
    hide Run, Touches, BurnUnlock.Verdict, XadaOwner.Verdict, XadaMint.Verdict, NullifierRegistry.Verdict,
      BoundAsset.Verdict, BurnReceipt.Verdict, RegistryView;
    forall tx, th: Digest | tx in txs
      ensures Touches(tx, th) ==> TypeVerdict(env, tx, th) == 0
    {
      assert Accepted(env, tx);
      assert TypeVerdict(env, tx, th) == TypeVerdict(env, tx, th);
    }
  }

  /** What holds together in every run in which every script accepts: the registry of a token is unique and in step
      with the keys inserted, the token is backed by different locks, and every bound asset has its life in the run. */
  lemma BridgeInvariant(env: Env, start: State, txs: seq<Tx>, th: Digest)
    requires ValidRun(env, start, txs) && env.script(th).XadaMint? && |env.script(th).args| >= XadaMint.ARGS_LEN
    requires env.script(RegistryOf(env, th)).Registry? && NoneLive(start, RegistryOf(env, th)) && Supply(start, th) == 0
    requires forall b: Digest :: env.script(b).BoundAsset? ==> NoneLive(start, b)
    ensures var reg, bodies := RegistryOf(env, th), MintBodies(env, txs, th);
            && (Tracks(env, reg, After(start, txs), Views(env, reg, txs)) || Collides(env.ckb, FirstInputs(txs)))
            && Supply(After(start, txs), th) + Burned(txs, th) == LockedSum(EscrowOf(env, th), bodies)
            && (Distinct(bodies) || Broken(env, reg, txs))
            && AllWellBound(env, txs, After(start, txs))
  {
    ValidMeans(env, start, txs);
    hide *;
    RegistryIsSingleton(env, start, txs, RegistryOf(env, th));
    XadaConservation(env, start, txs, th);
    LineageInvariant(env, start, txs);
  }
}
