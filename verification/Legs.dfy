/** What each leg has shown, in terms of what a well-formed Cardano transaction says and not of how the scripts
    walk over its bytes. */
module Legs {
  import opened Basics
  import opened Cbor
  import opened Ledger
  import opened Scripts
  import opened WitnessLayout
  import SealWalk
  import MintField
  import EscrowWalk
  import BodyParse
  import BodyParseExact
  import BurnUnlock
  import XadaMint
  import XadaOwner
  import BoundAsset
  import opened Runs
  import opened RegistryRuns
  import ReplayOnce
  import Conservation

  /** A release shows a transaction that mints minus the amount of the lock: it burns that amount, and for the amount
      0 it need not have a mint field at all. */
  lemma ReleaseShowsTheBurn(env: Env, args: Bytes, tx: Tx, self: Digest, body: Bytes, t: MintField.MintBody)
    requires BurnUnlock.Releases(env, args, tx, self, body) && MintField.Encodes(body, t)
    requires |args| >= BurnUnlock.ARGS_LEN && BurnUnlock.TermsOf(args).amount <= MintField.HALF
    ensures var terms := BurnUnlock.TermsOf(args);
            MintField.BodySum(t, terms.policy, terms.name) + terms.amount == 0
  {
    hide BurnUnlock.BurnBody, MintField.MintQty, MintField.BodySum, MintField.RequiredQty, MintField.Encodes;
    BurnUnlock.ReleaseMeans(env, args, tx, self);
    hide BurnUnlock.Verdict;
    var terms := BurnUnlock.TermsOf(args);
    MintField.BodyPasses(body, t, terms.policy, terms.name, terms.amount);
  }

  /** And the lock opens for every certified burn of exactly its amount that is nullified here. */
  lemma BurnIsReleased(env: Env, args: Bytes, tx: Tx, self: Digest, root: Bytes, p: Proof, t: MintField.MintBody)
    requires |args| >= BurnUnlock.ARGS_LEN && |SelectLock(tx.ins, self)| <= 1
    requires BurnUnlock.CertRoot(tx.deps, BurnUnlock.TermsOf(args).checkpoint) == Some(root)
    requires WitnessAt(tx, FirstLock(tx.ins, self)).Some? && Packable(p)
    requires WitnessAt(tx, FirstLock(tx.ins, self)).value.lock == Some(Transcode(p))
    requires MintField.Encodes(p.body, t) && BurnUnlock.TermsOf(args).amount <= MintField.HALF
    requires Certified(env, root, p)
    requires var terms := BurnUnlock.TermsOf(args);
             && MintField.BodySum(t, terms.policy, terms.name) + terms.amount == 0
             && InsertsKey(tx, terms.registry, BurnUnlock.Key(env, p.body))
    ensures BurnUnlock.Verdict(env, args, tx, self) == 0
  {
    hide MintField.MintQty, MintField.BodySum, MintField.RequiredQty, MintField.Encodes, BurnUnlock.Verdict, Transcode,
      Packable, InsertsKey;
    var terms := BurnUnlock.TermsOf(args);
    MintField.BodyPasses(p.body, t, terms.policy, terms.name, terms.amount);
    BurnUnlock.ReleaseExact(env, args, tx, self, root, p);
  }

  /** So any certified transaction without a mint field opens exactly the locks of amount 0. */
  lemma NoBurnReleasesZero(env: Env, args: Bytes, tx: Tx, self: Digest, root: Bytes, p: Proof, t: MintField.MintBody)
    requires |args| >= BurnUnlock.ARGS_LEN && |SelectLock(tx.ins, self)| <= 1
    requires BurnUnlock.CertRoot(tx.deps, BurnUnlock.TermsOf(args).checkpoint) == Some(root)
    requires WitnessAt(tx, FirstLock(tx.ins, self)).Some? && Packable(p)
    requires WitnessAt(tx, FirstLock(tx.ins, self)).value.lock == Some(Transcode(p))
    requires MintField.Encodes(p.body, t) && t.field.NoMintField? && Certified(env, root, p)
    requires InsertsKey(tx, BurnUnlock.TermsOf(args).registry, BurnUnlock.Key(env, p.body))
    ensures BurnUnlock.Verdict(env, args, tx, self) == 0 <==> BurnUnlock.TermsOf(args).amount == 0
  {
    hide MintField.MintQty, MintField.RequiredQty, MintField.Encodes, BurnUnlock.Verdict, Transcode, Packable,
      InsertsKey;
    var terms := BurnUnlock.TermsOf(args);
    MintField.NoMintPassesAtZero(p.body, t, terms.policy, terms.name, terms.amount);
    BurnUnlock.ReleaseExact(env, args, tx, self, root, p);
  }

  /** And a certified body that is malformed opens exactly the locks of one amount, 2^127 + 1. */
  lemma MalformedReleasesOneAmount(env: Env, args: Bytes, tx: Tx, self: Digest, root: Bytes, p: Proof)
    requires |args| >= BurnUnlock.ARGS_LEN && |SelectLock(tx.ins, self)| <= 1
    requires BurnUnlock.CertRoot(tx.deps, BurnUnlock.TermsOf(args).checkpoint) == Some(root)
    requires WitnessAt(tx, FirstLock(tx.ins, self)).Some? && Packable(p)
    requires WitnessAt(tx, FirstLock(tx.ins, self)).value.lock == Some(Transcode(p))
    requires MintField.MintInner(p.body, BurnUnlock.TermsOf(args).policy, BurnUnlock.TermsOf(args).name) == None
    requires Certified(env, root, p) && InsertsKey(tx, BurnUnlock.TermsOf(args).registry, BurnUnlock.Key(env, p.body))
    ensures BurnUnlock.Verdict(env, args, tx, self) == 0 <==> BurnUnlock.TermsOf(args).amount == MintField.HALF + 1
  {
    hide MintField.MintQty, MintField.MintInner, MintField.RequiredQty, BurnUnlock.Verdict, Transcode, Packable,
      InsertsKey;
    var terms := BurnUnlock.TermsOf(args);
    MintField.MalformedPassesAtOneAmount(p.body, terms.policy, terms.name, terms.amount);
    BurnUnlock.ReleaseExact(env, args, tx, self, root, p);
  }

  // ---- mints ----

  /** The escrow transaction `t` backs a mint of `minted` to `outs`: no datum hash stands in the way of its first
      complete output at the escrow, which locks exactly this amount under a datum `d` that declares the amount and
      names the lock of every minted cell. */
  predicate Backs(t: EscrowWalk.EBody, escrow: Bytes, d: EscrowWalk.Datum, minted: nat, outs: seq<Cell>)
    requires EscrowWalk.Locks(t.outputs, escrow) != []
  {
    && !EscrowWalk.Blocked(t.outputs, escrow)
    && EscrowWalk.Locks(t.outputs, escrow)[0].0 == minted
    && !d.negative && d.mag == minted
    && |d.recipient| == 32 && AllAt(outs, d.recipient)
  }

  /** `body` encodes `t`, whose first complete output at the escrow carries the datum `d`. */
  predicate Encodes(body: Bytes, t: EscrowWalk.EBody, escrow: Bytes, d: EscrowWalk.Datum) {
    && Wf(EscrowWalk.EBodyItem(t)) && SealWalk.EntriesLimited(t.before) && EscrowWalk.EOutputsLimited(t.outputs)
    && body == Encode(EscrowWalk.EBodyItem(t)) && EscrowWalk.WfDatum(d)
    && EscrowWalk.Locks(t.outputs, escrow) != [] && EscrowWalk.Locks(t.outputs, escrow)[0].1 == EscrowWalk.DatumBytes(d)
  }

  lemma Reading(body: Bytes, t: EscrowWalk.EBody, escrow: Bytes, d: EscrowWalk.Datum)
    requires Encodes(body, t, escrow, d) && escrow != []
    ensures EscrowWalk.EscrowOutput(body, escrow)
            == if EscrowWalk.Blocked(t.outputs, escrow) then None
               else Some((EscrowWalk.Locks(t.outputs, escrow)[0].0, EscrowWalk.DatumBytes(d)))
    ensures EscrowWalk.DatumRecipient(EscrowWalk.DatumBytes(d)) == Some(d.recipient)
    ensures EscrowWalk.DatumAmount(EscrowWalk.DatumBytes(d)) == Some(if d.negative then -1 - d.mag else d.mag)
  {
    hide EscrowWalk.EscrowOutput, EscrowWalk.DatumRecipient, EscrowWalk.DatumAmount, EscrowWalk.DatumBytes,
      EscrowWalk.Locks, EscrowWalk.Blocked, EscrowWalk.EBodyItem, Encode, Wf;
    EscrowWalk.EscrowOutputExact(t, [], escrow);
    assert Encode(EscrowWalk.EBodyItem(t)) + [] == body;
    EscrowWalk.DatumReadersExact(d);
  }

  /** When the relayer's witness carries an encoded escrow transaction with a lock, a mint passes exactly when that
      transaction is certified, backs it, and is nullified here. */
  lemma MintMatchesTheLock(env: Env, args: Bytes, tx: Tx, self: Digest, p: Proof, t: EscrowWalk.EBody,
                           d: EscrowWalk.Datum)
    requires |args| >= XadaMint.ARGS_LEN && Packable(p) && Encodes(p.body, t, XadaMint.TermsOf(args).escrow, d)
    requires SumAmounts(Select(tx.ins, self)) == Some(0) && SumAmounts(Select(tx.outs, self)).Some?
    requires XadaMint.OutSum(tx, self) > 0
    requires var c := Checkpoint(tx.deps, XadaMint.TermsOf(args).checkpoint); c.Agreed? && c.height > 0
    requires GroupWitness(tx, self).Some? && GroupWitness(tx, self).value.inputType == Some(Transcode(p))
    ensures XadaMint.Verdict(env, args, tx, self) == 0 <==>
              && Certified(env, Checkpoint(tx.deps, XadaMint.TermsOf(args).checkpoint).root, p)
              && Backs(t, XadaMint.TermsOf(args).escrow, d, XadaMint.OutSum(tx, self), Select(tx.outs, self))
              && InsertsKey(tx, XadaMint.TermsOf(args).registry, XadaMint.Key(env, p.body))
  {
    hide EscrowWalk.EscrowOutput, EscrowWalk.DatumRecipient, EscrowWalk.DatumAmount, EscrowWalk.DatumBytes,
      EscrowWalk.Locks, EscrowWalk.Blocked, Select, XadaMint.Verdict, Transcode, Packable, InsertsKey, AllAt,
      Checkpoint, GroupWitness, SumAmounts, Certified;
    Reading(p.body, t, XadaMint.TermsOf(args).escrow, d);
    hide Encodes;
    XadaMint.MintExact(env, args, tx, self, p);
  }

  /** The owner lock of the xUDT follows the same rule. */
  lemma OwnerMintMatchesTheLock(env: Env, args: Bytes, tx: Tx, self: Digest, p: Proof, t: EscrowWalk.EBody,
                                d: EscrowWalk.Datum)
    requires |args| >= XadaOwner.ARGS_LEN && Packable(p) && Encodes(p.body, t, XadaOwner.TermsOf(args).escrow, d)
    requires SumAmounts(XadaOwner.Tokens(env, tx.ins, self)) == Some(0)
    requires SumAmounts(XadaOwner.Tokens(env, tx.outs, self)).Some?
    requires XadaOwner.OutSum(env, tx, self) > 0
    requires var c := Checkpoint(tx.deps, XadaOwner.TermsOf(args).checkpoint); c.Agreed? && c.height > 0
    requires WitnessAt(tx, FirstLock(tx.ins, self)).Some?
    requires WitnessAt(tx, FirstLock(tx.ins, self)).value.lock == Some(Transcode(p))
    ensures XadaOwner.Verdict(env, args, tx, self) == 0 <==>
              && Certified(env, Checkpoint(tx.deps, XadaOwner.TermsOf(args).checkpoint).root, p)
              && Backs(t, XadaOwner.TermsOf(args).escrow, d, XadaOwner.OutSum(env, tx, self),
                       XadaOwner.Tokens(env, tx.outs, self))
              && InsertsKey(tx, XadaOwner.TermsOf(args).registry, XadaMint.Key(env, p.body))
  {
    hide EscrowWalk.EscrowOutput, EscrowWalk.DatumRecipient, EscrowWalk.DatumAmount, EscrowWalk.DatumBytes,
      EscrowWalk.Locks, EscrowWalk.Blocked, XadaOwner.Tokens, XadaOwner.Verdict, Transcode, Packable, InsertsKey, AllAt,
      Checkpoint, WitnessAt, FirstLock, SumAmounts, Certified;
    Reading(p.body, t, XadaOwner.TermsOf(args).escrow, d);
    hide Encodes;
    XadaOwner.OwnerExact(env, args, tx, self, p);
  }

  /** A mint against an encoded body is exactly the first lock, to its recipient. */
  lemma MintIsTheFirstLock(env: Env, args: Bytes, tx: Tx, self: Digest, t: EscrowWalk.EBody, d: EscrowWalk.Datum)
    requires |args| >= XadaMint.ARGS_LEN && XadaMint.Mints(env, args, tx, self)
    requires Encodes(XadaMint.EscrowBody(env, args, tx, self), t, XadaMint.TermsOf(args).escrow, d)
    ensures XadaMint.OutSum(tx, self) == EscrowWalk.Locks(t.outputs, XadaMint.TermsOf(args).escrow)[0].0
    ensures AllAt(Select(tx.outs, self), d.recipient)
  {
    hide XadaMint.EscrowBody, XadaMint.Verdict, EscrowWalk.EscrowOutput, EscrowWalk.DatumBytes,
      EscrowWalk.DatumRecipient, EscrowWalk.DatumAmount, EscrowWalk.Locks, EscrowWalk.Blocked, Select, AllAt,
      InsertsKey, Checkpoint, Certified, Encodes;
    XadaMint.MintMeans(env, args, tx, self);
    Reading(XadaMint.EscrowBody(env, args, tx, self), t, XadaMint.TermsOf(args).escrow, d);
  }

  /** And in every run at most one transaction mints a token against one body: whatever else the body locks is stranded
      (`EscrowWalk.OneLockPerBody` says how much). */
  lemma OneMintPerBody(env: Env, start: State, txs: seq<Tx>, th: Digest, i: nat, j: nat)
    requires i <= j < |txs| && env.script(th).XadaMint?
    requires |env.script(th).args| >= XadaMint.ARGS_LEN && env.script(Conservation.RegistryOf(env, th)).Registry?
    requires RegistryRun(env, Conservation.RegistryOf(env, th), start, txs)
    requires NoneLive(start, Conservation.RegistryOf(env, th))
    requires Conservation.MintsHere(env, txs[i], th) && Conservation.MintsHere(env, txs[j], th)
    requires XadaMint.EscrowBody(env, env.script(th).args, txs[i], th)
             == XadaMint.EscrowBody(env, env.script(th).args, txs[j], th)
    ensures i == j || Broken(env, Conservation.RegistryOf(env, th), txs)
  {
    hide ReplayOnce.Uses, Broken, XadaMint.EscrowBody, XadaMint.Mints, RegistryRun, NoneLive, Conservation.RegistryOf;
    if i < j {
      Conservation.MintUses(env, txs[i], th);
      Conservation.MintUses(env, txs[j], th);
      var body := XadaMint.EscrowBody(env, env.script(th).args, txs[i], th);
      ReplayOnce.ClaimUsedOnce(env, start, txs, Conservation.RegistryOf(env, th), i, j, ReplayOnce.Minted(body));
    }
  }

  // ---- leaps ----

  /** A leap to CKB shows a transaction that consumes the stored seal, and whose datum, as it is read from output 0,
      binds the state, that seal and the lock the cell lands on. That datum is the inline datum of output 0 when it
      names no hash. */
  lemma LeapShowsTheSeal(env: Env, args: Bytes, tx: Tx, self: Digest, t: BodyParseExact.TxBody,
                         d: BodyParseExact.SealDatum)
    requires BoundAsset.Verdict(env, args, tx, self) == 0
    requires Select(tx.ins, self) != [] && Select(tx.outs, self) != []
    requires |Select(tx.ins, self)[0].data| >= BoundAsset.CELL_LEN
    requires Select(tx.ins, self)[0].data[1] == BoundAsset.CARDANO_BOUND
    requires Shown(env, args, tx, self, t)
    requires BodyParseExact.WfSeal(d) && BodyParseExact.BodyDatum(t.entries, true) == BodyParseExact.SealBytes(d)
    requires |BodyParseExact.SealBytes(d)| < U64
    ensures var inp, out := Select(tx.ins, self)[0], Select(tx.outs, self)[0];
            && |out.data| >= BoundAsset.CELL_LEN
            && (inp.data[2..34], FromLE(inp.data[34..38])) in BodyParseExact.Outpoints(t.entries)
            && out.data[70..] == inp.data[70..]
            && out.lock == d.recipient
            && d.commitment == env.b2b(inp.data[70..] + inp.data[2..38] + d.recipient)
    ensures !BodyParseExact.NamesHash(t.entries) ==> BodyParseExact.Declared(t) == BodyParseExact.SealBytes(d)
  {
    hide BoundAsset.Verdict, BodyParse.Parse, BodyParse.SealCommitment, BodyParse.SealRecipient,
      BodyParseExact.SealBytes, BodyParseExact.BodyDatum, BodyParseExact.NamesHash, BodyParseExact.Outpoints,
      BodyParseExact.TxItem, BodyParseExact.ReadableEntries, Encode, Wf, Select, BoundAsset.ShownBody, InsertsKey,
      BoundAsset.Key;
    var b := Encode(BodyParseExact.TxItem(t));
    BoundAsset.AcceptedIsLegal(env, args, tx, self);
    assert b + [] == b;
    BodyParseExact.ParseExact(t, [], env.stack);
    BodyParseExact.BodyDatumGrows(t.entries);
    BodyParseExact.SealReadersExact(d, env.stack);
  }

  /** The accepted group shows an encoding of `t`. */
  predicate Shown(env: Env, args: Bytes, tx: Tx, self: Digest, t: BodyParseExact.TxBody)
    requires BoundAsset.Verdict(env, args, tx, self) == 0
  {
    && Wf(BodyParseExact.TxItem(t)) && BodyParseExact.Readable(t) && env.stack > MAX_DEPTH
    && BoundAsset.ShownBody(env, args, tx, self) == Encode(BodyParseExact.TxItem(t))
    && |Encode(BodyParseExact.TxItem(t))| < U64
  }

  /** A transaction that leaves a bound cell behind has a real datum: where output 0 has one datum option at most,
      that is an inline datum and not a hash. */
  lemma NoHashCommits(env: Env, args: Bytes, tx: Tx, self: Digest, t: BodyParseExact.TxBody)
    requires BoundAsset.Verdict(env, args, tx, self) == 0 && Select(tx.outs, self) != []
    requires Shown(env, args, tx, self, t) && BodyParseExact.Options(t.entries) <= 1
    ensures !BodyParseExact.NamesHash(t.entries)
  {
    hide BoundAsset.Verdict, BoundAsset.Legal, BodyParse.Parse, BodyParse.SealCommitment, BodyParseExact.BodyDatum,
      BodyParseExact.NamesHash, BodyParseExact.Outpoints, BodyParseExact.TxItem, BodyParseExact.ReadableEntries,
      BodyParseExact.Options, Encode, Wf, Select, BoundAsset.ShownBody;
    var b := Encode(BodyParseExact.TxItem(t));
    BoundAsset.AcceptedIsLegal(env, args, tx, self);
    BoundAsset.LegalOutput(env, BoundAsset.ShownEvidence(env, args, tx, self), tx, Select(tx.ins, self),
                           Select(tx.outs, self));
    assert b + [] == b;
    BodyParseExact.ParseExact(t, [], env.stack);
    BodyParseExact.CommitmentIsShorter(BodyParseExact.BodyDatum(t.entries, true), env.stack);
    BodyParseExact.OneHashIsShort(t.entries);
  }
}
