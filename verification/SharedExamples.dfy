/** Runs in which two scripts use one registry insertion: the inputs behind `SharedInsertion`. */
module SharedExamples {
  import opened Basics
  import opened Cbor
  import opened SealWalk
  import opened Ledger
  import opened Scripts
  import opened WitnessLayout
  import opened Runs
  import opened RegistryRuns
  import opened Bridge
  import opened RegistryLiveness
  import opened ReplayOnce
  import opened SharedRun
  import MintField
  import EscrowWalk
  import XadaMint
  import BurnUnlock
  import XadaOwner
  import OwnerTokens
  import BurnReceipt

  // ---- two releases ----

  /** Lock args for 5 units of an asset. */
  function ReleaseArgs(checkpoint: Digest, policy: Bytes, reg: Digest, name: Bytes): Bytes {
    checkpoint + (LE(5, 16) + (policy + (reg + name)))
  }

  lemma ReleaseTerms(checkpoint: Digest, policy: Bytes, reg: Digest, name: Bytes)
    requires |policy| == 28
    ensures var args := ReleaseArgs(checkpoint, policy, reg, name);
            |args| >= BurnUnlock.ARGS_LEN
                && BurnUnlock.TermsOf(args) == BurnUnlock.Terms(checkpoint, 5, policy, reg, name)
  {
    BurnUnlock.U128Bytes();
    FromLEOfLE(5, 16);
    hide LE, FromLE;
    var args := ReleaseArgs(checkpoint, policy, reg, name);
    AtWhole(args);
    hide At;
    FourParts(args, checkpoint, LE(5, 16), policy, reg, name);
    assert args[108..] == name;
  }

  /** Two assets of one policy, 5 burned of each. */
  function TwoBurns(name: Bytes, second: Bytes): MintField.AssetList {
    MintField.Asset(0, name, 0, true, 4, MintField.Asset(0, second, 0, true, 4, MintField.NoAsset))
  }

  /** The encoded burn of both assets; nothing where a length does not fit. */
  function BurnBytes(id: Digest, policy: Bytes, name: Bytes, second: Bytes): Bytes {
    var it := MintField.MintBodyItem(MintField.WithMint(id, policy, TwoBurns(name, second)));
    if Wf(it) then Encode(it) else []
  }

  lemma TwoBurnsPass(id: Digest, policy: Bytes, name: Bytes, second: Bytes)
    requires |policy| < 256 && |name| < 24 && |second| < 24 && name != second
    ensures var body := BurnBytes(id, policy, name, second);
            && |body| < U32 && MintField.MintQty(body, policy, name) == MintField.RequiredQty(5)
            && MintField.MintQty(body, policy, second) == MintField.RequiredQty(5)
  {
    var assets := TwoBurns(name, second);
    var t, minus := MintField.WithMint(id, policy, assets), Scalar(1, 0, 4);
    assert MintField.AssetItems(MintField.NoAsset) == Nil;
    assert MintField.AssetItems(assets.tail) == Cons(Str(2, 0, second), Cons(minus, Nil));
    assert MintField.AssetSum(MintField.NoAsset, name) == MintField.AssetSum(MintField.NoAsset, second) == 0;
    assert MintField.AssetSum(assets.tail, name) == 0 && MintField.AssetSum(assets.tail, second) == -5;
    assert MintField.AssetSum(assets, name) == MintField.AssetSum(assets, second) == -5;
    hide MintField.AssetSum, MintField.MintQty, MintField.WithMint, MintField.MintBodyItem;
    TwoMore(Str(2, 0, second), minus, Nil);
    TwoMore(Str(2, 0, name), minus, MintField.AssetItems(assets.tail));
    MintField.WithMintIs(id, policy, assets);
    hide Encode;
    MintField.MintQtyExact(t, policy, name);
    MintField.MintQtyExact(t, policy, second);
  }

  /** The transaction that shows one body to both locks and inserts its key. */
  ghost function Showing(env: Env, s: Setting, body: Bytes, key: Digest, tokens: seq<Cell>): Tx
    requires |tokens| <= 2
  {
    Together(env, s, RootOf(env, s.range, body), key, Transcode(ProofOf(env, s.range, body)), tokens)
  }

  /** A lock for 5 units opens on a body that burns 5. */
  lemma LockReleases(env: Env, s: Setting, k: nat, lh: Digest, policy: Bytes, name: Bytes, body: Bytes)
    requires s.Apart() && env.mmr == SingleLeaf && |policy| == 28 && |body| < U32
    requires (k == 0 && lh == s.one) || (k == 1 && lh == s.other)
    requires env.script(lh) == BurnUnlock(ReleaseArgs(s.checkpoint, policy, s.reg, name))
    requires MintField.MintQty(body, policy, name) == MintField.RequiredQty(5)
    ensures Release(env, Showing(env, s, body, BurnUnlock.Key(env, body), []), k, lh, body)
  {
    hide Transcode, Read, Packable, InsertsKey, BurnUnlock.Verdict, BurnUnlock.TermsOf, MintField.MintQty,
      BurnUnlock.Key, MintField.RequiredQty, FirstLock, SelectLock, BurnUnlock.CertRoot, Certified, ReleaseArgs,
      Checkpoint, WitnessAt, RootOf, ProofOf, FirstInsertion;
    var p, root, key := ProofOf(env, s.range, body), RootOf(env, s.range, body), BurnUnlock.Key(env, body);
    ProofIs(env, s.range, body);
    TogetherIs(env, s, root, key, Transcode(p), []);
    ReleaseTerms(s.checkpoint, policy, s.reg, name);
    BurnUnlock.ReleaseExact(env, ReleaseArgs(s.checkpoint, policy, s.reg, name), Showing(env, s, body, key, []), lh,
                            root, p);
  }

  /** For all hash functions there is a run that every script accepts in which two locks, which differ in the asset
      name, open on one burn of both assets, and the registry takes its key once. */
  lemma TwoLocksRelease(base: Env, s: Setting, id: Digest, policy: Bytes, name: Bytes, second: Bytes)
    returns (env: Env, create: Tx, tx: Tx)
    requires s.Apart() && |policy| == 28 && |name| < 24 && |second| < 24 && name != second
    ensures env == base.(script := env.script, mmr := env.mmr) && env.script(s.reg) == Script.Registry(env.ckb([9]))
    ensures env.script(s.one) == BurnUnlock(ReleaseArgs(s.checkpoint, policy, s.reg, name))
    ensures env.script(s.other) == BurnUnlock(ReleaseArgs(s.checkpoint, policy, s.reg, second))
    ensures ValidRun(env, Start(s), [create, tx]) && NoneLive(Start(s), s.reg)
    ensures var body := BurnBytes(id, policy, name, second);
            && Release(env, tx, 0, s.one, body) && Release(env, tx, 1, s.other, body)
            && InsertsKey(tx, s.reg, BurnUnlock.Key(env, body))
  {
    hide Transcode, InsertsKey, BurnUnlock.Verdict, MintField.MintQty, MintField.RequiredQty, ReleaseArgs, BurnBytes,
      RootOf, ProofOf, ValidRun, NoneLive, Accepted, Together, BurnUnlock.Key, BurnUnlock.BurnBody, Checkpoint,
      FirstLock, SelectLock, BurnUnlock.CertRoot, FirstOf;
    var args := ReleaseArgs(s.checkpoint, policy, s.reg, name);
    var args2 := ReleaseArgs(s.checkpoint, policy, s.reg, second);
    env := World(base, s.reg, h => if h == s.one then BurnUnlock(args) else if h == s.other then BurnUnlock(args2)
                                   else Script.Other);
    var body := BurnBytes(id, policy, name, second);
    TwoBurnsPass(id, policy, name, second);
    tx := Showing(env, s, body, BurnUnlock.Key(env, body), []);
    LockReleases(env, s, 0, s.one, policy, name, body);
    LockReleases(env, s, 1, s.other, policy, second, body);
    var root, proof := RootOf(env, s.range, body), Transcode(ProofOf(env, s.range, body));
    TogetherIs(env, s, root, BurnUnlock.Key(env, body), proof, []);
    TogetherAccepted(env, s, root, BurnUnlock.Key(env, body), proof, []);
    create := TogetherRuns(env, s, root, BurnUnlock.Key(env, body), proof, []);
  }

  // ---- two mints ----

  /** {0: [[id, 0]], 1: [{0: escrow, 1: 7, 2: [1, 24(datum)]}, {0: change, 1: 5, 2: [1, 24(datum)]}]} */
  function EscrowBody(id: Digest, escrow: Bytes, change: Bytes, datum: Bytes): EscrowWalk.EBody {
    EscrowWalk.EBody(0, Entry(0, 0, OneInput(id), NoEntry), 0, 0,
                     EscrowWalk.MoreEOutputs(LockOf(escrow, 7, datum),
                                             EscrowWalk.MoreEOutputs(LockOf(change, 5, datum), EscrowWalk.NoEOutput)),
                     NoEntry)
  }

  function LockOf(addr: Bytes, coin: nat, datum: Bytes): EscrowWalk.EOutput {
    EscrowWalk.LockOutput(addr, coin, EscrowWalk.EDatum(0, 0, Scalar(0, 0, 1), 1, 1, datum))
  }

  /** A datum for 7 lovelace. */
  function LockDatum(recipient: Digest): EscrowWalk.Datum {
    EscrowWalk.Datum(1, 121, None, 1, recipient, 0, false, 7, [0xff])
  }

  lemma EscrowIsRead(id: Digest, escrow: Bytes, change: Bytes, datum: Bytes)
    requires 0 < |escrow| < 256 && |change| < 256 && |datum| < 256
    ensures var it := EscrowWalk.EBodyItem(EscrowBody(id, escrow, change, datum));
            Wf(it) && |Encode(it)| < U32 && EscrowWalk.EscrowOutput(Encode(it), escrow) == Some((7, datum))
  {
    hide Encode, EscrowWalk.EscrowOutput, EscrowWalk.LockOutput, EscrowWalk.HasHash, EscrowWalk.EAddressOf,
      EscrowWalk.ECoinOf, EscrowWalk.EDatumOf, EscrowWalk.EFieldsLimited, EscrowWalk.EValue, Wf, EscrowWalk.ELimited,
      OneInput;
    var x := EscrowWalk.EDatum(0, 0, Scalar(0, 0, 1), 1, 1, datum);
    EscrowWalk.OptionWf(x);
    EscrowWalk.LockOutputIs(escrow, 7, x);
    EscrowWalk.LockOutputIs(change, 5, x);
    EscrowWalk.TwoOutputs(id, LockOf(escrow, 7, datum), LockOf(change, 5, datum));
    var t := EscrowBody(id, escrow, change, datum);
    EscrowWalk.EscrowOutputExact(t, [], escrow);
    assert Encode(EscrowWalk.EBodyItem(t)) + [] == Encode(EscrowWalk.EBodyItem(t));
  }

  lemma LockDatumIs(recipient: Digest)
    ensures EscrowWalk.WfDatum(LockDatum(recipient)) && |EscrowWalk.DatumBytes(LockDatum(recipient))| < 256
  {
    assert Pow256(1) == 256;
  }

  /** The encoded escrow transaction; nothing where a length does not fit. */
  function EscrowBytes(id: Digest, escrow: Bytes, change: Bytes, recipient: Digest): Bytes {
    var d := LockDatum(recipient);
    if !EscrowWalk.WfDatum(d) then []
    else
      var it := EscrowWalk.EBodyItem(EscrowBody(id, escrow, change, EscrowWalk.DatumBytes(d)));
      if Wf(it) then Encode(it) else []
  }

  /** The body locks 7 lovelace for the recipient. */
  predicate LocksSeven(body: Bytes, escrow: Bytes, recipient: Digest) {
    && |body| < U32 && EscrowWalk.EscrowOutput(body, escrow).Some?
    && var (locked, datum) := EscrowWalk.EscrowOutput(body, escrow).value;
       && locked == 7 && EscrowWalk.DatumAmount(datum) == Some(7) && EscrowWalk.DatumRecipient(datum) == Some(recipient)
  }

  lemma EscrowLocksSeven(id: Digest, escrow: Bytes, change: Bytes, recipient: Digest)
    requires 0 < |escrow| < 256 && |change| < 256
    ensures LocksSeven(EscrowBytes(id, escrow, change, recipient), escrow, recipient)
  {
    hide Encode, EscrowWalk.EscrowOutput, EscrowWalk.DatumRecipient, EscrowWalk.DatumAmount, EscrowWalk.DatumBytes,
      EscrowWalk.EBodyItem, EscrowBody, Wf;
    LockDatumIs(recipient);
    EscrowWalk.DatumReadersExact(LockDatum(recipient));
    EscrowIsRead(id, escrow, change, EscrowWalk.DatumBytes(LockDatum(recipient)));
  }

  /** Owner args. */
  function OwnerArgs(salt: Byte, checkpoint: Digest, reg: Digest, escrow: Bytes): Bytes {
    [salt] + (checkpoint + (reg + escrow))
  }

  lemma OwnerTerms(salt: Byte, checkpoint: Digest, reg: Digest, escrow: Bytes)
    requires escrow != []
    ensures var args := OwnerArgs(salt, checkpoint, reg, escrow);
            |args| >= XadaOwner.ARGS_LEN && XadaOwner.TermsOf(args) == XadaMint.Terms(checkpoint, reg, escrow)
  {
    var args := OwnerArgs(salt, checkpoint, reg, escrow);
    AtWhole(args);
    AtSplit(args, 0, [salt], checkpoint + (reg + escrow));
    AtSplit(args, 1, checkpoint, reg + escrow);
    AtSplit(args, 33, reg, escrow);
  }

  /** A cell of 7 in a list is all that its owner has. */
  lemma OneOwned(env: Env, a: seq<Cell>, c: Cell, b: seq<Cell>, owner: Digest)
    requires XadaOwner.IsXada(env, c, owner) && c.data == LE(7, 16) && AllAt([c], c.lock)
    requires forall x :: x in a || x in b ==> !XadaOwner.IsXada(env, x, owner)
    ensures SumAmounts(XadaOwner.Tokens(env, a + [c] + b, owner)) == Some(7)
    ensures AllAt(XadaOwner.Tokens(env, a + [c] + b, owner), c.lock)
  {
    hide LE, SumAmounts, XadaOwner.Tokens, XadaOwner.IsXada;
    OwnerTokens.OneToken(env, c, owner, 7);
    NotOwned(env, a, owner);
    NotOwned(env, b, owner);
    XadaOwner.TokensAppend(env, a, [c], owner);
    XadaOwner.TokensAppend(env, a + [c], b, owner);
    assert XadaOwner.Tokens(env, a + [c] + b, owner) == XadaOwner.Tokens(env, [c], owner);
    XadaOwner.TokensAre(env, [c], owner);
  }

  lemma {:induction false} NotOwned(env: Env, cells: seq<Cell>, owner: Digest)
    requires forall c :: c in cells ==> !XadaOwner.IsXada(env, c, owner)
    ensures XadaOwner.Tokens(env, cells, owner) == []
  {
    hide XadaOwner.IsXada;
    if cells != [] { NotOwned(env, cells[1..], owner); }
  }

  lemma InputsOwnNothing(env: Env, s: Setting, root: Digest, key: Digest, proof: Bytes, tokens: seq<Cell>,
                         owner: Digest)
    requires !env.script(s.reg).Xudt? && |tokens| <= 2
    ensures SumAmounts(XadaOwner.Tokens(env, Together(env, s, root, key, proof, tokens).ins, owner)) == Some(0)
  {
    hide SumAmounts, XadaOwner.Tokens, FirstInsertion, LE;
    NotOwned(env, Together(env, s, root, key, proof, tokens).ins, owner);
    AmountOfOne(Cell(owner, None, LE(7, 16)), 7);
  }

  /** An owner lock mints its 7. */
  lemma OwnerMints(env: Env, s: Setting, k: nat, lh: Digest, salt: Byte, escrow: Bytes, recipient: Digest,
                   tokens: seq<Cell>, body: Bytes)
    requires s.Apart() && env.mmr == SingleLeaf && !env.script(s.reg).Xudt? && escrow != [] && |tokens| <= 2
    requires (k == 0 && lh == s.one) || (k == 1 && lh == s.other)
    requires env.script(lh) == XadaOwner(OwnerArgs(salt, s.checkpoint, s.reg, escrow))
    requires LocksSeven(body, escrow, recipient)
    requires var outs := tokens + [RegistryCell(env, s, {XadaMint.Key(env, body)})];
             && SumAmounts(XadaOwner.Tokens(env, outs, lh)) == Some(7)
             && AllAt(XadaOwner.Tokens(env, outs, lh), recipient)
    ensures var tx := Showing(env, s, body, XadaMint.Key(env, body), tokens);
            && XadaOwner.Mints(env, env.script(lh).args, tx, lh, body) && XadaOwner.OutSum(env, tx, lh) == 7
  {
    hide XadaOwner.IsXada, RegistryCell, Checkpointed, Transcode, Read, Packable, InsertsKey, XadaOwner.Verdict,
      XadaOwner.TermsOf, XadaOwner.Tokens, SumAmounts, FirstLock, SelectLock, FirstOf, BurnUnlock.CertRoot, Certified,
      OwnerArgs, Checkpoint, WitnessAt, RootOf, ProofOf, AllAt, XadaMint.Key, FirstInsertion, EscrowWalk.EscrowOutput,
      EscrowWalk.DatumRecipient, EscrowWalk.DatumAmount;
    var p, root, key := ProofOf(env, s.range, body), RootOf(env, s.range, body), XadaMint.Key(env, body);
    var tx := Showing(env, s, body, key, tokens);
    ProofIs(env, s.range, body);
    TogetherIs(env, s, root, key, Transcode(p), tokens);
    InputsOwnNothing(env, s, root, key, Transcode(p), tokens, lh);
    OwnerTerms(salt, s.checkpoint, s.reg, escrow);
    XadaOwner.OwnerExact(env, env.script(lh).args, tx, lh, p);
  }

  /** The run, when both locks pass and the types of the tokens. */
  lemma MintsRun(env: Env, s: Setting, body: Bytes, key: Digest, tokens: seq<Cell>)
    requires s.Apart() && env.script(s.reg) == Script.Registry(env.ckb([9])) && PlainLock(env, s.plain)
    requires |tokens| <= 2 && forall c :: c in tokens ==> c.typ.Some? && c.typ.value != s.reg
    requires var tx := Showing(env, s, body, key, tokens);
             && LockVerdict(env, tx, s.one) == 0 && LockVerdict(env, tx, s.other) == 0
             && forall c :: c in tokens ==> TypeVerdict(env, tx, c.typ.value) == 0
    ensures Accepted(env, Showing(env, s, body, key, tokens))
    ensures InsertsKey(Showing(env, s, body, key, tokens), s.reg, key)
  {
    hide Transcode, InsertsKey, RootOf, ProofOf, Together, Checkpoint, FirstLock, SelectLock, BurnUnlock.CertRoot,
      FirstOf, TypeVerdict, LockVerdict, Accepted;
    TogetherIs(env, s, RootOf(env, s.range, body), key, Transcode(ProofOf(env, s.range, body)), tokens);
    TogetherAccepted(env, s, RootOf(env, s.range, body), key, Transcode(ProofOf(env, s.range, body)), tokens);
  }

  /** 7 of each token for the recipient. */
  function Sevens(recipient: Digest, a: Digest, b: Digest): seq<Cell> {
    [Cell(recipient, Some(a), LE(7, 16)), Cell(recipient, Some(b), LE(7, 16))]
  }

  /** Each owner has its own token. */
  lemma OwnersHaveSeven(env: Env, s: Setting, a: Digest, b: Digest, recipient: Digest, keys: set<Digest>)
    requires s.one != s.other && env.script(a) == Xudt(s.one) && env.script(b) == Xudt(s.other)
    requires !env.script(s.reg).Xudt?
    requires recipient != seq(32, i => 0)
    ensures var outs := Sevens(recipient, a, b) + [RegistryCell(env, s, keys)];
            && SumAmounts(XadaOwner.Tokens(env, outs, s.one)) == Some(7)
            && AllAt(XadaOwner.Tokens(env, outs, s.one), recipient)
            && SumAmounts(XadaOwner.Tokens(env, outs, s.other)) == Some(7)
            && AllAt(XadaOwner.Tokens(env, outs, s.other), recipient)
  {
    hide AllAt, LE, SumAmounts, XadaOwner.Tokens, XadaOwner.IsXada;
    var x, y, r := Sevens(recipient, a, b)[0], Sevens(recipient, a, b)[1], RegistryCell(env, s, keys);
    OwnedBy(env, x, s.one, recipient);
    OwnedBy(env, y, s.other, recipient);
    NoToken(env, r);
    OneOwned(env, [], x, [y, r], s.one);
    OneOwned(env, [x], y, [r], s.other);
    assert [] + [x] + [y, r] == Sevens(recipient, a, b) + [r] == [x] + [y] + [r];
  }

  /** An xUDT of an owner is its token, and nobody else's. */
  lemma OwnedBy(env: Env, c: Cell, owner: Digest, recipient: Digest)
    requires c.typ.Some? && env.script(c.typ.value) == Xudt(owner) && c.lock == recipient != seq(32, i => 0)
    ensures AllAt([c], recipient) && forall o: Digest :: XadaOwner.IsXada(env, c, o) <==> o == owner
  {
    assert forall o: Digest :: o[..32] == o;
  }

  lemma AtRecipient(c: Cell)
    requires c.lock != seq(32, i => 0)
    ensures AllAt([c], c.lock)
  {
  }

  lemma NoToken(env: Env, c: Cell)
    requires c.typ.Some? && !env.script(c.typ.value).Xudt?
    ensures forall o: Digest :: !XadaOwner.IsXada(env, c, o)
  {
  }

  /** For all hash functions there is a run that every script accepts in which two owner locks, which differ in the
      salt, each mint the whole of one escrow lock, each its own token, and the registry takes its key once. */
  lemma TwoOwnersMint(base: Env, s: Setting, a: Digest, b: Digest, id: Digest, escrow: Bytes, change: Bytes,
                      recipient: Digest) returns (env: Env, create: Tx, tx: Tx)
    requires s.Apart() && a !in {s.one, s.other, s.plain, s.reg} && b !in {s.one, s.other, s.plain, s.reg, a}
    requires 0 < |escrow| < 256 && |change| < 256 && recipient != seq(32, i => 0)
    ensures env == base.(script := env.script, mmr := env.mmr) && env.script(s.reg) == Script.Registry(env.ckb([9]))
    ensures env.script(s.one) == XadaOwner(OwnerArgs(0, s.checkpoint, s.reg, escrow))
    ensures env.script(s.other) == XadaOwner(OwnerArgs(1, s.checkpoint, s.reg, escrow))
    ensures ValidRun(env, Start(s), [create, tx]) && NoneLive(Start(s), s.reg)
    ensures var body := EscrowBytes(id, escrow, change, recipient);
            && LocksSeven(body, escrow, recipient) && InsertsKey(tx, s.reg, XadaMint.Key(env, body))
            && XadaOwner.Mints(env, env.script(s.one).args, tx, s.one, body) && XadaOwner.OutSum(env, tx, s.one) == 7
            && XadaOwner.Mints(env, env.script(s.other).args, tx, s.other, body)
            && XadaOwner.OutSum(env, tx, s.other) == 7
  {
    hide Transcode, InsertsKey, XadaOwner.Verdict, XadaOwner.Tokens, SumAmounts, OwnerArgs, EscrowBytes, LocksSeven,
      RootOf, ProofOf, ValidRun, NoneLive, Accepted, Together, XadaMint.Key, Checkpoint, FirstLock, SelectLock,
      BurnUnlock.CertRoot, FirstOf, AllAt, LE, XadaOwner.OutSum, XadaOwner.InSum, WitnessAt, Read, RegistryCell;
    var args, args2 := OwnerArgs(0, s.checkpoint, s.reg, escrow), OwnerArgs(1, s.checkpoint, s.reg, escrow);
    env := World(base, s.reg, h => if h == s.one then XadaOwner(args) else if h == s.other then XadaOwner(args2)
                                   else if h == a then Xudt(s.one) else if h == b then Xudt(s.other) else Script.Other);
    var body, tokens := EscrowBytes(id, escrow, change, recipient), Sevens(recipient, a, b);
    var key := XadaMint.Key(env, body);
    EscrowLocksSeven(id, escrow, change, recipient);
    OwnersHaveSeven(env, s, a, b, recipient, {key});
    OwnerMints(env, s, 0, s.one, 0, escrow, recipient, tokens, body);
    OwnerMints(env, s, 1, s.other, 1, escrow, recipient, tokens, body);
    tx := Showing(env, s, body, key, tokens);
    MintsRun(env, s, body, key, tokens);
    create := TogetherRuns(env, s, RootOf(env, s.range, body), key, Transcode(ProofOf(env, s.range, body)), tokens);
  }

  /** Args of the type script. */
  function MintArgs(checkpoint: Digest, reg: Digest, escrow: Bytes): Bytes {
    checkpoint + (reg + escrow)
  }

  lemma MintTerms(checkpoint: Digest, reg: Digest, escrow: Bytes)
    requires escrow != []
    ensures var args := MintArgs(checkpoint, reg, escrow);
            |args| >= XadaMint.ARGS_LEN && XadaMint.TermsOf(args) == XadaMint.Terms(checkpoint, reg, escrow)
  {
    var args := MintArgs(checkpoint, reg, escrow);
    AtWhole(args);
    AtSplit(args, 0, checkpoint, reg + escrow);
    AtSplit(args, 32, reg, escrow);
  }

  /** What the type script sees: nothing consumed, the first token created, and the proof in the first witness. */
  lemma TypeGroup(env: Env, s: Setting, th: Digest, root: Digest, key: Digest, proof: Bytes, x: Cell, y: Cell)
    requires th != s.reg && x.typ == Some(th) && y.typ != Some(th)
    ensures var tx := Together(env, s, root, key, proof, [x, y]);
            && Select(tx.ins, th) == [] && Select(tx.outs, th) == [x]
            && GroupWitness(tx, th) == Some(WitnessArgs(Some(proof), Some(proof)))
  {
    hide RegistryCell, Checkpointed, FirstInsertion, FirstOf, Select;
    var tx, r := Together(env, s, root, key, proof, [x, y]), RegistryCell(env, s, {key});
    assert r.typ == Some(s.reg) && RegistryCell(env, s, {}).typ == Some(s.reg) by { RegistryTyped(env, s); }
    NotSelected(tx.ins, th);
    NotSelected([y, r], th);
    assert tx.outs == [x] + [y, r];
    BurnReceipt.SelectAppend([x], [y, r], th);
    SelectSingle(x, th);
    assert FirstOf(tx.ins, th) == 3 && FirstOf(tx.outs, th) == 0 by { FirstIs(tx.outs, th); }
  }

  lemma FirstIs(cells: seq<Cell>, th: Digest)
    requires cells != [] && cells[0].typ == Some(th)
    ensures FirstOf(cells, th) == 0
  {
  }

  lemma RegistryTyped(env: Env, s: Setting)
    ensures forall keys :: RegistryCell(env, s, keys).typ == Some(s.reg)
  {
  }

  /** The type script mints its 7. */
  lemma TypeMints(env: Env, s: Setting, th: Digest, escrow: Bytes, recipient: Digest, x: Cell, y: Cell, body: Bytes)
    requires s.Apart() && env.mmr == SingleLeaf && th != s.reg && escrow != [] && LocksSeven(body, escrow, recipient)
    requires env.script(th) == XadaMint(MintArgs(s.checkpoint, s.reg, escrow)) && x.typ == Some(th) && y.typ != Some(th)
    requires x.data == LE(7, 16) && x.lock == recipient != seq(32, i => 0)
    ensures var tx := Showing(env, s, body, XadaMint.Key(env, body), [x, y]);
            && XadaMint.Mints(env, env.script(th).args, tx, th) && XadaMint.OutSum(tx, th) == 7
            && XadaMint.EscrowBody(env, env.script(th).args, tx, th) == body
  {
    hide Transcode, Read, Packable, InsertsKey, XadaMint.Verdict, XadaMint.TermsOf, SumAmounts, FirstLock, SelectLock,
      FirstOf, Select, BurnUnlock.CertRoot, Certified, MintArgs, Checkpoint, WitnessAt, RootOf, ProofOf, AllAt,
      XadaMint.Key, GroupWitness, FirstInsertion, EscrowWalk.EscrowOutput, EscrowWalk.DatumRecipient,
      EscrowWalk.DatumAmount, LE;
    var p, root, key := ProofOf(env, s.range, body), RootOf(env, s.range, body), XadaMint.Key(env, body);
    var tx := Showing(env, s, body, key, [x, y]);
    ProofIs(env, s.range, body);
    TogetherIs(env, s, root, key, Transcode(p), [x, y]);
    TypeGroup(env, s, th, root, key, Transcode(p), x, y);
    AmountOfOne(x, 7);
    AtRecipient(x);
    MintTerms(s.checkpoint, s.reg, escrow);
    XadaMint.MintExact(env, env.script(th).args, tx, th, p);
  }

  /** And a run in which the type script and an owner lock do: each mints the whole of one escrow lock, each its own
      token. */
  lemma TypeAndOwnerMint(base: Env, s: Setting, th: Digest, b: Digest, id: Digest, escrow: Bytes, change: Bytes,
                         recipient: Digest) returns (env: Env, create: Tx, tx: Tx)
    requires s.Apart() && th !in {s.one, s.other, s.plain, s.reg} && b !in {s.one, s.other, s.plain, s.reg, th}
    requires 0 < |escrow| < 256 && |change| < 256 && recipient != seq(32, i => 0)
    ensures env == base.(script := env.script, mmr := env.mmr) && env.script(s.reg) == Script.Registry(env.ckb([9]))
    ensures env.script(th) == XadaMint(MintArgs(s.checkpoint, s.reg, escrow))
    ensures env.script(s.one) == XadaOwner(OwnerArgs(0, s.checkpoint, s.reg, escrow))
    ensures ValidRun(env, Start(s), [create, tx]) && NoneLive(Start(s), s.reg)
    ensures var body := EscrowBytes(id, escrow, change, recipient);
            && LocksSeven(body, escrow, recipient) && InsertsKey(tx, s.reg, XadaMint.Key(env, body))
            && XadaMint.Mints(env, env.script(th).args, tx, th) && XadaMint.OutSum(tx, th) == 7
            && XadaMint.EscrowBody(env, env.script(th).args, tx, th) == body
            && XadaOwner.Mints(env, env.script(s.one).args, tx, s.one, body) && XadaOwner.OutSum(env, tx, s.one) == 7
  {
    hide Transcode, InsertsKey, XadaOwner.Verdict, XadaMint.Verdict, XadaOwner.Tokens, SumAmounts, OwnerArgs, MintArgs,
      EscrowBytes, LocksSeven, RootOf, ProofOf, ValidRun, NoneLive, Accepted, Together, XadaMint.Key, Checkpoint,
      FirstLock, SelectLock, BurnUnlock.CertRoot, FirstOf, AllAt, LE, XadaOwner.OutSum, XadaOwner.InSum, WitnessAt,
      GroupWitness, Read, RegistryCell, Select, XadaMint.OutSum, XadaMint.InSum;
    var args, args2 := OwnerArgs(0, s.checkpoint, s.reg, escrow), MintArgs(s.checkpoint, s.reg, escrow);
    env := World(base, s.reg, h => if h == s.one then XadaOwner(args) else if h == th then XadaMint(args2)
                                   else if h == b then Xudt(s.one) else Script.Other);
    var body, tokens := EscrowBytes(id, escrow, change, recipient), Sevens(recipient, th, b);
    var key := XadaMint.Key(env, body);
    EscrowLocksSeven(id, escrow, change, recipient);
    OwnerHasSeven(env, s, th, b, recipient, {key});
    OwnerMints(env, s, 0, s.one, 0, escrow, recipient, tokens, body);
    TypeMints(env, s, th, escrow, recipient, tokens[0], tokens[1], body);
    assert tokens == [tokens[0], tokens[1]];
    tx := Showing(env, s, body, key, tokens);
    MintsRun(env, s, body, key, tokens);
    create := TogetherRuns(env, s, RootOf(env, s.range, body), key, Transcode(ProofOf(env, s.range, body)), tokens);
  }

  lemma OwnerHasSeven(env: Env, s: Setting, a: Digest, b: Digest, recipient: Digest, keys: set<Digest>)
    requires !env.script(a).Xudt? && env.script(b) == Xudt(s.one) && !env.script(s.reg).Xudt?
    requires recipient != seq(32, i => 0)
    ensures var outs := Sevens(recipient, a, b) + [RegistryCell(env, s, keys)];
            && SumAmounts(XadaOwner.Tokens(env, outs, s.one)) == Some(7)
            && AllAt(XadaOwner.Tokens(env, outs, s.one), recipient)
  {
    hide AllAt, LE, SumAmounts, XadaOwner.Tokens, XadaOwner.IsXada;
    var x, y, r := Sevens(recipient, a, b)[0], Sevens(recipient, a, b)[1], RegistryCell(env, s, keys);
    NoToken(env, x);
    NoToken(env, r);
    OwnedBy(env, y, s.one, recipient);
    OneOwned(env, [x], y, [r], s.one);
    assert Sevens(recipient, a, b) + [r] == [x] + [y] + [r];
  }
}
