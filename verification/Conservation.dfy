/** χADA over whole runs: the live supply and what was burned is what the escrow transactions locked. */
module Conservation {
  import opened Basics
  import opened Ledger
  import opened Scripts
  import opened Runs
  import opened RegistryRuns
  import opened ReplayOnce
  import XadaMint
  import BurnReceipt

  // ---- the supply ----

  /** The amount a cell holds of token `th`. */
  function Amount(c: Cell, th: Digest): nat {
    if c.typ == Some(th) && |c.data| >= 16 then FromLE(c.data[..16]) else 0
  }

  function AmountSum(cells: seq<Cell>, th: Digest): nat {
    if cells == [] then 0 else Amount(cells[0], th) + AmountSum(cells[1..], th)
  }

  ghost function Total(live: map<Bytes, Cell>, th: Digest): nat
    decreases |live|
  {
    if live == map[] then 0
    else
      var p :| p in live;
      Amount(live[p], th) + Total(live - {p}, th)
  }

  /** All the live tokens. */
  ghost function Supply(s: State, th: Digest): nat {
    Total(s.live, th)
  }

  lemma {:induction false} TotalRemove(live: map<Bytes, Cell>, th: Digest, p: Bytes)
    requires p in live
    ensures Total(live, th) == Amount(live[p], th) + Total(live - {p}, th)
    decreases |live|
  {
    var q :| q in live && Total(live, th) == Amount(live[q], th) + Total(live - {q}, th);
    if p != q {
      TotalRemove(live - {q}, th, p);
      TotalRemove(live - {p}, th, q);
      assert live - {q} - {p} == live - {p} - {q};
    }
  }

  lemma TotalAdd(live: map<Bytes, Cell>, th: Digest, p: Bytes, c: Cell)
    requires p !in live
    ensures Total(live[p := c], th) == Total(live, th) + Amount(c, th)
  {
    TotalRemove(live[p := c], th, p);
    assert live[p := c] - {p} == live;
  }

  lemma {:induction false} TotalRemoveInputs(live: map<Bytes, Cell>, th: Digest, ops: seq<Bytes>, cells: seq<Cell>)
    requires |ops| == |cells| && Distinct(ops)
    requires forall k :: 0 <= k < |ops| ==> ops[k] in live && live[ops[k]] == cells[k]
    ensures Total(live, th) == Total(RemoveInputs(live, ops), th) + AmountSum(cells, th)
    decreases |ops|
  {
    if ops != [] {
      TotalRemove(live, th, ops[0]);
      TotalRemoveInputs(live - {ops[0]}, th, ops[1..], cells[1..]);
    }
  }

  lemma {:induction false} TotalAddOutputs(live: map<Bytes, Cell>, th: Digest, ops: seq<Bytes>, cells: seq<Cell>)
    requires |ops| == |cells| && Distinct(ops) && forall p :: p in ops ==> p !in live
    ensures Total(AddOutputs(live, ops, cells), th) == Total(live, th) + AmountSum(cells, th)
    decreases |ops|
  {
    if ops != [] {
      TotalAdd(live, th, ops[0], cells[0]);
      assert forall p :: p in ops[1..] ==> p in ops && p != ops[0];
      TotalAddOutputs(live[ops[0] := cells[0]], th, ops[1..], cells[1..]);
    }
  }

  /** One transaction moves the supply by what it creates and consumes. */
  lemma SupplyStep(s: State, tx: Tx, th: Digest)
    requires WfState(s) && CanApply(s, tx)
    ensures Supply(Apply(s, tx), th) + AmountSum(tx.ins, th) == Supply(s, th) + AmountSum(tx.outs, th)
  {
    TotalRemoveInputs(s.live, th, tx.ops, tx.ins);
    RemoveInputsIs(s.live, tx.ops);
    TotalAddOutputs(RemoveInputs(s.live, tx.ops), th, tx.outOps, tx.outs);
  }

  // ---- the scripts' sums are these sums ----

  lemma {:induction false} AmountSumLast(cells: seq<Cell>, th: Digest)
    requires cells != []
    ensures AmountSum(cells, th) == AmountSum(cells[..|cells| - 1], th) + Amount(cells[|cells| - 1], th)
  {
    if |cells| > 1 {
      AmountSumLast(cells[1..], th);
      assert cells[1..][..|cells| - 2] == cells[..|cells| - 1][1..];
    }
  }

  lemma {:induction false} ScriptSum(cells: seq<Cell>, th: Digest)
    requires SumAmounts(Select(cells, th)).Some?
    ensures SumAmounts(Select(cells, th)).value == AmountSum(cells, th)
    decreases |cells|
  {
    hide Select;
    if cells == [] {
      BurnReceipt.NothingSelected(th);
    } else {
      var n := |cells| - 1;
      BurnReceipt.SelectLast(cells, th, n);
      assert cells[..n + 1] == cells;
      var init := Select(cells[..n], th);
      if cells[n].typ == Some(th) {
        assert Select(cells, th)[..|Select(cells, th)| - 1] == init;
      } else {
        assert init + [] == init;
      }
      ScriptSum(cells[..n], th);
      AmountSumLast(cells, th);
    }
  }

  /** A transaction that does not touch the token has none of it. */
  lemma {:induction false} UntouchedSum(cells: seq<Cell>, th: Digest)
    requires Select(cells, th) == []
    ensures AmountSum(cells, th) == 0
  {
    if cells != [] {
      assert cells[0].typ != Some(th);
      UntouchedSum(cells[1..], th);
    }
  }

  // ---- mints and burns of a run ----

  /** The token's script runs and accepts. */
  predicate XadaAccepts(env: Env, tx: Tx, th: Digest)
    requires env.script(th).XadaMint?
  {
    Touches(tx, th) ==> XadaMint.Verdict(env, env.script(th).args, tx, th) == 0
  }

  /** A run in which the token's script accepts every transaction that touches it. */
  ghost predicate XadaRun(env: Env, th: Digest, start: State, txs: seq<Tx>)
    requires env.script(th).XadaMint?
  {
    Run(start, txs) && forall tx :: tx in txs ==> XadaAccepts(env, tx, th)
  }

  predicate MintsHere(env: Env, tx: Tx, th: Digest)
    requires env.script(th).XadaMint?
  {
    Touches(tx, th) && XadaMint.Mints(env, env.script(th).args, tx, th)
  }

  /** The escrow transactions that were minted against, in order. */
  ghost function MintBodies(env: Env, txs: seq<Tx>, th: Digest): seq<Bytes>
    requires env.script(th).XadaMint?
  {
    if txs == [] then []
    else
      var tx := txs[|txs| - 1];
      MintBodies(env, txs[..|txs| - 1], th)
      + if MintsHere(env, tx, th) then [XadaMint.EscrowBody(env, env.script(th).args, tx, th)] else []
  }

  function LockedSum(escrow: Bytes, bodies: seq<Bytes>): nat {
    if bodies == [] then 0
    else LockedSum(escrow, bodies[..|bodies| - 1]) + XadaMint.Locked(escrow, bodies[|bodies| - 1])
  }

  /** How much a transaction burns. */
  function Burn(tx: Tx, th: Digest): nat {
    if AmountSum(tx.ins, th) > AmountSum(tx.outs, th) then AmountSum(tx.ins, th) - AmountSum(tx.outs, th) else 0
  }

  function Burned(txs: seq<Tx>, th: Digest): nat {
    if txs == [] then 0 else Burned(txs[..|txs| - 1], th) + Burn(txs[|txs| - 1], th)
  }

  // ---- conservation ----

  function EscrowOf(env: Env, th: Digest): Bytes
    requires env.script(th).XadaMint? && |env.script(th).args| >= XadaMint.ARGS_LEN
  {
    XadaMint.TermsOf(env.script(th).args).escrow
  }

  function RegistryOf(env: Env, th: Digest): Digest
    requires env.script(th).XadaMint? && |env.script(th).args| >= XadaMint.ARGS_LEN
  {
    XadaMint.TermsOf(env.script(th).args).registry
  }

  /** An accepted transaction creates exactly what it mints and burns. */
  lemma AcceptedMoves(env: Env, tx: Tx, th: Digest)
    requires env.script(th).XadaMint? && |env.script(th).args| >= XadaMint.ARGS_LEN && XadaAccepts(env, tx, th)
    ensures AmountSum(tx.outs, th) + Burn(tx, th)
            == AmountSum(tx.ins, th)
               + if MintsHere(env, tx, th)
                 then XadaMint.Locked(EscrowOf(env, th), XadaMint.EscrowBody(env, env.script(th).args, tx, th)) else 0
  {
    hide Select, XadaMint.MintVerdict, XadaMint.EscrowBody, XadaMint.Locked, XadaMint.TermsOf;
    var args := env.script(th).args;
    if Touches(tx, th) {
      ScriptSum(tx.ins, th);
      ScriptSum(tx.outs, th);
      if XadaMint.Mints(env, args, tx, th) {
        XadaMint.MintMeans(env, args, tx, th);
      }
    } else {
      UntouchedSum(tx.ins, th);
      UntouchedSum(tx.outs, th);
    }
  }

  /** Over every run: what is live and what was burned is what was there at the start and what the escrow
      transactions of the mints locked. */
  lemma {:induction false} SupplyIsBacked(env: Env, start: State, txs: seq<Tx>, th: Digest)
    requires env.script(th).XadaMint? && |env.script(th).args| >= XadaMint.ARGS_LEN && XadaRun(env, th, start, txs)
    ensures Supply(After(start, txs), th) + Burned(txs, th)
            == Supply(start, th) + LockedSum(EscrowOf(env, th), MintBodies(env, txs, th))
  {
    hide XadaAccepts, CanApply, Apply, Supply, MintsHere, AmountSum, Burn, XadaMint.EscrowBody, XadaMint.Locked,
      EscrowOf;
    if txs != [] {
      var init, tx := txs[..|txs| - 1], txs[|txs| - 1];
      SupplyIsBacked(env, start, init, th);
      LastStep(start, txs);
      SupplyStep(After(start, init), tx, th);
      AcceptedMoves(env, tx, th);
      if MintsHere(env, tx, th) {
        assert MintBodies(env, txs, th)[..|MintBodies(env, txs, th)| - 1] == MintBodies(env, init, th);
      } else {
        assert MintBodies(env, txs, th) == MintBodies(env, init, th);
      }
    }
  }

  /** The transaction behind a mint body. */
  lemma {:induction false} MintOf(env: Env, txs: seq<Tx>, th: Digest, k: nat) returns (i: nat)
    requires env.script(th).XadaMint? && k < |MintBodies(env, txs, th)|
    ensures i < |txs| && MintsHere(env, txs[i], th)
    ensures XadaMint.EscrowBody(env, env.script(th).args, txs[i], th) == MintBodies(env, txs, th)[k]
  {
    hide MintsHere, XadaMint.EscrowBody;
    var init := txs[..|txs| - 1];
    if k < |MintBodies(env, init, th)| {
      i := MintOf(env, init, th, k);
    } else {
      i := |txs| - 1;
    }
  }

  lemma MintUses(env: Env, tx: Tx, th: Digest)
    requires env.script(th).XadaMint? && MintsHere(env, tx, th)
    ensures |env.script(th).args| >= XadaMint.ARGS_LEN
    ensures Uses(env, tx, RegistryOf(env, th), Minted(XadaMint.EscrowBody(env, env.script(th).args, tx, th)))
  {
    hide XadaMint.MintVerdict, XadaMint.EscrowBody, Select, XadaMint.TermsOf;
    assert MintsAgainst(env, tx, th, RegistryOf(env, th), XadaMint.EscrowBody(env, env.script(th).args, tx, th));
  }

  /** No escrow transaction is minted against twice. */
  lemma {:induction false} MintBodiesDistinct(env: Env, start: State, txs: seq<Tx>, th: Digest, n: nat)
    requires env.script(th).XadaMint? && |env.script(th).args| >= XadaMint.ARGS_LEN
    requires env.script(RegistryOf(env, th)).Registry? && n <= |txs|
    requires RegistryRun(env, RegistryOf(env, th), start, txs) && NoneLive(start, RegistryOf(env, th))
    ensures Distinct(MintBodies(env, txs[..n], th)) || Broken(env, RegistryOf(env, th), txs)
  {
    hide Broken, RegistryRun, NoneLive, Touches, XadaMint.Mints, XadaMint.EscrowBody, RegistryOf, Uses;
    if n > 0 {
      MintBodiesDistinct(env, start, txs, th, n - 1);
      var tx, init := txs[n - 1], MintBodies(env, txs[..n - 1], th);
      assert txs[..n][..n - 1] == txs[..n - 1] && txs[..n][|txs[..n]| - 1] == tx;
      if MintsHere(env, tx, th) && !Broken(env, RegistryOf(env, th), txs) {
        var body := XadaMint.EscrowBody(env, env.script(th).args, tx, th);
        forall k | 0 <= k < |init|
          ensures init[k] != body
        {
          var i := MintOf(env, txs[..n - 1], th, k);
          MintUses(env, txs[i], th);
          MintUses(env, tx, th);
          if init[k] == body {
            ClaimUsedOnce(env, start, txs, RegistryOf(env, th), i, n - 1, Minted(body));
          }
        }
      }
    }
  }

  /** χADA conservation: the live supply and the total burned equal the lovelace locked by pairwise different
      certified escrow transactions. */
  lemma XadaConservation(env: Env, start: State, txs: seq<Tx>, th: Digest)
    requires env.script(th).XadaMint? && |env.script(th).args| >= XadaMint.ARGS_LEN
    requires env.script(RegistryOf(env, th)).Registry? && XadaRun(env, th, start, txs)
    requires RegistryRun(env, RegistryOf(env, th), start, txs) && NoneLive(start, RegistryOf(env, th))
    requires Supply(start, th) == 0
    ensures var bodies := MintBodies(env, txs, th);
            && Supply(After(start, txs), th) + Burned(txs, th) == LockedSum(EscrowOf(env, th), bodies)
            && (Distinct(bodies) || Broken(env, RegistryOf(env, th), txs))
  {
    hide Broken, RegistryRun, XadaRun, Supply, MintBodies, LockedSum;
    SupplyIsBacked(env, start, txs, th);
    MintBodiesDistinct(env, start, txs, th, |txs|);
    assert txs[..|txs|] == txs;
  }

  // ---- receipts ----

  /** The receipt's script runs and accepts. */
  predicate ReceiptAccepts(env: Env, tx: Tx, rt: Digest)
    requires env.script(rt).BurnReceipt?
  {
    Touches(tx, rt) ==> BurnReceipt.Verdict(env.script(rt).args, tx, rt) == 0
  }

  /** Scripts for the receipts of one token; there may be several, under different code. */
  ghost predicate ReceiptsOf(env: Env, rts: seq<Digest>, th: Digest) {
    forall rt :: rt in rts ==> env.script(rt) == Script.BurnReceipt(th)
  }

  /** All of them accept, in every transaction. */
  ghost predicate ReceiptRun(env: Env, rts: seq<Digest>, th: Digest, txs: seq<Tx>)
    requires ReceiptsOf(env, rts, th)
  {
    forall tx, rt :: tx in txs && rt in rts ==> ReceiptAccepts(env, tx, rt)
  }

  /** The amount of the receipt that a transaction creates under the receipt script `rt`. */
  function ReceiptAmount(tx: Tx, rt: Digest): nat {
    var outs := Select(tx.outs, rt);
    if outs != [] && |outs[0].data| == BurnReceipt.RECEIPT_LEN then BurnReceipt.Amount(outs[0].data) else 0
  }

  /** The receipts of one transaction, and how many scripts create one. */
  function ReceiptSum(tx: Tx, rts: seq<Digest>): nat {
    if rts == [] then 0 else ReceiptAmount(tx, rts[0]) + ReceiptSum(tx, rts[1..])
  }

  function Creators(tx: Tx, rts: seq<Digest>): nat {
    if rts == [] then 0 else (if Select(tx.outs, rts[0]) != [] then 1 else 0) + Creators(tx, rts[1..])
  }

  function Receipts(txs: seq<Tx>, rts: seq<Digest>): nat {
    if txs == [] then 0 else Receipts(txs[..|txs| - 1], rts) + ReceiptSum(txs[|txs| - 1], rts)
  }

  /** A receipt states exactly what its transaction burns. */
  lemma ReceiptIsTheBurn(env: Env, tx: Tx, rt: Digest, th: Digest)
    requires env.script(rt) == Script.BurnReceipt(th) && ReceiptAccepts(env, tx, rt)
    ensures ReceiptAmount(tx, rt) == if Select(tx.outs, rt) != [] then Burn(tx, th) else 0
    ensures Select(tx.outs, rt) != [] ==> Burn(tx, th) > 0
  {
    if Select(tx.outs, rt) != [] {
      hide Select, BurnReceipt.Amount;
      BurnReceipt.ReceiptExact(th, tx, rt);
      hide BurnReceipt.Verdict;
      ScriptSum(tx.ins, th);
      ScriptSum(tx.outs, th);
    }
  }

  /** So every script that creates one states the whole burn: together they state no more than the burn exactly when one
      script at most creates a receipt. */
  lemma {:induction false} ReceiptsOfOneBurn(env: Env, tx: Tx, rts: seq<Digest>, th: Digest)
    requires ReceiptsOf(env, rts, th) && forall rt :: rt in rts ==> ReceiptAccepts(env, tx, rt)
    ensures ReceiptSum(tx, rts) == Creators(tx, rts) * Burn(tx, th)
    ensures ReceiptSum(tx, rts) <= Burn(tx, th) <==> Creators(tx, rts) <= 1
    decreases |rts|
  {
    hide ReceiptAccepts, ReceiptAmount, Burn, Select;
    var n, b := Creators(tx, rts), Burn(tx, th);
    if rts != [] {
      ReceiptIsTheBurn(env, tx, rts[0], th);
      ReceiptsOfOneBurn(env, tx, rts[1..], th);
      assert (1 + Creators(tx, rts[1..])) * b == b + Creators(tx, rts[1..]) * b;
    }
    if n > 1 {
      SomeCreator(env, tx, rts, th);
      assert n * b >= 2 * b;
    }
  }

  lemma {:induction false} SomeCreator(env: Env, tx: Tx, rts: seq<Digest>, th: Digest)
    requires ReceiptsOf(env, rts, th) && (forall rt :: rt in rts ==> ReceiptAccepts(env, tx, rt))
    requires Creators(tx, rts) > 0
    ensures Burn(tx, th) > 0
    decreases |rts|
  {
    hide ReceiptAccepts, ReceiptAmount, Burn, Select;
    ReceiptIsTheBurn(env, tx, rts[0], th);
    if Select(tx.outs, rts[0]) == [] { SomeCreator(env, tx, rts[1..], th); }
  }

  /** Nothing but that keeps a second script from it: beside one receipt, a lone cell of another script with the same
      data passes too; `ReceiptExamples` has a run of this kind. */
  lemma SecondReceiptPasses(tx: Tx, one: Digest, other: Digest, th: Digest)
    requires BurnReceipt.Verdict(th, tx, one) == 0 && |Select(tx.outs, one)| == 1
    requires Select(tx.ins, other) == [] && |Select(tx.outs, other)| == 1
    requires Select(tx.outs, other)[0].data == Select(tx.outs, one)[0].data
    ensures BurnReceipt.Verdict(th, tx, other) == 0
  {
    hide Select, BurnReceipt.Amount;
    BurnReceipt.ReceiptExact(th, tx, one);
    BurnReceipt.ReceiptExact(th, tx, other);
  }

  /** The receipts of a run, where no transaction creates two for one token, never state more than was burned. */
  lemma {:induction false} ReceiptsAreBurned(env: Env, txs: seq<Tx>, rts: seq<Digest>, th: Digest)
    requires ReceiptsOf(env, rts, th) && ReceiptRun(env, rts, th, txs)
    requires forall tx :: tx in txs ==> Creators(tx, rts) <= 1
    ensures Receipts(txs, rts) <= Burned(txs, th)
  {
    hide ReceiptAccepts, ReceiptSum, Creators, Burn;
    if txs != [] {
      var tx := txs[|txs| - 1];
      assert tx in txs;
      ReceiptsAreBurned(env, txs[..|txs| - 1], rts, th);
      ReceiptsOfOneBurn(env, tx, rts, th);
    }
  }

  /** So what is live and what may be claimed back on Cardano never exceeds what was locked there. */
  lemma ClaimsAreBacked(env: Env, start: State, txs: seq<Tx>, rts: seq<Digest>, th: Digest)
    requires env.script(th).XadaMint? && |env.script(th).args| >= XadaMint.ARGS_LEN
    requires XadaRun(env, th, start, txs) && Supply(start, th) == 0
    requires ReceiptsOf(env, rts, th) && ReceiptRun(env, rts, th, txs)
    requires forall tx :: tx in txs ==> Creators(tx, rts) <= 1
    ensures Supply(After(start, txs), th) + Receipts(txs, rts) <= LockedSum(EscrowOf(env, th), MintBodies(env, txs, th))
  {
    hide XadaRun, ReceiptRun, Creators, Supply, MintBodies, LockedSum;
    SupplyIsBacked(env, start, txs, th);
    ReceiptsAreBurned(env, txs, rts, th);
  }

  /** One receipt script is such a list. */
  lemma OneReceiptScript(env: Env, txs: seq<Tx>, rt: Digest, th: Digest)
    requires env.script(rt) == Script.BurnReceipt(th)
    ensures ReceiptsOf(env, [rt], th) && forall tx :: tx in txs ==> Creators(tx, [rt]) <= 1
  {
    forall tx | tx in txs
      ensures Creators(tx, [rt]) <= 1
    {
      assert Creators(tx, [rt][1..]) == 0;
    }
  }
}
