/** A run with two receipts for one burn: what keeps `Conservation.ReceiptsAreBurned` from more than one receipt
    script. */
module ReceiptExamples {
  import opened Basics
  import opened Ledger
  import opened Scripts
  import opened Runs
  import opened Bridge
  import opened RegistryLiveness
  import opened Conservation
  import opened SharedRun
  import XadaMint
  import BurnUnlock
  import BurnReceipt

  function ReceiptData(recipient: Bytes): Bytes {
    BurnReceipt.XAD1 + (LE(5, 16) + recipient)
  }

  lemma ReceiptStatesFive(recipient: Bytes)
    requires |recipient| == 28
    ensures var data := ReceiptData(recipient);
            |data| == BurnReceipt.RECEIPT_LEN && data[..4] == BurnReceipt.XAD1 && BurnReceipt.Amount(data) == 5
  {
    var data := ReceiptData(recipient);
    BurnUnlock.U128Bytes();
    FromLEOfLE(5, 16);
    hide LE, FromLE;
    AtWhole(data);
    AtSplit(data, 0, BurnReceipt.XAD1, LE(5, 16) + recipient);
    AtSplit(data, 4, LE(5, 16), recipient);
  }

  /** 5 units burn, and a receipt of each script states them. */
  function BurnTwice(th: Digest, one: Digest, other: Digest, lock: Digest, recipient: Bytes): Tx {
    Tx([[0]], [Cell(lock, Some(th), LE(5, 16))], [[1], [2]],
       [Cell(lock, Some(one), ReceiptData(recipient)), Cell(lock, Some(other), ReceiptData(recipient))], [], [])
  }

  lemma BurnTwiceIs(th: Digest, one: Digest, other: Digest, lock: Digest, recipient: Bytes)
    requires one != other && th !in {one, other} && |recipient| == 28
    ensures var tx := BurnTwice(th, one, other, lock, recipient);
            && SumAmounts(Select(tx.ins, th)) == Some(5) && SumAmounts(Select(tx.outs, th)) == Some(0)
            && Select(tx.ins, one) == Select(tx.ins, other) == []
            && Select(tx.outs, one) == [tx.outs[0]] && Select(tx.outs, other) == [tx.outs[1]]
            && BurnReceipt.Verdict(th, tx, one) == BurnReceipt.Verdict(th, tx, other) == 0
  {
    hide ReceiptData, LE, SumAmounts, Select, BurnReceipt.Amount;
    var tx := BurnTwice(th, one, other, lock, recipient);
    var a, b, c := tx.ins[0], tx.outs[0], tx.outs[1];
    SelectSingle(a, th);
    SelectSingle(a, one);
    SelectSingle(a, other);
    AmountOfOne(a, 5);
    assert [b] + [c] == [b, c];
    SelectSingle(b, one);
    SelectSingle(c, one);
    SelectSingle(b, other);
    SelectSingle(c, other);
    NotSelected([b, c], th);
    BurnReceipt.SelectAppend([b], [c], one);
    BurnReceipt.SelectAppend([b], [c], other);
    ReceiptStatesFive(recipient);
    BurnReceipt.ReceiptExact(th, tx, one);
    SecondReceiptPasses(tx, one, other, th);
  }

  lemma BurnTwiceAccepted(env: Env, th: Digest, one: Digest, other: Digest, lock: Digest, args: Bytes, recipient: Bytes)
    requires one != other && th !in {one, other} && |args| >= XadaMint.ARGS_LEN && |recipient| == 28
    requires PlainLock(env, lock)
    requires env.script(th) == XadaMint(args) && env.script(one) == env.script(other) == BurnReceipt(th)
    ensures Accepted(env, BurnTwice(th, one, other, lock, recipient))
  {
    hide Select, SelectLock, SumAmounts, ReceiptData, LE, BurnReceipt.Verdict, XadaMint.MintVerdict;
    var tx := BurnTwice(th, one, other, lock, recipient);
    BurnTwiceIs(th, one, other, lock, recipient);
    forall x: Digest | Touches(tx, x)
      ensures TypeVerdict(env, tx, x) == 0
    {
      if Select(tx.ins, x) != [] {
        assert Select(tx.ins, x)[0] in tx.ins;
      } else {
        assert Select(tx.outs, x)[0] in tx.outs;
      }
    }
    forall lh: Digest | SelectLock(tx.ins, lh) != []
      ensures LockVerdict(env, tx, lh) == 0
    {
      SelectedLock(tx.ins, lh);
    }
  }

  lemma TwiceStated(env: Env, th: Digest, one: Digest, other: Digest, lock: Digest, recipient: Bytes)
    requires one != other && th !in {one, other} && |recipient| == 28
    requires env.script(one) == env.script(other) == BurnReceipt(th)
    ensures var tx := BurnTwice(th, one, other, lock, recipient);
            ReceiptsOf(env, [one, other], th) && Burned([tx], th) == 5 && Receipts([tx], [one, other]) == 10
  {
    hide Select, SumAmounts, ReceiptData, LE, BurnReceipt.Verdict, AmountSum;
    var tx, rts := BurnTwice(th, one, other, lock, recipient), [one, other];
    BurnTwiceIs(th, one, other, lock, recipient);
    ScriptSum(tx.ins, th);
    ScriptSum(tx.outs, th);
    assert Burned([], th) == 0 && Receipts([], rts) == 0 && [tx][..0] == [];
    assert rts[1..] == [other] && [other][1..] == [] && Creators(tx, []) == 0 && Creators(tx, [other]) == 1;
    ReceiptsOfOneBurn(env, tx, rts, th);
  }

  lemma BurnTwiceRuns(th: Digest, one: Digest, other: Digest, lock: Digest, recipient: Bytes)
    ensures var tx := BurnTwice(th, one, other, lock, recipient);
            |tx.ins| == 1 && Run(State(map[[0] := tx.ins[0]], {[0]}), [tx])
  {
    hide ReceiptData, LE;
    var tx := BurnTwice(th, one, other, lock, recipient);
    var start := State(map[[0] := tx.ins[0]], {[0]});
    assert [tx][..0] == [] && Run(start, []) && CanApply(start, tx);
  }

  /** For all hash functions there is a run that every script accepts in which two receipt scripts for one token each
      state the whole of one burn. */
  lemma TwoReceipts(base: Env, th: Digest, one: Digest, other: Digest, lock: Digest, args: Bytes, recipient: Bytes)
    returns (env: Env, start: State, tx: Tx)
    requires one != other && th !in {one, other} && lock !in {th, one, other}
    requires |args| >= XadaMint.ARGS_LEN && |recipient| == 28
    ensures env == base.(script := env.script) && env.script(th) == XadaMint(args) && ReceiptsOf(env, [one, other], th)
    ensures ValidRun(env, start, [tx])
    ensures Burned([tx], th) == 5 && Receipts([tx], [one, other]) == 10
  {
    hide Accepted, Run, BurnTwice, ReceiptsOf, Burned, Receipts;
    env := base.(script := (h: Digest) => if h == th then XadaMint(args)
                                          else if h == one || h == other then BurnReceipt(th) else Script.Other);
    tx := BurnTwice(th, one, other, lock, recipient);
    BurnTwiceAccepted(env, th, one, other, lock, args, recipient);
    BurnTwiceRuns(th, one, other, lock, recipient);
    TwiceStated(env, th, one, other, lock, recipient);
    start := State(map[[0] := tx.ins[0]], {[0]});
  }
}
