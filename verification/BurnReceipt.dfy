/** The receipt cell of a χADA burn (`xada_burn_receipt`). */
module BurnReceipt {
  import opened Basics
  import opened Ledger

  const XAD1: Bytes := [0x58, 0x41, 0x44, 0x31]
  const RECEIPT_LEN: nat := 48

  function Amount(data: Bytes): nat
    requires |data| == RECEIPT_LEN
  {
    FromLE(data[4..20])
  }

  /** `sum_policy`: the amounts of the cells of one type, whatever their place in the transaction. */
  method SumPolicy(cells: seq<Cell>, policy: Digest) returns (r: Option<nat>)
    ensures r == SumAmounts(Select(cells, policy))
  {
    hide Select, SumAmounts;
    NothingSelected(policy);
    var sum: nat, i := 0, 0;
    assert cells[..0] == [];
    while i < |cells|
      invariant 0 <= i <= |cells| && SumAmounts(Select(cells[..i], policy)) == Some(sum)
    {
      SelectLast(cells, policy, i);
      if cells[i].typ == Some(policy) {
        SumOneMore(Select(cells[..i], policy), cells[i]);
        var d := cells[i].data;
        if |d| < 16 || sum + FromLE(d[..16]) >= U128 {
          assert && |Select(cells[..i + 1], policy)| <= |Select(cells, policy)|
                 && Select(cells, policy)[..|Select(cells[..i + 1], policy)|] == Select(cells[..i + 1], policy) by {
            SelectAppend(cells[..i + 1], cells[i + 1..], policy);
            assert cells == cells[..i + 1] + cells[i + 1..];
          }
          SumFails(Select(cells, policy), |Select(cells[..i + 1], policy)|);
          return None;
        }
        sum := sum + FromLE(d[..16]);
      } else {
        assert Select(cells[..i], policy) + [] == Select(cells[..i], policy);
      }
      i := i + 1;
    }
    assert cells[..i] == cells;
    return Some(sum);
  }

  lemma NothingSelected(policy: Digest)
    ensures SumAmounts(Select([], policy)) == Some(0)
  {
  }

  lemma SelectLast(cells: seq<Cell>, policy: Digest, i: nat)
    requires i < |cells|
    ensures Select(cells[..i + 1], policy)
            == Select(cells[..i], policy) + if cells[i].typ == Some(policy) then [cells[i]] else []
  {
    SelectAppend(cells[..i], [cells[i]], policy);
    assert cells[..i + 1] == cells[..i] + [cells[i]];
  }

  lemma {:induction false} SelectAppend(a: seq<Cell>, b: seq<Cell>, policy: Digest)
    ensures Select(a + b, policy) == Select(a, policy) + Select(b, policy)
  {
    if a == [] {
      assert a + b == b;
    } else {
      SelectAppend(a[1..], b, policy);
      assert (a + b)[1..] == a[1..] + b;
    }
  }

  /** The exit code of the type script `self`. */
  function Verdict(args: Bytes, tx: Tx, self: Digest): int {
    var outs := Select(tx.outs, self);
    if outs == [] then 0
    else
      var data := outs[0].data;
      if |data| != RECEIPT_LEN then 1
      else if data[..4] != XAD1 then 2
      else if Amount(data) == 0 then 3
      else if |outs| > 1 then 4
      else if Select(tx.ins, self) != [] then 5
      else if |args| != 32 then 6
      else
        match SumAmounts(Select(tx.ins, args))
        case None => 7
        case Some(burned) =>
          match SumAmounts(Select(tx.outs, args))
          case None => 8
          case Some(kept) =>
            if burned < kept then 9 else if burned - kept != Amount(data) then 10 else 0
  }

  method ProgramEntry(args: Bytes, tx: Tx, self: Digest) returns (code: int)
    ensures code == Verdict(args, tx, self)
  {
    var outs, ins := Select(tx.outs, self), Select(tx.ins, self);
    if |outs| == 0 { return 0; }
    var data := outs[0].data;
    if |data| != RECEIPT_LEN { return 1; }
    if data[..4] != XAD1 { return 2; }
    var amount := FromLE(data[4..20]);
    if amount == 0 { return 3; }
    if |outs| > 1 { return 4; }
    if |ins| > 0 { return 5; }
    if |args| != 32 { return 6; }
    var burned := SumPolicy(tx.ins, args);
    if burned == None { return 7; }
    var kept := SumPolicy(tx.outs, args);
    if kept == None { return 8; }
    if burned.value < kept.value { return 9; }
    if burned.value - kept.value != amount { return 10; }
    return 0;
  }

  /** A group passes exactly when it creates nothing, or one well-formed receipt, spends none, and the receipt states
      what the transaction burns, which is not nothing. */
  lemma ReceiptExact(args: Bytes, tx: Tx, self: Digest)
    ensures Verdict(args, tx, self) == 0 <==>
              || Select(tx.outs, self) == []
              || (&& |args| == 32 && |Select(tx.outs, self)| == 1 && Select(tx.ins, self) == []
                  && var data := Select(tx.outs, self)[0].data;
                     && |data| == RECEIPT_LEN && data[..4] == XAD1 && Amount(data) > 0
                     && SumAmounts(Select(tx.ins, args)).Some? && SumAmounts(Select(tx.outs, args)).Some?
                     && SumAmounts(Select(tx.ins, args)).value
                        == SumAmounts(Select(tx.outs, args)).value + Amount(data))
  {
    hide Select, SumAmounts;
  }
}
