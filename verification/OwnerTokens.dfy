/** The tokens of one χADA owner lock: it sums every xUDT whose args begin with its hash, whatever follows. */
module OwnerTokens {
  import opened Basics
  import opened Ledger
  import opened Scripts
  import opened Conservation
  import XadaOwner
  import BurnUnlock

  /** `th` is one of the owner's tokens. */
  predicate TokenOf(env: Env, th: Digest, owner: Digest) {
    env.script(th).Xudt? && |env.script(th).args| >= 32 && env.script(th).args[..32] == owner
  }

  /** The amounts of the owner's other tokens. */
  function Rest(env: Env, cells: seq<Cell>, owner: Digest, th: Digest): nat {
    if cells == [] then 0
    else
      var c := cells[|cells| - 1];
      Rest(env, cells[..|cells| - 1], owner, th)
      + if XadaOwner.IsXada(env, c, owner) && c.typ != Some(th) && |c.data| >= 16 then FromLE(c.data[..16]) else 0
  }

  lemma {:induction false} OwnerSum(env: Env, cells: seq<Cell>, owner: Digest, th: Digest)
    requires TokenOf(env, th, owner) && SumAmounts(XadaOwner.Tokens(env, cells, owner)).Some?
    ensures SumAmounts(XadaOwner.Tokens(env, cells, owner)).value == AmountSum(cells, th) + Rest(env, cells, owner, th)
    decreases |cells|
  {
    hide XadaOwner.Tokens, FromLE;
    if cells == [] {
      XadaOwner.NoTokens(env, owner);
    } else {
      var n := |cells| - 1;
      var init, all := XadaOwner.Tokens(env, cells[..n], owner), XadaOwner.Tokens(env, cells, owner);
      XadaOwner.TokensLast(env, cells, owner, n);
      assert cells[..n + 1] == cells;
      if XadaOwner.IsXada(env, cells[n], owner) {
        assert all[..|all| - 1] == init;
      } else {
        assert init + [] == init;
      }
      OwnerSum(env, cells[..n], owner, th);
      AmountSumLast(cells, th);
    }
  }

  /** Where the owner's inputs are not empty, its lock opens exactly when the other tokens of the owner lose more
      than this one gains: one token may rise without an escrow transaction while others burn. */
  lemma BurnsAreSummed(env: Env, args: Bytes, tx: Tx, self: Digest, th: Digest)
    requires |args| >= XadaOwner.ARGS_LEN && TokenOf(env, th, self)
    requires SumAmounts(XadaOwner.Tokens(env, tx.ins, self)).Some?
    requires SumAmounts(XadaOwner.Tokens(env, tx.outs, self)).Some?
    requires XadaOwner.InSum(env, tx, self) > 0
    ensures XadaOwner.Verdict(env, args, tx, self) == 0
            <==> (AmountSum(tx.outs, th) - AmountSum(tx.ins, th)
                  < Rest(env, tx.ins, self, th) - Rest(env, tx.outs, self, th))
  {
    hide XadaOwner.Tokens, SumAmounts, AmountSum, Rest, XadaOwner.MintVerdict;
    OwnerSum(env, tx.ins, self, th);
    OwnerSum(env, tx.outs, self, th);
  }

  /** For instance: 2 of one token go, and 1 of another appears. */
  lemma OneRisesWhileAnotherBurns(env: Env, args: Bytes, self: Digest, burnt: Digest, risen: Digest, lock: Digest,
                                  op: Bytes)
    returns (tx: Tx)
    requires |args| >= XadaOwner.ARGS_LEN && TokenOf(env, burnt, self) && TokenOf(env, risen, self) && burnt != risen
    ensures tx.ops == [op] && |tx.ins| == |tx.outs| == |tx.outOps| == 1 && tx.ins[0].lock == self && tx.wits == []
    ensures XadaOwner.Verdict(env, args, tx, self) == 0
    ensures AmountSum(tx.ins, burnt) == 2 && AmountSum(tx.outs, burnt) == 0
    ensures AmountSum(tx.ins, risen) == 0 && AmountSum(tx.outs, risen) == 1
  {
    var a, b := Cell(self, Some(burnt), LE(2, 16)), Cell(lock, Some(risen), LE(1, 16));
    tx := Tx([op], [a], [[0] + op], [b], [], []);
    OneToken(env, a, self, 2);
    OneToken(env, b, self, 1);
    assert Rest(env, [], self, risen) == 0 && [a][..0] == [] && [b][..0] == [];
  }

  lemma OneToken(env: Env, c: Cell, owner: Digest, n: nat)
    requires XadaOwner.IsXada(env, c, owner) && c.data == LE(n, 16) && n < 256
    ensures SumAmounts(XadaOwner.Tokens(env, [c], owner)) == Some(n)
    ensures forall th :: AmountSum([c], th) == if c.typ == Some(th) then n else 0
  {
    BurnUnlock.U128Bytes();
    FromLEOfLE(n, 16);
    assert [c][1..] == [] && c.data[..16] == c.data;
    assert XadaOwner.Tokens(env, [], owner) == [] && SumAmounts([]) == Some(0) && [c][..0] == [];
    hide FromLE, LE;
    assert XadaOwner.Tokens(env, [c], owner) == [c];
    forall th
      ensures AmountSum([c], th) == if c.typ == Some(th) then n else 0
    {
      assert AmountSum([], th) == 0;
    }
  }
}
