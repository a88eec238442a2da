/** Runs of the ledger: sequences of applicable transactions, whatever the scripts say. */
module Runs {
  import opened Basics
  import opened Ledger

  /** From `start`, every transaction is applicable. */
  ghost predicate Run(start: State, txs: seq<Tx>)
    decreases |txs|
  {
    && WfState(start)
    && (txs != [] ==>
          Run(start, txs[..|txs| - 1]) && CanApply(After(start, txs[..|txs| - 1]), txs[|txs| - 1]))
  }

  ghost function After(start: State, txs: seq<Tx>): State {
    if txs == [] then start
    else
      var tx := txs[|txs| - 1];
      var before := After(start, txs[..|txs| - 1]);
      if |tx.outOps| == |tx.outs| then Apply(before, tx) else before
  }

  /** One step of a run, on the live cells. */
  ghost predicate Moves(s: State, tx: Tx, t: State) {
    && WfState(s) && CanApply(s, tx) && WfState(t)
    && t.created == s.created + Elements(tx.outOps)
    && (forall p :: p in t.live <==> (p in s.live && p !in tx.ops) || p in tx.outOps)
    && (forall p :: p in s.live && p !in tx.ops ==> t.live[p] == s.live[p])
    && (forall k :: 0 <= k < |tx.outOps| ==> t.live[tx.outOps[k]] == tx.outs[k])
  }

  /** The last step of a run. */
  lemma {:induction false} LastStep(start: State, txs: seq<Tx>)
    requires Run(start, txs) && txs != []
    ensures var init := txs[..|txs| - 1];
            && Run(start, init) && Moves(After(start, init), txs[|txs| - 1], After(start, txs))
            && After(start, txs) == Apply(After(start, init), txs[|txs| - 1])
    decreases |txs|
  {
    var init := txs[..|txs| - 1];
    if init != [] {
      LastStep(start, init);
    }
    hide Apply;
    ApplyIs(After(start, init), txs[|txs| - 1]);
  }

  /** Every transaction of a run was applicable where it stands. */
  lemma {:induction false} AppliedAt(start: State, txs: seq<Tx>, i: nat)
    requires Run(start, txs) && i < |txs|
    ensures Run(start, txs[..i]) && CanApply(After(start, txs[..i]), txs[i])
    decreases |txs|
  {
    hide CanApply, Apply;
    var init := txs[..|txs| - 1];
    if i < |init| {
      AppliedAt(start, init, i);
      assert init[..i] == txs[..i];
    }
  }

  /** No live cell has type `th`. */
  ghost predicate NoneLive(s: State, th: Digest) {
    forall p :: p in s.live ==> s.live[p].typ != Some(th)
  }

  /** A cell that an earlier transaction produced is still that cell when it is live. */
  lemma {:induction false} LiveIsProduced(start: State, txs: seq<Tx>, i: nat, k: nat)
    requires Run(start, txs) && i < |txs| && k < |txs[i].outOps| == |txs[i].outs|
    ensures txs[i].outOps[k] in After(start, txs).created
    ensures txs[i].outOps[k] in After(start, txs).live ==> After(start, txs).live[txs[i].outOps[k]] == txs[i].outs[k]
    decreases |txs|
  {
    LastStep(start, txs);
    if i < |txs| - 1 {
      LiveIsProduced(start, txs[..|txs| - 1], i, k);
    }
  }

  /** So a consumed outpoint of an earlier transaction is the cell that it produced. */
  lemma ConsumedIsProduced(start: State, txs: seq<Tx>, i: nat, k: nat, j: nat, l: nat)
    requires Run(start, txs) && i < j < |txs| && k < |txs[i].outs| == |txs[i].outOps|
    requires l < |txs[j].ops| && txs[j].ops[l] == txs[i].outOps[k]
    ensures l < |txs[j].ins| && txs[j].ins[l] == txs[i].outs[k]
  {
    hide After;
    AppliedAt(start, txs, j);
    LiveIsProduced(start, txs[..j], i, k);
  }

  /** A live cell of the new state is an old one that was not spent, or an output of its group. */
  lemma NewCell(s: State, tx: Tx, t: State, th: Digest, q: Bytes)
    requires Moves(s, tx, t) && q in t.live && t.live[q].typ == Some(th)
    ensures (q in s.live && q !in tx.ops && s.live[q] == t.live[q])
            || (exists k :: 0 <= k < |tx.outs| && q == tx.outOps[k] && t.live[q] == tx.outs[k]
                            && tx.outs[k] in Select(tx.outs, th))
  {
    if q in tx.outOps {
      var k :| 0 <= k < |tx.outOps| && tx.outOps[k] == q;
      assert tx.outs[k] in tx.outs;
    }
  }

  /** The only cell of an input group, and its outpoint. */
  lemma SpentCell(s: State, tx: Tx, th: Digest) returns (k: nat)
    requires CanApply(s, tx) && |Select(tx.ins, th)| == 1
    ensures k < |tx.ops| && tx.ops[k] in s.live && s.live[tx.ops[k]] == tx.ins[k] && Select(tx.ins, th) == [tx.ins[k]]
  {
    SelectOne(tx.ins, th);
    k :| 0 <= k < |tx.ins| && tx.ins[k].typ == Some(th) && Select(tx.ins, th) == [tx.ins[k]]
         && forall j :: 0 <= j < |tx.ins| && tx.ins[j].typ == Some(th) ==> j == k;
  }

  /** `p` is the one live cell of type `th`, holding `data`. */
  ghost predicate OnlyCell(s: State, th: Digest, p: Bytes, data: Bytes) {
    && p in s.live && s.live[p].typ == Some(th) && s.live[p].data == data
    && forall q :: q in s.live && s.live[q].typ == Some(th) ==> q == p
  }

  /** The single output of a group becomes the only live cell if no old one stays. */
  lemma OutputIsOnlyCell(s: State, tx: Tx, t: State, th: Digest)
    requires Moves(s, tx, t) && |Select(tx.outs, th)| == 1
    requires forall q :: q in s.live && s.live[q].typ == Some(th) ==> q in tx.ops
    ensures exists p :: OnlyCell(t, th, p, Select(tx.outs, th)[0].data)
  {
    SelectOne(tx.outs, th);
    var k :| 0 <= k < |tx.outs| && tx.outs[k].typ == Some(th) && Select(tx.outs, th) == [tx.outs[k]]
             && forall j :: 0 <= j < |tx.outs| && tx.outs[j].typ == Some(th) ==> j == k;
    forall q | q in t.live && t.live[q].typ == Some(th)
      ensures q == tx.outOps[k]
    {
      NewCell(s, tx, t, th, q);
    }
    assert OnlyCell(t, th, tx.outOps[k], Select(tx.outs, th)[0].data);
  }

  /** A cell whose group no transaction touches stays the only one. */
  lemma UntouchedStays(s: State, tx: Tx, t: State, th: Digest, p: Bytes, data: Bytes)
    requires Moves(s, tx, t) && Select(tx.ins, th) == [] && Select(tx.outs, th) == [] && OnlyCell(s, th, p, data)
    ensures OnlyCell(t, th, p, data)
  {
    forall k | 0 <= k < |tx.ops|
      ensures tx.ops[k] != p
    {
      assert tx.ins[k] in tx.ins && tx.ins[k] !in Select(tx.ins, th);
    }
    forall q | q in t.live && t.live[q].typ == Some(th)
      ensures q == p
    {
      NewCell(s, tx, t, th, q);
    }
  }
}
