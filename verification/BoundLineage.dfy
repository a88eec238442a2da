/** What every live bound asset cell satisfies in every run, and what a trip to Cardano and back keeps. */
module BoundLineage {
  import opened Basics
  import opened Ledger
  import opened Scripts
  import opened Runs
  import opened BodyParse
  import opened BoundAsset
  import opened ReplayOnce

  // ---- what one transaction does to a bound asset ----

  /** The commitment in the datum that is read from the body. */
  function Commitment(env: Env, body: Bytes): Option<Bytes> {
    match Parse(body, env.stack) case None => None case Some(x) => SealCommitment(x.datum, env.stack)
  }

  /** The group `th` accepts, on the certified body that it shows. */
  ghost predicate Shows(env: Env, tx: Tx, th: Digest) {
    && env.script(th).BoundAsset? && Verdict(env, env.script(th).args, tx, th) == 0
    && CertifiedBy(env, tx, ShownProof(env, env.script(th).args, tx, th))
  }

  /** The body that an accepting group `th` shows. */
  ghost function BodyOf(env: Env, tx: Tx, th: Digest): Bytes {
    if Shows(env, tx, th) then ShownBody(env, env.script(th).args, tx, th) else []
  }

  /** A transaction, the body its group of the asset shows if that group accepts, and the commitment read from it. */
  datatype Act = Act(tx: Tx, shown: Option<Bytes>, commitment: Option<Bytes>)

  ghost function ActOf(env: Env, tx: Tx, th: Digest): Act {
    if Shows(env, tx, th) then Act(tx, Some(BodyOf(env, tx, th)), Commitment(env, BodyOf(env, tx, th)))
    else Act(tx, None, None)
  }

  ghost function Acts(env: Env, txs: seq<Tx>, th: Digest): (acts: seq<Act>)
    ensures |acts| == |txs|
  {
    if txs == [] then [] else Acts(env, txs[..|txs| - 1], th) + [ActOf(env, txs[|txs| - 1], th)]
  }

  /** The group leaps, in either direction: its tag changes. */
  predicate Leaps(tx: Tx, th: Digest) {
    var ins, outs := Select(tx.ins, th), Select(tx.outs, th);
    ins != [] && outs != [] && |ins[0].data| >= 2 && |outs[0].data| >= 2 && ins[0].data[1] != outs[0].data[1]
  }

  /** What an accepting group does to the cell `c` that it leaves: the cell names the body shown and has its slot in
      order; a leap keeps the state, and any other step commits to it. */
  predicate Leaves(b2b: Hash, act: Act, th: Digest, c: Cell) {
    && act.shown.Some? && Select(act.tx.outs, th) == [c] && |Select(act.tx.ins, th)| <= 1
    && IsCell(c.data) && SlotInOrder(c) && c.data[2..34] == b2b(act.shown.value)
    && if Leaps(act.tx, th) then
         IsCell(Select(act.tx.ins, th)[0].data) && c.data[70..] == Select(act.tx.ins, th)[0].data[70..]
       else act.commitment == Some(b2b(c.data[70..]))
  }

  lemma ShownAct(env: Env, tx: Tx, th: Digest)
    requires env.script(th).BoundAsset? && Verdict(env, env.script(th).args, tx, th) == 0
    ensures Shows(env, tx, th)
    ensures var e := ShownEvidence(env, env.script(th).args, tx, th);
            && Legal(env, e, tx, Select(tx.ins, th), Select(tx.outs, th))
            && e.body == BodyOf(env, tx, th)
            && Commitment(env, BodyOf(env, tx, th)) == SealCommitment(e.datum, env.stack)
  {
    hide Verdict, Select, Legal, SealCommitment, CertifiedBy, ShownProof, Parse;
    AcceptedIsLegal(env, env.script(th).args, tx, th);
  }

  lemma AcceptedLeaves(env: Env, tx: Tx, th: Digest, c: Cell)
    requires env.script(th).BoundAsset? && Verdict(env, env.script(th).args, tx, th) == 0 && Select(tx.outs, th) == [c]
    ensures Leaves(env.b2b, ActOf(env, tx, th), th, c)
  {
    ShownAct(env, tx, th);
    hide Verdict, Select, Legal, SealCommitment, ShownEvidence, Shows, BodyOf, Commitment, SlotInOrder;
    LegalOutput(env, ShownEvidence(env, env.script(th).args, tx, th), tx, Select(tx.ins, th), [c]);
  }

  // ---- lives ----

  /** `b` consumes an output of `a` that has type `th`. */
  ghost predicate Linked(a: Tx, b: Tx, th: Digest) {
    exists k: nat, l: nat ::
      k < |a.outs| == |a.outOps| && l < |b.ops| && a.outs[k].typ == Some(th) && a.outOps[k] == b.ops[l]
  }

  /** The numbers of the transactions of a cell's life, from its creation (S1) on: each consumes the cell that the one
      before it produced. */
  ghost predicate Life(acts: seq<Act>, th: Digest, path: seq<nat>)
    decreases |path|
  {
    && path != []
    && var n := |path| - 1;
       && path[n] < |acts| && acts[path[n]].shown.Some? && Select(acts[path[n]].tx.outs, th) != []
       && if n == 0 then Select(acts[path[0]].tx.ins, th) == []
          else Life(acts, th, path[..n]) && path[n - 1] < path[n] && Linked(acts[path[n - 1]].tx, acts[path[n]].tx, th)
  }

  /** The last transaction of the life that is not a leap, so an S1 or an S2, commits to the state. */
  ghost predicate LastCommits(b2b: Hash, acts: seq<Act>, th: Digest, path: seq<nat>, state: Bytes)
    decreases |path|
  {
    && path != []
    && var n := |path| - 1;
       && path[n] < |acts|
       && if n > 0 && Leaps(acts[path[n]].tx, th) then LastCommits(b2b, acts, th, path[..n], state)
          else acts[path[n]].commitment == Some(b2b(state))
  }

  /** The transaction puts `c` at `p`, as its only cell of the type. */
  ghost predicate Produces(tx: Tx, th: Digest, p: Bytes, c: Cell) {
    && Select(tx.outs, th) == [c] && c.typ == Some(th)
    && exists k: nat :: k < |tx.outs| == |tx.outOps| && tx.outOps[k] == p && tx.outs[k] == c
  }

  /** The cell `c` at `p` ends this life: its slot is in order, the last transaction produced it, as its only cell of
      the type, the cell names the body which that transaction shows, and its state is the one last committed to in
      this life. */
  ghost predicate Ending(b2b: Hash, acts: seq<Act>, th: Digest, path: seq<nat>, p: Bytes, c: Cell) {
    && IsCell(c.data) && SlotInOrder(c) && Life(acts, th, path)
    && Produces(acts[path[|path| - 1]].tx, th, p, c)
    && c.data[2..34] == b2b(acts[path[|path| - 1]].shown.value)
    && LastCommits(b2b, acts, th, path, c.data[70..])
  }

  /** Lives stay, when a transaction is added, */
  lemma {:induction false} LifeLater(b2b: Hash, acts: seq<Act>, act: Act, th: Digest, path: seq<nat>, state: Bytes)
    requires Life(acts, th, path)
    ensures Life(acts + [act], th, path)
    ensures LastCommits(b2b, acts, th, path, state) ==> LastCommits(b2b, acts + [act], th, path, state)
    decreases |path|
  {
    hide Select, Leaps, Linked;
    if |path| > 1 {
      LifeLater(b2b, acts, act, th, path[..|path| - 1], state);
    }
  }

  /** begin with a creation, */
  lemma FirstLife(b2b: Hash, acts: seq<Act>, act: Act, th: Digest, p: Bytes, c: Cell)
    requires Leaves(b2b, act, th, c) && Select(act.tx.ins, th) == [] && Produces(act.tx, th, p, c)
    ensures Ending(b2b, acts + [act], th, [|acts|], p, c)
  {
    hide Select, SlotInOrder;
    var all, path := acts + [act], [|acts|];
    assert all[|acts|] == act && path[0] == |acts|;
    assert Life(all, th, path);
  }

  /** and go on with the transaction that consumes their cell. */
  lemma NextLife(b2b: Hash, acts: seq<Act>, act: Act, th: Digest, path: seq<nat>, l: nat, p: Bytes, c: Cell)
    requires l < |act.tx.ops| == |act.tx.ins| && Select(act.tx.ins, th) == [act.tx.ins[l]]
    requires Leaves(b2b, act, th, c) && Produces(act.tx, th, p, c)
    requires Ending(b2b, acts, th, path, act.tx.ops[l], act.tx.ins[l])
    ensures Ending(b2b, acts + [act], th, path + [|acts|], p, c)
  {
    hide Select, Leaps, SlotInOrder;
    var next, all, last := path + [|acts|], acts + [act], acts[path[|path| - 1]].tx;
    LifeLater(b2b, acts, act, th, path, act.tx.ins[l].data[70..]);
    assert next[..|path|] == path && all[|acts|] == act && all[path[|path| - 1]].tx == last;
    assert Linked(last, act.tx, th);
    assert Life(all, th, next);
    assert LastCommits(b2b, all, th, next, c.data[70..]);
  }

  // ---- over every run ----

  /** Every bound asset script of the transaction accepts. */
  ghost predicate BoundAccepts(env: Env, tx: Tx) {
    forall th: Digest {:trigger env.script(th)} ::
      env.script(th).BoundAsset? && Touches(tx, th) ==> Verdict(env, env.script(th).args, tx, th) == 0
  }

  /** A run in which they do. */
  ghost predicate BoundRun(env: Env, start: State, txs: seq<Tx>) {
    Run(start, txs) && forall tx :: tx in txs ==> BoundAccepts(env, tx)
  }

  /** The invariant of a live cell: it ends a life in the run. */
  ghost predicate WellBound(env: Env, txs: seq<Tx>, th: Digest, p: Bytes, c: Cell) {
    exists path :: Ending(env.b2b, Acts(env, txs, th), th, path, p, c)
  }

  ghost predicate AllWellBound(env: Env, txs: seq<Tx>, s: State) {
    forall p :: p in s.live && s.live[p].typ.Some? && env.script(s.live[p].typ.value).BoundAsset?
                ==> WellBound(env, txs, s.live[p].typ.value, p, s.live[p])
  }

  /** In every run that starts without bound cells, every live one satisfies the invariant: it names the certified
      body that produced it, and its state is the one that the last S1 or S2 transaction of its own life committed
      to. */
  lemma {:induction false} LineageInvariant(env: Env, start: State, txs: seq<Tx>)
    requires BoundRun(env, start, txs)
    requires forall th: Digest :: env.script(th).BoundAsset? ==> NoneLive(start, th)
    ensures AllWellBound(env, txs, After(start, txs))
  {
    hide WellBound, BoundAccepts, CanApply, Apply, Moves;
    if txs == [] {
      forall p | p in start.live && start.live[p].typ.Some?
        ensures !env.script(start.live[p].typ.value).BoundAsset?
      {
        var th := start.live[p].typ.value;
        assert env.script(th).BoundAsset? ==> NoneLive(start, th);
      }
    } else {
      var init, tx := txs[..|txs| - 1], txs[|txs| - 1];
      LineageInvariant(env, start, init);
      LastStep(start, txs);
      assert txs == init + [tx];
      BoundStep(env, After(start, init), tx, After(start, txs), init);
    }
  }

  lemma BoundStep(env: Env, s: State, tx: Tx, t: State, txs: seq<Tx>)
    requires Moves(s, tx, t) && BoundAccepts(env, tx) && AllWellBound(env, txs, s)
    ensures AllWellBound(env, txs + [tx], t)
  {
    hide WellBound, BoundAccepts, Select;
    forall q | q in t.live && t.live[q].typ.Some? && env.script(t.live[q].typ.value).BoundAsset?
      ensures WellBound(env, txs + [tx], t.live[q].typ.value, q, t.live[q])
    {
      var th := t.live[q].typ.value;
      assert (txs + [tx])[..|txs|] == txs;
      assert Acts(env, txs + [tx], th) == Acts(env, txs, th) + [ActOf(env, tx, th)];
      NewCell(s, tx, t, th, q);
      if q in s.live && q !in tx.ops && s.live[q] == t.live[q] {
        StaysBound(env, txs, tx, th, q, s.live[q]);
      } else {
        var k :| 0 <= k < |tx.outs| && q == tx.outOps[k] && t.live[q] == tx.outs[k]
            && tx.outs[k] in Select(tx.outs, th);
        OutputBound(env, s, tx, txs, th, k);
      }
    }
  }

  lemma StaysBound(env: Env, txs: seq<Tx>, tx: Tx, th: Digest, p: Bytes, c: Cell)
    requires WellBound(env, txs, th, p, c) && Acts(env, txs + [tx], th) == Acts(env, txs, th) + [ActOf(env, tx, th)]
    ensures WellBound(env, txs + [tx], th, p, c)
  {
    hide LastCommits, Acts, ActOf, Select, Linked, SlotInOrder;
    var acts := Acts(env, txs, th);
    var path :| Ending(env.b2b, acts, th, path, p, c);
    LifeLater(env.b2b, acts, ActOf(env, tx, th), th, path, c.data[70..]);
    assert Ending(env.b2b, acts + [ActOf(env, tx, th)], th, path, p, c);
  }

  lemma OutputBound(env: Env, s: State, tx: Tx, txs: seq<Tx>, th: Digest, k: nat)
    requires CanApply(s, tx) && BoundAccepts(env, tx) && AllWellBound(env, txs, s) && env.script(th).BoundAsset?
    requires k < |tx.outs| == |tx.outOps| && tx.outs[k].typ == Some(th)
    requires Acts(env, txs + [tx], th) == Acts(env, txs, th) + [ActOf(env, tx, th)]
    ensures WellBound(env, txs + [tx], th, tx.outOps[k], tx.outs[k])
  {
    hide Produces, Leaves, Ending, ActOf, Acts, Select, BoundAccepts;
    var acts, act := Acts(env, txs, th), ActOf(env, tx, th);
    GroupLeaves(env, tx, th, k);
    if Select(tx.ins, th) == [] {
      FirstLife(env.b2b, acts, act, th, tx.outOps[k], tx.outs[k]);
    } else {
      var l := SpentCell(s, tx, th);
      assert tx.ins[l] in Select(tx.ins, th) && WellBound(env, txs, th, tx.ops[l], tx.ins[l]);
      var path :| Ending(env.b2b, acts, th, path, tx.ops[l], tx.ins[l]);
      NextLife(env.b2b, acts, act, th, path, l, tx.outOps[k], tx.outs[k]);
    }
  }

  lemma GroupLeaves(env: Env, tx: Tx, th: Digest, k: nat)
    requires BoundAccepts(env, tx) && env.script(th).BoundAsset?
    requires k < |tx.outs| == |tx.outOps| && tx.outs[k].typ == Some(th)
    ensures ActOf(env, tx, th).tx == tx && |Select(tx.ins, th)| <= 1
    ensures Leaves(env.b2b, ActOf(env, tx, th), th, tx.outs[k]) && Produces(tx, th, tx.outOps[k], tx.outs[k])
  {
    hide Select, BoundAccepts, Shows, BodyOf, Commitment, Leaves, Verdict;
    assert tx.outs[k] in tx.outs && tx.outs[k] in Select(tx.outs, th);
    AcceptedGroup(env, tx, th);
    AcceptedLeaves(env, tx, th, tx.outs[k]);
  }

  /** An accepted group of a bound asset has one cell a side at most. */
  lemma AcceptedGroup(env: Env, tx: Tx, th: Digest)
    requires env.script(th).BoundAsset? && BoundAccepts(env, tx) && Touches(tx, th)
    ensures Verdict(env, env.script(th).args, tx, th) == 0 && |Select(tx.ins, th)| <= 1 && |Select(tx.outs, th)| <= 1
  {
    hide Select, Verdict, Touches;
    AcceptedSizes(env, env.script(th).args, tx, th);
  }

  // ---- the state of a cell ----

  /** The state of a bound asset changes only while it stays on CKB, and then a certified datum commits to the
      new one. */
  lemma StateChangesOnlyOnCkb(env: Env, tx: Tx, th: Digest)
    requires env.script(th).BoundAsset? && BoundAccepts(env, tx)
    requires Select(tx.ins, th) != [] && Select(tx.outs, th) != []
    ensures IsCell(Select(tx.ins, th)[0].data) && IsCell(Select(tx.outs, th)[0].data)
    ensures var inp, out := Select(tx.ins, th)[0].data, Select(tx.outs, th)[0].data;
            inp[70..] != out[70..] ==>
              && inp[1] == CKB_OWNED && out[1] == CKB_OWNED
              && Shows(env, tx, th) && Commitment(env, BodyOf(env, tx, th)) == Some(env.b2b(out[70..]))
  {
    hide Select, BoundAccepts, Verdict, Commitment, BodyOf, Shows, ShownEvidence, SealCommitment, SealRecipient,
      InsertsKey;
    AcceptedGroup(env, tx, th);
    ShownAct(env, tx, th);
  }

  /** A trip to Cardano and back: the cell that left can only come back, from the seal it was parked on, with the
      state it left with, and on the lock that the certified datum binds to that state and seal. */
  lemma RoundTripKeepsState(env: Env, start: State, txs: seq<Tx>, th: Digest, i: nat, k: nat, j: nat, l: nat)
    requires env.script(th).BoundAsset? && BoundRun(env, start, txs) && i < j < |txs|
    requires k < |txs[i].outs| == |txs[i].outOps| && txs[i].outs[k].typ == Some(th)
    requires |txs[i].outs[k].data| >= CELL_LEN && txs[i].outs[k].data[1] == CARDANO_BOUND
    requires l < |txs[j].ops| && txs[j].ops[l] == txs[i].outOps[k]
    ensures |Select(txs[i].ins, th)| == 1 && |Select(txs[j].outs, th)| == 1
    ensures IsCell(Select(txs[i].ins, th)[0].data) && IsCell(Select(txs[j].outs, th)[0].data)
    ensures LeapsFrom(env, txs[j], th, txs[i].outs[k].data[2..38])
    ensures Select(txs[j].outs, th)[0].data[70..] == Select(txs[i].ins, th)[0].data[70..]
    ensures Shows(env, txs[j], th)
    ensures var back := Select(txs[j].outs, th)[0];
            Commitment(env, BodyOf(env, txs[j], th))
            == Some(env.b2b(back.data[70..] + txs[i].outs[k].data[2..38] + back.lock))
  {
    hide Select, BoundAccepts, Shows, BodyOf, LeapsFrom, Commitment, Run;
    assert txs[i] in txs && txs[j] in txs;
    ConsumedIsProduced(start, txs, i, k, j, l);
    Departure(env, txs[i], th, k);
    Return(env, txs[j], th, l);
  }

  lemma Departure(env: Env, tx: Tx, th: Digest, k: nat)
    requires env.script(th).BoundAsset? && BoundAccepts(env, tx) && k < |tx.outs| && tx.outs[k].typ == Some(th)
    requires |tx.outs[k].data| >= CELL_LEN && tx.outs[k].data[1] == CARDANO_BOUND
    ensures |Select(tx.ins, th)| == 1 && IsCell(Select(tx.ins, th)[0].data)
    ensures tx.outs[k].data[70..] == Select(tx.ins, th)[0].data[70..]
  {
    hide Select, Verdict, Shows, BodyOf, Commitment, ShownEvidence, BoundAccepts, SealCommitment, SealRecipient,
      InsertsKey, Key;
    assert tx.outs[k] in tx.outs && tx.outs[k] in Select(tx.outs, th);
    AcceptedGroup(env, tx, th);
    ShownAct(env, tx, th);
  }

  lemma Return(env: Env, tx: Tx, th: Digest, l: nat)
    requires env.script(th).BoundAsset? && BoundAccepts(env, tx) && l < |tx.ins| && tx.ins[l].typ == Some(th)
    requires |tx.ins[l].data| >= CELL_LEN && tx.ins[l].data[1] == CARDANO_BOUND
    ensures |Select(tx.outs, th)| == 1 && IsCell(Select(tx.outs, th)[0].data)
    ensures LeapsFrom(env, tx, th, tx.ins[l].data[2..38])
    ensures Select(tx.outs, th)[0].data[70..] == tx.ins[l].data[70..]
    ensures Shows(env, tx, th)
    ensures var back := Select(tx.outs, th)[0];
            Commitment(env, BodyOf(env, tx, th))
                == Some(env.b2b(back.data[70..] + tx.ins[l].data[2..38] + back.lock))
  {
    hide Select, Verdict, Shows, BodyOf, Commitment, ShownEvidence, BoundAccepts, SealCommitment, SealRecipient,
      InsertsKey;
    assert tx.ins[l] in tx.ins && tx.ins[l] in Select(tx.ins, th);
    AcceptedGroup(env, tx, th);
    ShownAct(env, tx, th);
  }
}
