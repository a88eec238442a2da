/** The registry cell is unique in every run in which its own script accepts, so a key is inserted at most once. */
module RegistryRuns {
  import opened Basics
  import opened Ledger
  import opened Runs
  import opened Scripts
  import opened NullifierRegistry

  /** What the registry `self` sees of a transaction. */
  function RegistryView(env: Env, tx: Tx, self: Digest): GroupView
    requires env.script(self).Registry?
  {
    var i := FirstOf(tx.ins, self);
    GroupView(
      env.script(self).args,
      Datas(Select(tx.ins, self)),
      Datas(Select(tx.outs, self)),
      if tx.ops == [] then None else Some(tx.ops[0]),
      if i < |tx.ins| && WitnessAt(tx, i).Some? then Some(WitnessAt(tx, i).value.inputType) else None)
  }

  /** The registry's script runs and accepts. */
  ghost predicate RegistryAccepts(env: Env, tx: Tx, reg: Digest)
    requires env.script(reg).Registry?
  {
    Touches(tx, reg) ==> Verdict(env.smt, env.ckb, RegistryView(env, tx, reg)) == 0
  }

  /** A run in which the registry's script accepts every transaction that touches it. */
  ghost predicate RegistryRun(env: Env, reg: Digest, start: State, txs: seq<Tx>)
    requires env.script(reg).Registry?
  {
    Run(start, txs) && forall tx :: tx in txs ==> RegistryAccepts(env, tx, reg)
  }

  /** The registry's views of the transactions that touch it, in order. */
  ghost function Views(env: Env, reg: Digest, txs: seq<Tx>): seq<GroupView>
    requires env.script(reg).Registry?
  {
    if txs == [] then []
    else
      var last := txs[|txs| - 1];
      Views(env, reg, txs[..|txs| - 1]) + if Touches(last, reg) then [RegistryView(env, last, reg)] else []
  }

  ghost function FirstInputs(txs: seq<Tx>): set<Bytes> {
    set i | 0 <= i < |txs| && txs[i].ops != [] :: txs[i].ops[0]
  }

  /** The root in the cell that the last of the views produced. */
  ghost function Stored(views: seq<GroupView>): Bytes
    requires views != [] && |views[|views| - 1].outputs| == 1
  {
    views[|views| - 1].outputs[0]
  }

  /** Before its genesis no registry cell is live; after it exactly one is, the views up to now form a lineage that
      ends with its root, and the outpoint that named it is spent. */
  ghost predicate Tracks(env: Env, reg: Digest, s: State, views: seq<GroupView>)
    requires env.script(reg).Registry?
  {
    if views == [] then NoneLive(s, reg)
    else
      && Lineage(env.smt, env.ckb, views)
      && (forall i :: 0 <= i < |views| ==> views[i].args == env.script(reg).args)
      && |views[|views| - 1].outputs| == 1
      && (exists p :: OnlyCell(s, reg, p, Stored(views)))
      && views[0].firstInput.Some?
      && views[0].firstInput.value in s.created && views[0].firstInput.value !in s.live
  }

  lemma UntouchedTracks(env: Env, reg: Digest, s: State, tx: Tx, t: State, views: seq<GroupView>)
    requires env.script(reg).Registry? && Moves(s, tx, t) && Tracks(env, reg, s, views) && !Touches(tx, reg)
    ensures Tracks(env, reg, t, views)
  {
    hide Lineage, Select;
    if views == [] {
      forall q | q in t.live
        ensures t.live[q].typ != Some(reg)
      {
        if t.live[q].typ == Some(reg) { NewCell(s, tx, t, reg, q); }
      }
    } else {
      var p :| OnlyCell(s, reg, p, Stored(views));
      UntouchedStays(s, tx, t, reg, p, Stored(views));
    }
  }

  /** An accepted transaction that spends no registry cell creates one, named after its first input. */
  lemma GenesisMeans(env: Env, reg: Digest, tx: Tx)
    requires env.script(reg).Registry? && RegistryAccepts(env, tx, reg) && tx.ops != []
    requires Touches(tx, reg) && Select(tx.ins, reg) == []
    ensures |Select(tx.outs, reg)| == 1 && env.script(reg).args == env.ckb(tx.ops[0])
    ensures var v := RegistryView(env, tx, reg);
            v.outputs == [Select(tx.outs, reg)[0].data] && Lineage(env.smt, env.ckb, [v])
  {
    hide EmptyLevel, Select;
    assert RegistryView(env, tx, reg).inputs == [];
    assert |Select(tx.outs, reg)| == |RegistryView(env, tx, reg).outputs|;
  }

  /** What an accepted spend shows. */
  lemma UpdateMeans(env: Env, reg: Digest, tx: Tx)
    requires env.script(reg).Registry? && RegistryAccepts(env, tx, reg) && Select(tx.ins, reg) != []
    ensures |Select(tx.ins, reg)| == 1 && |Select(tx.outs, reg)| == 1
    ensures var v := RegistryView(env, tx, reg);
            && AcceptsUpdate(env.smt, env.ckb, v)
            && v.inputs == [Select(tx.ins, reg)[0].data] && v.outputs == [Select(tx.outs, reg)[0].data]
  {
    hide Select, WitnessSiblings;
    var v := RegistryView(env, tx, reg);
    assert |Select(tx.ins, reg)| == |v.inputs| && |Select(tx.outs, reg)| == |v.outputs|;
  }

  /** The first creation starts a lineage; a second one under the same args needs another first input with the same
      hash. */
  lemma GenesisTracks(env: Env, reg: Digest, s: State, tx: Tx, t: State, views: seq<GroupView>)
    requires env.script(reg).Registry? && Moves(s, tx, t) && RegistryAccepts(env, tx, reg) && Tracks(env, reg, s, views)
    requires Touches(tx, reg) && Select(tx.ins, reg) == []
    ensures if views == [] then Tracks(env, reg, t, [RegistryView(env, tx, reg)])
            else views[0].firstInput.Some? && Collides(env.ckb, {views[0].firstInput.value, tx.ops[0]})
  {
    hide Select, Touches, EmptyLevel;
    assert tx.ops[0] in tx.ops && tx.ops[0] in s.live;
    GenesisMeans(env, reg, tx);
    var v := RegistryView(env, tx, reg);
    assert v.args == env.script(reg).args && v.firstInput == Some(tx.ops[0]);
    hide RegistryView, RegistryAccepts;
    if views == [] {
      hide Lineage;
      OutputIsOnlyCell(s, tx, t, reg);
      assert Stored([v]) == Select(tx.outs, reg)[0].data && [v][0] == v;
    } else {
      assert views[0].args == env.ckb(views[0].firstInput.value);
    }
  }

  /** An accepted spend: the spent cell is the only live one, so the lineage grows by this step. */
  lemma UpdateTracks(env: Env, reg: Digest, s: State, tx: Tx, t: State, views: seq<GroupView>)
    requires env.script(reg).Registry? && Moves(s, tx, t) && RegistryAccepts(env, tx, reg) && Tracks(env, reg, s, views)
    requires Select(tx.ins, reg) != []
    ensures views != [] && Tracks(env, reg, t, views + [RegistryView(env, tx, reg)])
  {
    hide Select, Lineage, AcceptsUpdate;
    UpdateMeans(env, reg, tx);
    var v := RegistryView(env, tx, reg);
    assert v.args == env.script(reg).args;
    hide RegistryView, RegistryAccepts;
    var k := SpentCell(s, tx, reg);
    assert tx.ins[k] in Select(tx.ins, reg);
    var p :| OnlyCell(s, reg, p, Stored(views));
    assert p == tx.ops[k] && v.inputs == [Stored(views)];
    OutputIsOnlyCell(s, tx, t, reg);
    LineageGrows(env.smt, env.ckb, views, v);
    assert Stored(views + [v]) == Select(tx.outs, reg)[0].data && (views + [v])[0] == views[0];
  }

  lemma LineageGrows(smt: Hash, ckb: Hash, views: seq<GroupView>, v: GroupView)
    requires Lineage(smt, ckb, views) && AcceptsUpdate(smt, ckb, v) && |views[|views| - 1].outputs| == 1
    requires v.inputs == views[|views| - 1].outputs
    ensures Lineage(smt, ckb, views + [v])
  {
    hide Verdict, AcceptsUpdate;
  }

  /** In every run that starts without a registry cell there is at most one at any time, and its views form one
      lineage; or two different outpoints have the type id of the registry. */
  lemma {:induction false} RegistryIsSingleton(env: Env, start: State, txs: seq<Tx>, reg: Digest)
    requires env.script(reg).Registry? && RegistryRun(env, reg, start, txs) && NoneLive(start, reg)
    ensures Tracks(env, reg, After(start, txs), Views(env, reg, txs)) || Collides(env.ckb, FirstInputs(txs))
    ensures var views := Views(env, reg, txs);
            views != [] && views[0].firstInput.Some? ==> views[0].firstInput.value in FirstInputs(txs)
  {
    hide RegistryView, Touches, RegistryAccepts, Apply, NoneLive;
    if txs == [] {
      assert Tracks(env, reg, start, []);
    } else {
      hide Tracks;
      var init, tx := txs[..|txs| - 1], txs[|txs| - 1];
      RegistryIsSingleton(env, start, init, reg);
      LastStep(start, txs);
      ViewsGrow(env, reg, txs);
      hide Views, FirstInputs, Collides, After, Run, Moves, CanApply;
      if Collides(env.ckb, FirstInputs(init)) {
        CollidesMonotone(env.ckb, FirstInputs(init), FirstInputs(txs));
      } else {
        TracksStep(env, reg, After(start, init), tx, After(start, txs), Views(env, reg, init), FirstInputs(txs));
      }
    }
  }

  lemma ViewsGrow(env: Env, reg: Digest, txs: seq<Tx>)
    requires env.script(reg).Registry? && txs != [] && txs[|txs| - 1].ops != []
    ensures var init, tx := txs[..|txs| - 1], txs[|txs| - 1];
            && FirstInputs(init) <= FirstInputs(txs) && tx.ops[0] in FirstInputs(txs)
            && RegistryView(env, tx, reg).firstInput == Some(tx.ops[0])
            && Views(env, reg, txs)
               == Views(env, reg, init) + if Touches(tx, reg) then [RegistryView(env, tx, reg)] else []
  {
    forall p | p in FirstInputs(txs[..|txs| - 1])
      ensures p in FirstInputs(txs)
    {
      var i :| 0 <= i < |txs| - 1 && txs[..|txs| - 1][i].ops != [] && p == txs[..|txs| - 1][i].ops[0];
      assert txs[i].ops[0] == p;
    }
  }

  lemma TracksStep(env: Env, reg: Digest, s: State, tx: Tx, t: State, views: seq<GroupView>, firsts: set<Bytes>)
    requires env.script(reg).Registry? && Moves(s, tx, t) && RegistryAccepts(env, tx, reg) && Tracks(env, reg, s, views)
    requires tx.ops[0] in firsts && (views != [] && views[0].firstInput.Some? ==> views[0].firstInput.value in firsts)
    ensures || Tracks(env, reg, t, views + if Touches(tx, reg) then [RegistryView(env, tx, reg)] else [])
            || Collides(env.ckb, firsts)
  {
    hide Tracks, RegistryView, RegistryAccepts, Select;
    assert views + [] == views;
    if !Touches(tx, reg) {
      UntouchedTracks(env, reg, s, tx, t, views);
    } else if Select(tx.ins, reg) == [] {
      GenesisTracks(env, reg, s, tx, t, views);
      assert [] + [RegistryView(env, tx, reg)] == [RegistryView(env, tx, reg)];
      if views != [] {
        CollidesMonotone(env.ckb, {views[0].firstInput.value, tx.ops[0]}, firsts);
      }
    } else {
      UpdateTracks(env, reg, s, tx, t, views);
    }
  }

  // ---- a key is inserted once ----

  /** Two different inputs with the same hash occur in the run: the first inputs of two transactions, or two nodes of
      the registry's trees and paths. */
  ghost predicate Broken(env: Env, reg: Digest, txs: seq<Tx>)
    requires env.script(reg).Registry?
  {
    || Collides(env.ckb, FirstInputs(txs))
    || (Lineage(env.smt, env.ckb, Views(env, reg, txs))
        && Collides(env.smt, LineageInputs(env.smt, env.ckb, Views(env, reg, txs))))
  }

  lemma {:induction false} ViewsPrefix(env: Env, reg: Digest, txs: seq<Tx>, n: nat)
    requires env.script(reg).Registry? && n <= |txs|
    ensures Views(env, reg, txs[..n]) <= Views(env, reg, txs)
    decreases |txs|
  {
    if n == |txs| {
      assert txs[..n] == txs;
    } else {
      ViewsPrefix(env, reg, txs[..|txs| - 1], n);
      assert txs[..|txs| - 1][..n] == txs[..n];
    }
  }

  /** Where the view of transaction i stands among the views. */
  lemma ViewAt(env: Env, reg: Digest, txs: seq<Tx>, i: nat)
    requires env.script(reg).Registry? && i < |txs| && Touches(txs[i], reg)
    ensures |Views(env, reg, txs[..i])| < |Views(env, reg, txs[..i + 1])| <= |Views(env, reg, txs)|
    ensures Views(env, reg, txs)[|Views(env, reg, txs[..i])|] == RegistryView(env, txs[i], reg)
  {
    hide RegistryView, Touches;
    var k := |Views(env, reg, txs[..i])|;
    assert txs[..i + 1][..i] == txs[..i] && txs[..i + 1][|txs[..i + 1]| - 1] == txs[i];
    assert Views(env, reg, txs[..i + 1]) == Views(env, reg, txs[..i]) + [RegistryView(env, txs[i], reg)];
    ViewsPrefix(env, reg, txs, i + 1);
    assert Views(env, reg, txs)[k] == Views(env, reg, txs[..i + 1])[k];
  }

  lemma {:induction false} InsertedKeyAt(smt: Hash, ckb: Hash, views: seq<GroupView>, k: nat)
    requires Lineage(smt, ckb, views) && 0 < k < |views|
    ensures AcceptsUpdate(smt, ckb, views[k]) && InsertedKeys(smt, ckb, views)[k - 1] == KeyOf(smt, ckb, views[k])
    decreases |views|
  {
    hide Verdict, AcceptsUpdate;
    LineagePrefix(smt, ckb, views);
    if k < |views| - 1 {
      InsertedKeyAt(smt, ckb, views[..|views| - 1], k);
    }
  }

  /** What a client sees is what the registry inserts. */
  lemma RevealedIsInserted(env: Env, reg: Digest, tx: Tx, key: Digest)
    requires env.script(reg).Registry? && RegistryAccepts(env, tx, reg) && InsertsKey(tx, reg, key)
    ensures Select(tx.ins, reg) != [] && Touches(tx, reg)
    ensures AcceptsUpdate(env.smt, env.ckb, RegistryView(env, tx, reg))
    ensures KeyOf(env.smt, env.ckb, RegistryView(env, tx, reg)) == key
  {
    hide AcceptsUpdate;
    var i := FirstOf(tx.ins, reg);
    assert tx.ins[i] in tx.ins && tx.ins[i] in Select(tx.ins, reg);
    UpdateMeans(env, reg, tx);
    ProofIsRevealed(env, reg, tx);
  }

  lemma ProofIsRevealed(env: Env, reg: Digest, tx: Tx)
    requires env.script(reg).Registry? && AcceptsUpdate(env.smt, env.ckb, RegistryView(env, tx, reg))
    ensures var i := FirstOf(tx.ins, reg);
            && i < |tx.ins| && WitnessAt(tx, i).Some? && WitnessAt(tx, i).value.inputType.Some?
            && |WitnessAt(tx, i).value.inputType.value| >= 32
            && WitnessAt(tx, i).value.inputType.value[..32] == KeyOf(env.smt, env.ckb, RegistryView(env, tx, reg))
  {
  }

  /** No key is inserted by two transactions of a run. */
  lemma KeyInsertedOnce(env: Env, start: State, txs: seq<Tx>, reg: Digest, i: nat, j: nat, key: Digest)
    requires env.script(reg).Registry? && RegistryRun(env, reg, start, txs) && NoneLive(start, reg)
    requires i < j < |txs| && InsertsKey(txs[i], reg, key) && InsertsKey(txs[j], reg, key)
    ensures Broken(env, reg, txs)
  {
    hide RegistryAccepts, RegistryView, Touches, InsertsKey, Lineage, AcceptsUpdate, Run;
    RevealedIsInserted(env, reg, txs[i], key);
    RevealedIsInserted(env, reg, txs[j], key);
    RegistryIsSingleton(env, start, txs, reg);
    if !Collides(env.ckb, FirstInputs(txs)) {
      var views := Views(env, reg, txs);
      ViewAt(env, reg, txs, i);
      ViewAt(env, reg, txs, j);
      var a, b := |Views(env, reg, txs[..i])|, |Views(env, reg, txs[..j])|;
      ViewsPrefix(env, reg, txs[..j], i + 1);
      assert txs[..j][..i + 1] == txs[..i + 1] && a < b;
      TwiceInserted(env.smt, env.ckb, views, a, b);
    }
  }

  lemma TwiceInserted(smt: Hash, ckb: Hash, views: seq<GroupView>, a: nat, b: nat)
    requires Lineage(smt, ckb, views) && a < b < |views|
    requires AcceptsUpdate(smt, ckb, views[a]) && AcceptsUpdate(smt, ckb, views[b])
    requires KeyOf(smt, ckb, views[a]) == KeyOf(smt, ckb, views[b])
    ensures Collides(smt, LineageInputs(smt, ckb, views))
  {
    hide Verdict;
    RegistryRefinesSet(smt, ckb, views);
    if StoresKeys(smt, ckb, views) {
      assert a != 0;
      InsertedKeyAt(smt, ckb, views, a);
      InsertedKeyAt(smt, ckb, views, b);
      assert InsertedKeys(smt, ckb, views)[a - 1] == InsertedKeys(smt, ckb, views)[b - 1];
    }
  }
}
