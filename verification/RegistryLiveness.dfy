/** The registry never gets stuck: whatever was inserted before, a new key can be inserted next. */
module RegistryLiveness {
  import opened Basics
  import opened Ledger
  import opened Scripts
  import opened SparseMerkle
  import opened NullifierRegistry
  import opened WitnessBuilder
  import opened Runs
  import opened RegistryRuns
  import opened Bridge

  /** The transaction that the relayer builds to insert `key` after `keys`. */
  ghost function Insertion(env: Env, reg: Digest, p: Bytes, c: Cell, o: Bytes, keys: seq<Digest>, key: Digest): Tx {
    Tx([p], [c], [o], [Cell(c.lock, Some(reg), Root(env.smt, 256, Elements(keys) + {key}))], [],
       [Some(WitnessArgs(None, Some(WitnessBytes(key, PathSiblings(env.smt, 256, Elements(keys), key)))))])
  }

  /** A lock that is not one of the bridge's own. */
  predicate PlainLock(env: Env, lock: Digest) {
    !env.script(lock).BurnUnlock? && !env.script(lock).XadaOwner?
  }

  lemma SelectSingle(c: Cell, th: Digest)
    ensures Select([c], th) == if c.typ == Some(th) then [c] else []
  {
    assert [c][1..] == [];
  }

  lemma LockSingle(c: Cell, lh: Digest)
    ensures SelectLock([c], lh) != [] ==> lh == c.lock
  {
    var cells := [c];
    assert cells[1..] == [];
    if lh != c.lock {
      assert SelectLock(cells[1..], lh) == [];
      assert SelectLock(cells, lh) == [];
    }
  }

  /** What the registry sees of that transaction. */
  lemma InsertionView(env: Env, reg: Digest, p: Bytes, c: Cell, o: Bytes, keys: seq<Digest>, key: Digest)
    requires env.script(reg).Registry? && c.typ == Some(reg) && c.data == Root(env.smt, 256, Elements(keys))
    ensures var tx := Insertion(env, reg, p, c, o, keys, key);
            RegistryView(env, tx, reg)
            == GroupView(env.script(reg).args, [Root(env.smt, 256, Elements(keys))],
                         [Root(env.smt, 256, Elements(keys) + {key})], Some(p),
                         Some(Some(WitnessBytes(key, PathSiblings(env.smt, 256, Elements(keys), key)))))
  {
    hide Root, PathSiblings, WitnessBytes, Select;
    var tx := Insertion(env, reg, p, c, o, keys, key);
    SelectSingle(c, reg);
    SelectSingle(tx.outs[0], reg);
  }

  lemma InsertionTouches(env: Env, reg: Digest, p: Bytes, c: Cell, o: Bytes, keys: seq<Digest>, key: Digest, th: Digest)
    requires c.typ == Some(reg)
    ensures Touches(Insertion(env, reg, p, c, o, keys, key), th) ==> th == reg
    ensures SelectLock(Insertion(env, reg, p, c, o, keys, key).ins, th) != [] ==> th == c.lock
  {
    hide Root, PathSiblings, WitnessBytes, Select, SelectLock;
    LockSingle(c, th);
    SelectSingle(c, th);
    SelectSingle(Insertion(env, reg, p, c, o, keys, key).outs[0], th);
  }

  /** The relayer's transaction is accepted, and reveals the key to the clients. */
  lemma InsertionAccepted(env: Env, reg: Digest, p: Bytes, c: Cell, o: Bytes, keys: seq<Digest>, key: Digest)
    requires env.script(reg).Registry? && |env.script(reg).args| == 32 && PlainLock(env, c.lock)
    requires c.typ == Some(reg) && c.data == Root(env.smt, 256, Elements(keys)) && key !in keys
    ensures Accepted(env, Insertion(env, reg, p, c, o, keys, key))
    ensures InsertsKey(Insertion(env, reg, p, c, o, keys, key), reg, key)
  {
    hide Root, PathSiblings, Select, Verdict, Touches;
    var tx := Insertion(env, reg, p, c, o, keys, key);
    InsertionView(env, reg, p, c, o, keys, key);
    HonestWitnessAccepted(env.smt, env.ckb, env.script(reg).args, keys, key, Some(p));
    forall th: Digest | Touches(tx, th)
      ensures TypeVerdict(env, tx, th) == 0
    {
      InsertionTouches(env, reg, p, c, o, keys, key, th);
    }
    forall lh: Digest | SelectLock(tx.ins, lh) != []
      ensures LockVerdict(env, tx, lh) == 0
    {
      InsertionTouches(env, reg, p, c, o, keys, key, lh);
    }
    hide RegistryView;
    WitnessBytesParse(key, PathSiblings(env.smt, 256, Elements(keys), key));
    assert FirstOf(tx.ins, reg) == 0;
  }

  /** The live registry cell after a run holds the root of the keys inserted so far. */
  lemma LiveRoot(env: Env, start: State, txs: seq<Tx>, reg: Digest) returns (p: Bytes)
    requires env.script(reg).Registry? && RegistryRun(env, reg, start, txs) && NoneLive(start, reg)
    requires Views(env, reg, txs) != [] && !Broken(env, reg, txs)
    ensures Lineage(env.smt, env.ckb, Views(env, reg, txs)) && |env.script(reg).args| == 32
    ensures var s := After(start, txs);
            && p in s.live && s.live[p].typ == Some(reg)
            && s.live[p].data == Root(env.smt, 256, Elements(InsertedKeys(env.smt, env.ckb, Views(env, reg, txs))))
  {
    hide Root, RegistryRun, EmptyLevel;
    var views := Views(env, reg, txs);
    RegistryIsSingleton(env, start, txs, reg);
    p :| OnlyCell(After(start, txs), reg, p, Stored(views));
    RegistryRefinesSet(env.smt, env.ckb, views);
    assert views[0].args == env.script(reg).args;
  }

  /** In every reachable state with a registry, every key that was not inserted yet can be inserted by the relayer's
      transaction, which the ledger and every script accept. */
  lemma NewKeyCanBeInserted(env: Env, start: State, txs: seq<Tx>, reg: Digest, key: Digest, o: Bytes) returns (tx: Tx)
    requires env.script(reg).Registry? && ValidRun(env, start, txs) && NoneLive(start, reg)
    requires Views(env, reg, txs) != [] && !Broken(env, reg, txs)
    requires forall p :: p in After(start, txs).live && After(start, txs).live[p].typ == Some(reg)
                         ==> PlainLock(env, After(start, txs).live[p].lock)
    requires Lineage(env.smt, env.ckb, Views(env, reg, txs))
             ==> key !in InsertedKeys(env.smt, env.ckb, Views(env, reg, txs))
    requires o !in After(start, txs).created
    ensures ValidRun(env, start, txs + [tx]) && InsertsKey(tx, reg, key)
  {
    hide Root, Accepted, Lineage, Broken, Views;
    ValidMeans(env, start, txs);
    var p := LiveRoot(env, start, txs, reg);
    var s := After(start, txs);
    var keys := InsertedKeys(env.smt, env.ckb, Views(env, reg, txs));
    tx := Insertion(env, reg, p, s.live[p], o, keys, key);
    InsertionAccepted(env, reg, p, s.live[p], o, keys, key);
    assert (txs + [tx])[..|txs|] == txs && (txs + [tx])[|txs|] == tx;
    assert CanApply(s, tx);
  }

  /** The transaction that creates a registry out of the plain cell at `g`. */
  ghost function Creation(env: Env, reg: Digest, g: Bytes, c: Cell, o: Bytes, none: set<Digest>): Tx {
    Tx([g], [c], [o], [Cell(c.lock, Some(reg), Root(env.smt, 256, none))], [], [])
  }

  /** Any plain cell can be spent to create the registry that is named after its outpoint. */
  lemma RegistryCanBeCreated(env: Env, start: State, reg: Digest, g: Bytes, o: Bytes, none: set<Digest>)
    returns (tx: Tx)
    requires WfState(start) && g in start.live && start.live[g].typ == None && PlainLock(env, start.live[g].lock)
    requires o !in start.created && env.script(reg) == Script.Registry(env.ckb(g)) && none == {}
    ensures tx == Creation(env, reg, g, start.live[g], o, none)
    ensures ValidRun(env, start, [tx]) && Views(env, reg, [tx]) != []
  {
    hide Root, Verdict, Select, SelectLock, Touches;
    var c := start.live[g];
    tx := Creation(env, reg, g, c, o, none);
    SelectSingle(c, reg);
    SelectSingle(tx.outs[0], reg);
    var v := RegistryView(env, tx, reg);
    GenesisExact(env.smt, env.ckb, v, none);
    CreationTouches(env, reg, g, c, o, none);
    forall th: Digest | Touches(tx, th)
      ensures TypeVerdict(env, tx, th) == 0
    {
      OnlyRegistryTouched(env, reg, g, c, o, none, th);
    }
    forall lh: Digest | SelectLock(tx.ins, lh) != []
      ensures LockVerdict(env, tx, lh) == 0
    {
      LockSingle(c, lh);
    }
    assert Accepted(env, tx);
    assert [tx][..0] == [];
    assert Run(start, []) && CanApply(start, tx) && Run(start, [tx]);
  }

  lemma CreationTouches(env: Env, reg: Digest, g: Bytes, c: Cell, o: Bytes, none: set<Digest>)
    ensures Touches(Creation(env, reg, g, c, o, none), reg)
  {
    hide Root, Select;
    SelectSingle(Creation(env, reg, g, c, o, none).outs[0], reg);
  }

  lemma OnlyRegistryTouched(env: Env, reg: Digest, g: Bytes, c: Cell, o: Bytes, none: set<Digest>, th: Digest)
    requires c.typ == None && Touches(Creation(env, reg, g, c, o, none), th)
    ensures th == reg
  {
    hide Root, Select;
    SelectSingle(c, th);
    SelectSingle(Creation(env, reg, g, c, o, none).outs[0], th);
  }
}
