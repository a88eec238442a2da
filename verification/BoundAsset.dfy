/** The bound asset type script, version 2 (`bound_asset_v2`): five legal shapes of a cell's life. */
module BoundAsset {
  import opened Basics
  import opened Ledger
  import opened Scripts
  import opened WitnessLayout
  import opened SealWalk
  import opened BodyParse

  const ARGS_LEN: nat := 57
  const CELL_LEN: nat := 70
  const CARDANO_BOUND: int := 1
  const CKB_OWNED: int := 2

  // ---- a cell: version, tag, seal transaction, seal index, lock slot, state ----

  predicate IsCell(d: Bytes) {
    |d| >= 70 && d[0] == 2 && (d[1] == 1 || d[1] == 2)
  }

  function SealTx(d: Bytes): Digest
    requires |d| >= CELL_LEN
  {
    d[2..34]
  }

  function SealIndex(d: Bytes): nat
    requires |d| >= CELL_LEN
  {
    FromLE(d[34..38])
  }

  /** The outpoint of the seal, as stored. */
  function Seal(d: Bytes): Bytes
    requires |d| >= CELL_LEN
  {
    d[2..38]
  }

  function LockSlot(d: Bytes): Digest
    requires |d| >= CELL_LEN
  {
    d[38..70]
  }

  function CellState(d: Bytes): Bytes
    requires |d| >= CELL_LEN
  {
    d[70..]
  }

  /** `tag_of`: 0, or the error. */
  function TagVerdict(d: Bytes): int {
    if |d| < CELL_LEN then 7
    else if d[0] != 2 then 43
    else if d[1] != CARDANO_BOUND && d[1] != CKB_OWNED then 44
    else 0
  }

  /** The nullifier of a consumed seal. */
  function Key(env: Env, seal: Bytes): Digest {
    env.b2b([0x03] + seal)
  }

  /** The cells of this program among `cells`, whatever their args. */
  function Instances(env: Env, cells: seq<Cell>): nat {
    if cells == [] then 0
    else
      (if cells[0].typ.Some? && env.script(cells[0].typ.value).BoundAsset? then 1 else 0) + Instances(env, cells[1..])
  }

  method CountInstances(env: Env, cells: seq<Cell>) returns (c: nat)
    ensures c == Instances(env, cells)
  {
    c := 0;
    var i := 0;
    while i < |cells|
      invariant 0 <= i <= |cells| && c + Instances(env, cells[i..]) == Instances(env, cells)
    {
      if cells[i].typ.Some? && env.script(cells[i].typ.value).BoundAsset? { c := c + 1; }
      i := i + 1;
    }
  }

  // ---- the branches ----

  /** What a branch sees: the lock address and seal policy of the args, the certified body, its consumed
      outpoints and its datum. */
  datatype Evidence = Evidence(lock: Bytes, policy: Bytes, body: Bytes, ins: seq<Outpoint>, datum: Bytes)

  function ZeroLock(): (z: Digest)
    ensures forall i :: 0 <= i < 32 ==> z[i] == 0
  {
    seq(32, i => 0)
  }

  /** `ls_pin`. */
  function PinVerdict(out: Bytes, lock: Digest): int
    requires |out| >= CELL_LEN
  {
    if lock == ZeroLock() then 45 else if lock != LockSlot(out) then 45 else 0
  }

  function CommitVerdict(env: Env, e: Evidence, state: Bytes, mismatch: int): int {
    match SealCommitment(e.datum, env.stack)
    case None => PANIC
    case Some(c) => if c != env.b2b(state) then mismatch else 0
  }

  function Genesis(env: Env, e: Evidence, out: Bytes, lock: Digest): int
    requires |out| >= CELL_LEN
  {
    if SealTx(out) != env.b2b(e.body) then 8
    else if e.datum == [] then 9
    else if CommitVerdict(env, e, CellState(out), 10) != 0 then CommitVerdict(env, e, CellState(out), 10)
    else if SealAtLock(e.body, e.lock, e.policy) != Some(true) then 13
    else PinVerdict(out, lock)
  }

  function Transition(env: Env, e: Evidence, inp: Bytes, out: Bytes, lock: Digest): int
    requires |inp| >= CELL_LEN && |out| >= CELL_LEN
  {
    if SealTx(out) != env.b2b(e.body) then 8
    else if e.datum == [] then 9
    else if CommitVerdict(env, e, CellState(out), 10) != 0 then CommitVerdict(env, e, CellState(out), 10)
    else if (SealTx(inp), SealIndex(inp)) !in e.ins then 12
    else PinVerdict(out, lock)
  }

  function Finalize(e: Evidence, inp: Bytes): int
    requires |inp| >= CELL_LEN
  {
    if (SealTx(inp), SealIndex(inp)) !in e.ins then 22
    else if SealAtLock(e.body, e.lock, e.policy) != Some(false) then 23
    else 0
  }

  function LeapToCkb(env: Env, e: Evidence, tx: Tx, inp: Bytes, out: Bytes, lock: Digest): int
    requires |inp| >= CELL_LEN && |out| >= CELL_LEN
  {
    if SealTx(out) != env.b2b(e.body) then 8
    else if (SealTx(inp), SealIndex(inp)) !in e.ins then 24
    else if SealAtLock(e.body, e.lock, e.policy) != Some(true) then 25
    else if CellState(inp) != CellState(out) then 47
    else
      match SealCommitment(e.datum, env.stack)
      case None => PANIC
      case Some(rc) =>
        match SealRecipient(e.datum, env.stack)
        case None => PANIC
        case Some(recipient) =>
          if |recipient| != 32 then 26
          else if rc != env.b2b(CellState(out) + Seal(inp) + recipient) then 27
          else if LockSlot(out) != recipient then 28
          else if lock != recipient then 29
          else if !InsertsKey(tx, env.leapRegistry, Key(env, SealTx(inp) + LE(SealIndex(inp), 4))) then 50
          else 0
  }

  function LeapToCardano(env: Env, e: Evidence, inp: Bytes, inLock: Digest, out: Bytes): int
    requires |inp| >= CELL_LEN && |out| >= CELL_LEN
  {
    if inLock != LockSlot(inp) then 31
    else if CellState(inp) != CellState(out) then 32
    else if SealAtLock(e.body, e.lock, e.policy) != Some(true) then 33
    else if SealTx(out) != env.b2b(e.body) then 34
    else if LockSlot(out) != ZeroLock() then 35
    else if e.datum == [] then 48
    else CommitVerdict(env, e, CellState(out), 49)
  }

  /** The dispatch on the tags. */
  function Dispatch(env: Env, e: Evidence, tx: Tx, ins: seq<Cell>, outs: seq<Cell>): int
    requires |ins| <= 1 && |outs| <= 1
  {
    if outs != [] && TagVerdict(outs[0].data) != 0 then TagVerdict(outs[0].data)
    else if ins != [] && TagVerdict(ins[0].data) != 0 then TagVerdict(ins[0].data)
    else if ins == [] then
      if outs == [] then 40
      else if outs[0].data[1] == CKB_OWNED then Genesis(env, e, outs[0].data, outs[0].lock)
      else 42
    else if ins[0].data[1] == CKB_OWNED then
      if outs == [] then Finalize(e, ins[0].data)
      else if outs[0].data[1] == CKB_OWNED then Transition(env, e, ins[0].data, outs[0].data, outs[0].lock)
      else LeapToCardano(env, e, ins[0].data, ins[0].lock, outs[0].data)
    else
      if outs == [] then 41
      else if outs[0].data[1] == CKB_OWNED then LeapToCkb(env, e, tx, ins[0].data, outs[0].data, outs[0].lock)
      else 40
  }

  function CertifiedVerdict(env: Env, args: Bytes, tx: Tx, self: Digest, root: Bytes, p: Proof): int
    requires |args| >= ARGS_LEN && |Select(tx.ins, self)| <= 1 && |Select(tx.outs, self)| <= 1
  {
    if !SubProof(env, p) then 4
    else if !MasterProof(env, root, p) then 5
    else
      match Parse(p.body, env.stack)
      case None => PANIC
      case Some(x) =>
        Dispatch(env, Evidence(args[28..], args[..28], p.body, x.ins, x.datum), tx, Select(tx.ins, self),
                 Select(tx.outs, self))
  }

  /** The exit code of the type script `self`. */
  function Verdict(env: Env, args: Bytes, tx: Tx, self: Digest): int {
    if |args| < ARGS_LEN then 30
    else if |Select(tx.ins, self)| > 1 then 38
    else if |Select(tx.outs, self)| > 1 then 39
    else if Instances(env, tx.ins) > 1 then 51
    else if Instances(env, tx.outs) > 1 then 52
    else
      match Checkpoint(tx.deps, env.lckp)
      case Nothing => 1
      case Conflict => 53
      case Agreed(root, height) =>
        if height == 0 then 6
        else
          match GroupWitness(tx, self)
          case None => 2
          case Some(w) =>
            match w.inputType
            case None => 3
            case Some(raw) => CertifiedVerdict(env, args, tx, self, root, Read(raw))
  }

  method ProgramEntry(env: Env, args: Bytes, tx: Tx, self: Digest) returns (code: int)
    ensures code == Verdict(env, args, tx, self)
  {
    hide Select, Read, Parse, Dispatch, SubProof, MasterProof, GroupWitness, Checkpoint, Instances;
    if |args| < ARGS_LEN { return 30; }
    if |Select(tx.ins, self)| > 1 { return 38; }
    if |Select(tx.outs, self)| > 1 { return 39; }
    var ins := CountInstances(env, tx.ins);
    if ins > 1 { return 51; }
    var outs := CountInstances(env, tx.outs);
    if outs > 1 { return 52; }
    var cert := CheckpointRoot(tx.deps, env.lckp);
    if cert == Nothing { return 1; }
    if cert == Conflict { return 53; }
    if cert.height == 0 { return 6; }
    var w := GroupWitness(tx, self);
    if w == None { return 2; }
    if w.value.inputType == None { return 3; }
    var p := ReadProof(w.value.inputType.value);
    if !SubProof(env, p) { return 4; }
    if !MasterProof(env, cert.root, p) { return 5; }
    var x := ComputeParse(p.body, env.stack);
    if x == None { return PANIC; }
    return Dispatch(env, Evidence(args[28..], args[..28], p.body, x.value.ins, x.value.datum), tx,
                    Select(tx.ins, self), Select(tx.outs, self));
  }

  /** The proof that an accepted transaction shows in its witness, */
  function ShownProof(env: Env, args: Bytes, tx: Tx, self: Digest): Proof
    requires Verdict(env, args, tx, self) == 0
  {
    Read(GroupWitness(tx, self).value.inputType.value)
  }

  /** and its body. */
  function ShownBody(env: Env, args: Bytes, tx: Tx, self: Digest): Bytes
    requires Verdict(env, args, tx, self) == 0
  {
    ShownProof(env, args, tx, self).body
  }

  function ShownEvidence(env: Env, args: Bytes, tx: Tx, self: Digest): Evidence
    requires Verdict(env, args, tx, self) == 0
  {
    var body := ShownBody(env, args, tx, self);
    var x := Parse(body, env.stack).value;
    Evidence(args[28..], args[..28], body, x.ins, x.datum)
  }

  /** The proof leads to the checkpoint of the transaction. */
  predicate CertifiedBy(env: Env, tx: Tx, p: Proof) {
    && Checkpoint(tx.deps, env.lckp).Agreed? && Checkpoint(tx.deps, env.lckp).height > 0
    && Certified(env, Checkpoint(tx.deps, env.lckp).root, p)
  }

  lemma AcceptedSizes(env: Env, args: Bytes, tx: Tx, self: Digest)
    requires Verdict(env, args, tx, self) == 0
    ensures |Select(tx.ins, self)| <= 1 && |Select(tx.outs, self)| <= 1
    ensures Instances(env, tx.ins) <= 1 && Instances(env, tx.outs) <= 1
  {
    hide Select, Read, CertifiedVerdict, GroupWitness, Checkpoint;
  }

  lemma AcceptedShape(env: Env, args: Bytes, tx: Tx, self: Digest)
    requires Verdict(env, args, tx, self) == 0
    ensures |args| >= 57 && |Select(tx.ins, self)| <= 1 && |Select(tx.outs, self)| <= 1
    ensures Instances(env, tx.ins) <= 1 && Instances(env, tx.outs) <= 1
    ensures CertifiedBy(env, tx, ShownProof(env, args, tx, self))
    ensures Parse(ShownBody(env, args, tx, self), env.stack).Some?
    ensures Dispatch(env, ShownEvidence(env, args, tx, self), tx, Select(tx.ins, self), Select(tx.outs, self)) == 0
  {
    hide Read, Parse, Dispatch, SubProof, MasterProof, GroupWitness, Checkpoint, Select;
  }

  /** The layout of a cell: version, tag, seal transaction, seal index, lock slot, state. */
  lemma CellParts(d: Bytes)
    requires |d| >= CELL_LEN
    ensures d == [d[0], d[1]] + SealTx(d) + LE(SealIndex(d), 4) + LockSlot(d) + CellState(d)
    ensures |SealTx(d)| == |LockSlot(d)| == 32 && |LE(SealIndex(d), 4)| == 4
  {
    LEOfFromLE(d[34..38]);
    assert d == d[..2] + d[2..34] + d[34..38] + d[38..70] + d[70..];
  }

  /** The index bytes of the key are the ones in the cell. */
  lemma KeyIsOfTheSeal(d: Bytes)
    requires |d| >= CELL_LEN
    ensures SealTx(d) + LE(SealIndex(d), 4) == Seal(d)
  {
    LEOfFromLE(d[34..38]);
    assert d[2..34] + d[34..38] == d[2..38];
  }

  // ---- the five legal shapes, as the design states them, on the bytes of the cells ----
  // Byte 1 is the tag: 1 on Cardano, 2 on CKB. Bytes 2..34 are the seal transaction, 34..38 the seal
  // index, 38..70 the lock slot, and the state is what follows.

  /** S1. A cell enters CKB: some output of the certified transaction holds the seal at the lock address, the datum
      of its output 0 commits to the state, and the cell's lock is the one in its slot. `SealOutputs` says when the
      two outputs are one. */
  predicate Enters(env: Env, e: Evidence, out: Cell) {
    && IsCell(out.data) && out.data[1] == 2
    && out.data[2..34] == env.b2b(e.body)
    && SealAtLock(e.body, e.lock, e.policy) == Some(true)
    && SealCommitment(e.datum, env.stack) == Some(env.b2b(out.data[70..]))
    && out.lock == out.data[38..70] && out.lock != ZeroLock()
  }

  /** S2. It moves to a new state: the certified transaction spends its seal and commits to the new state. */
  predicate Stays(env: Env, e: Evidence, inp: Cell, out: Cell) {
    && IsCell(inp.data) && inp.data[1] == 2 && IsCell(out.data) && out.data[1] == 2
    && out.data[2..34] == env.b2b(e.body)
    && (inp.data[2..34], FromLE(inp.data[34..38])) in e.ins
    && SealCommitment(e.datum, env.stack) == Some(env.b2b(out.data[70..]))
    && out.lock == out.data[38..70] && out.lock != ZeroLock()
  }

  /** S3. It ends: the certified transaction spends its seal and does not put it back. */
  predicate Ends(e: Evidence, inp: Cell) {
    && IsCell(inp.data) && inp.data[1] == 2
    && (inp.data[2..34], FromLE(inp.data[34..38])) in e.ins
    && SealAtLock(e.body, e.lock, e.policy) == Some(false)
  }

  /** S4. It leaves for Cardano: its own lock runs, the state stays, the slot is cleared, some output holds the new
      seal at the lock address, and the datum of output 0 commits to the state. */
  predicate Departs(env: Env, e: Evidence, inp: Cell, out: Cell) {
    && IsCell(inp.data) && inp.data[1] == 2 && IsCell(out.data) && out.data[1] == 1
    && inp.lock == inp.data[38..70] && out.data[38..70] == ZeroLock()
    && out.data[70..] == inp.data[70..]
    && out.data[2..34] == env.b2b(e.body)
    && SealAtLock(e.body, e.lock, e.policy) == Some(true)
    && SealCommitment(e.datum, env.stack) == Some(env.b2b(out.data[70..]))
  }

  /** S5. It comes back: the certified transaction spends the seal it was parked on and parks the next, the state stays,
      the cell lands on the lock that the datum binds to that state and that seal, and the seal is nullified. */
  predicate Lands(env: Env, e: Evidence, tx: Tx, inp: Cell, out: Cell) {
    && IsCell(inp.data) && inp.data[1] == 1 && IsCell(out.data) && out.data[1] == 2
    && out.data[2..34] == env.b2b(e.body)
    && (inp.data[2..34], FromLE(inp.data[34..38])) in e.ins
    && SealAtLock(e.body, e.lock, e.policy) == Some(true)
    && out.data[70..] == inp.data[70..]
    && SealRecipient(e.datum, env.stack) == Some(out.lock)
    && SealCommitment(e.datum, env.stack) == Some(env.b2b(inp.data[70..] + inp.data[2..38] + out.lock))
    && out.lock == out.data[38..70]
    && InsertsKey(tx, env.leapRegistry, Key(env, inp.data[2..38]))
  }

  predicate Legal(env: Env, e: Evidence, tx: Tx, ins: seq<Cell>, outs: seq<Cell>) {
    || (ins == [] && |outs| == 1 && Enters(env, e, outs[0]))
    || (|ins| == 1 && outs == [] && Ends(e, ins[0]))
    || (|ins| == 1 && |outs| == 1
        && (Stays(env, e, ins[0], outs[0]) || Departs(env, e, ins[0], outs[0]) || Lands(env, e, tx, ins[0], outs[0])))
  }

  // ---- the exit codes of the branches ----

  /** `code` when the check fails, and else what comes next. */
  function Check(ok: bool, code: int, next: int): int {
    if ok then next else code
  }

  /** The other branches stop with the code of the first check that fails, in this order; a lock that is not zero has
      a byte that is not. */
  lemma BranchCodes(env: Env, e: Evidence, inp: Bytes, inLock: Digest, out: Bytes, lock: Digest)
    requires |inp| >= 70 && |out| >= 70
    ensures var read, commits := SealCommitment(e.datum, env.stack).Some?,
                                 SealCommitment(e.datum, env.stack) == Some(env.b2b(out[70..]));
            var named, spent := out[2..34] == env.b2b(e.body), (inp[2..34], FromLE(inp[34..38])) in e.ins;
            var parked := SealAtLock(e.body, e.lock, e.policy) == Some(true);
            var pinned := lock == out[38..70] && exists i :: 0 <= i < 32 && lock[i] != 0;
            var cleared := forall i :: 38 <= i < 70 ==> out[i] == 0;
            && Genesis(env, e, out, lock)
               == Check(named, 8, Check(e.datum != [], 9, Check(read, PANIC, Check(commits, 10, Check(parked, 13,
                  Check(pinned, 45, 0))))))
            && Transition(env, e, inp, out, lock)
               == Check(named, 8, Check(e.datum != [], 9, Check(read, PANIC, Check(commits, 10, Check(spent, 12,
                  Check(pinned, 45, 0))))))
            && Finalize(e, inp)
               == Check(spent, 22, Check(SealAtLock(e.body, e.lock, e.policy) == Some(false), 23, 0))
            && LeapToCardano(env, e, inp, inLock, out)
               == Check(inLock == inp[38..70], 31, Check(inp[70..] == out[70..], 32, Check(parked, 33,
                  Check(named, 34, Check(cleared, 35,
                                         Check(e.datum != [], 48, Check(read, PANIC, Check(commits, 49, 0))))))))
  {
    hide SealCommitment, SealAtLock;
    ZeroBytes(lock);
    ZeroBytes(out[38..70]);
  }

  lemma ZeroBytes(s: Digest)
    ensures s == ZeroLock() <==> forall i :: 0 <= i < 32 ==> s[i] == 0
  {
  }

  /** And so does S5. */
  lemma LeapCodes(env: Env, e: Evidence, tx: Tx, inp: Bytes, out: Bytes, lock: Digest)
    requires |inp| >= 70 && |out| >= 70
    ensures var c, r := SealCommitment(e.datum, env.stack), SealRecipient(e.datum, env.stack);
            var named, spent := out[2..34] == env.b2b(e.body), (inp[2..34], FromLE(inp[34..38])) in e.ins;
            var parked := SealAtLock(e.body, e.lock, e.policy) == Some(true);
            var inserted := InsertsKey(tx, env.leapRegistry, env.b2b([0x03] + inp[2..38]));
            && LeapToCkb(env, e, tx, inp, out, lock)
               == Check(named, 8, Check(spent, 24, Check(parked, 25, Check(inp[70..] == out[70..], 47,
                  Check(c.Some? && r.Some?, PANIC, Check(r.Some? && |r.value| == 32, 26,
                  Check(r.Some? && c == Some(env.b2b(out[70..] + inp[2..38] + r.value)), 27,
                  Check(r == Some(out[38..70]), 28, Check(r == Some(lock), 29, Check(inserted, 50, 0))))))))))
  {
    hide SealCommitment, SealRecipient, SealAtLock, InsertsKey;
    KeyIsOfTheSeal(inp);
  }

  lemma TagExact(d: Bytes)
    ensures TagVerdict(d) == 0 <==> IsCell(d)
    ensures TagVerdict(d) == Check(|d| >= 70, 7, Check(|d| >= 70 && d[0] == 2, 43, Check(IsCell(d), 44, 0)))
  {
  }

  lemma EmptyDatum(stack: nat)
    ensures SealCommitment([], stack) == None
  {
  }

  lemma GenesisExact(env: Env, e: Evidence, out: Cell)
    requires IsCell(out.data) && out.data[1] == CKB_OWNED
    ensures Genesis(env, e, out.data, out.lock) == 0 <==> Enters(env, e, out)
  {
    hide SealCommitment, SealAtLock;
    EmptyDatum(env.stack);
  }

  lemma TransitionExact(env: Env, e: Evidence, inp: Cell, out: Cell)
    requires IsCell(inp.data) && inp.data[1] == CKB_OWNED && IsCell(out.data) && out.data[1] == CKB_OWNED
    ensures Transition(env, e, inp.data, out.data, out.lock) == 0 <==> Stays(env, e, inp, out)
  {
    hide SealCommitment, SealAtLock;
    EmptyDatum(env.stack);
  }

  lemma LeapToCkbExact(env: Env, e: Evidence, tx: Tx, inp: Cell, out: Cell)
    requires IsCell(inp.data) && inp.data[1] == CARDANO_BOUND && IsCell(out.data) && out.data[1] == CKB_OWNED
    ensures LeapToCkb(env, e, tx, inp.data, out.data, out.lock) == 0 <==> Lands(env, e, tx, inp, out)
  {
    hide SealCommitment, SealRecipient, SealAtLock, InsertsKey, Key;
    KeyIsOfTheSeal(inp.data);
  }

  lemma LeapToCardanoExact(env: Env, e: Evidence, inp: Cell, out: Cell)
    requires IsCell(inp.data) && inp.data[1] == CKB_OWNED && IsCell(out.data) && out.data[1] == CARDANO_BOUND
    ensures LeapToCardano(env, e, inp.data, inp.lock, out.data) == 0 <==> Departs(env, e, inp, out)
  {
    hide SealCommitment, SealAtLock;
    EmptyDatum(env.stack);
  }

  /** The dispatch accepts exactly the five shapes. */
  lemma DispatchExact(env: Env, e: Evidence, tx: Tx, ins: seq<Cell>, outs: seq<Cell>)
    requires |ins| <= 1 && |outs| <= 1
    ensures Dispatch(env, e, tx, ins, outs) == 0 <==> Legal(env, e, tx, ins, outs)
  {
    hide Genesis, Transition, LeapToCkb, LeapToCardano, SealAtLock, SealCommitment, SealRecipient, TagVerdict,
      InsertsKey;
    if outs != [] { TagExact(outs[0].data); }
    if ins != [] { TagExact(ins[0].data); }
    if ins == [] && outs != [] && IsCell(outs[0].data) && outs[0].data[1] == CKB_OWNED {
      GenesisExact(env, e, outs[0]);
    }
    if ins != [] && outs != [] && IsCell(ins[0].data) && IsCell(outs[0].data) {
      if ins[0].data[1] == CARDANO_BOUND {
        if outs[0].data[1] == CKB_OWNED { LeapToCkbExact(env, e, tx, ins[0], outs[0]); }
      } else if outs[0].data[1] == CKB_OWNED {
        TransitionExact(env, e, ins[0], outs[0]);
      } else {
        LeapToCardanoExact(env, e, ins[0], outs[0]);
      }
    }
  }

  /** On CKB the lock slot is the lock, on Cardano the slot is clear. */
  predicate SlotInOrder(c: Cell)
    requires |c.data| >= CELL_LEN
  {
    && (c.data[1] == CKB_OWNED ==> c.data[38..70] == c.lock)
    && (c.data[1] == CARDANO_BOUND ==> c.data[38..70] == ZeroLock())
  }

  /** What a legal group says of the cell it produces: it names the body, and has its slot in order; it rests on a
      32-byte commitment; a leap keeps the state, and any other step commits to it. */
  lemma LegalOutput(env: Env, e: Evidence, tx: Tx, ins: seq<Cell>, outs: seq<Cell>)
    requires Legal(env, e, tx, ins, outs) && outs != []
    ensures |outs| == 1 && |ins| <= 1 && IsCell(outs[0].data) && outs[0].data[2..34] == env.b2b(e.body)
    ensures SlotInOrder(outs[0])
    ensures ins != [] ==> IsCell(ins[0].data)
    ensures SealCommitment(e.datum, env.stack).Some? && |SealCommitment(e.datum, env.stack).value| == 32
    ensures if ins != [] && ins[0].data[1] != outs[0].data[1] then outs[0].data[70..] == ins[0].data[70..]
            else SealCommitment(e.datum, env.stack) == Some(env.b2b(outs[0].data[70..]))
  {
    hide SealCommitment, SealRecipient, SealAtLock, InsertsKey, Key;
  }

  /** Acceptance means one of the five shapes, on certified evidence. */
  lemma AcceptedIsLegal(env: Env, args: Bytes, tx: Tx, self: Digest)
    requires Verdict(env, args, tx, self) == 0
    ensures |Select(tx.ins, self)| <= 1 && |Select(tx.outs, self)| <= 1
    ensures CertifiedBy(env, tx, ShownProof(env, args, tx, self))
    ensures Parse(ShownBody(env, args, tx, self), env.stack).Some?
    ensures Legal(env, ShownEvidence(env, args, tx, self), tx, Select(tx.ins, self), Select(tx.outs, self))
  {
    hide ShownEvidence, ShownProof, Select, Legal, Dispatch, CertifiedBy;
    AcceptedShape(env, args, tx, self);
    hide Verdict;
    DispatchExact(env, ShownEvidence(env, args, tx, self), tx, Select(tx.ins, self), Select(tx.outs, self));
  }

  /** And every one of the five shapes is accepted when the relayer's witness carries the certified body. */
  lemma LegalIsAccepted(env: Env, args: Bytes, tx: Tx, self: Digest, p: Proof, x: Parsed)
    requires |args| >= 57 && |Select(tx.ins, self)| <= 1 && |Select(tx.outs, self)| <= 1
    requires Instances(env, tx.ins) <= 1 && Instances(env, tx.outs) <= 1
    requires Checkpoint(tx.deps, env.lckp).Agreed? && Checkpoint(tx.deps, env.lckp).height > 0
    requires GroupWitness(tx, self).Some? && GroupWitness(tx, self).value.inputType == Some(Transcode(p)) && Packable(p)
    requires Certified(env, Checkpoint(tx.deps, env.lckp).root, p) && Parse(p.body, env.stack) == Some(x)
    requires Legal(env, Evidence(args[28..], args[..28], p.body, x.ins, x.datum), tx, Select(tx.ins, self),
                   Select(tx.outs, self))
    ensures Verdict(env, args, tx, self) == 0
  {
    hide Select, Read, Transcode, Packable, Parse, Dispatch, Legal, GroupWitness, Checkpoint, Instances, SubProof,
      MasterProof;
    RoundTrip(p, []);
    assert Transcode(p) + [] == Transcode(p);
    DispatchExact(env, Evidence(args[28..], args[..28], p.body, x.ins, x.datum), tx, Select(tx.ins, self),
                  Select(tx.outs, self));
  }
}
