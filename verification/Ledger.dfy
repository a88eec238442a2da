/** Cells, transactions and runs of the CKB ledger, and the scans that the scripts make. */
module Ledger {
  import opened Basics

  /** A cell with the hashes of its lock and of its optional type script. */
  datatype Cell = Cell(lock: Digest, typ: Option<Digest>, data: Bytes)

  datatype WitnessArgs = WitnessArgs(lock: Option<Bytes>, inputType: Option<Bytes>)

  /** A resolved transaction: outpoints and cells of the inputs, outpoints and cells of the outputs, the
      cells of its dependencies, and its witnesses (None: not a WitnessArgs). */
  datatype Tx = Tx(
    ops: seq<Bytes>, ins: seq<Cell>,
    outOps: seq<Bytes>, outs: seq<Cell>,
    deps: seq<Cell>, wits: seq<Option<WitnessArgs>>)

  /** `created` holds every outpoint that was ever live. */
  datatype State = State(live: map<Bytes, Cell>, created: set<Bytes>)

  /** The ledger's own rules: inputs are different live cells, output outpoints are new. */
  ghost predicate CanApply(s: State, tx: Tx) {
    && |tx.ops| == |tx.ins| && |tx.outOps| == |tx.outs| && tx.ops != []
    && Distinct(tx.ops) && Distinct(tx.outOps)
    && (forall k :: 0 <= k < |tx.ops| ==> tx.ops[k] in s.live && s.live[tx.ops[k]] == tx.ins[k])
    && (forall k :: 0 <= k < |tx.outOps| ==> tx.outOps[k] !in s.created)
  }

  ghost predicate WfState(s: State) {
    s.live.Keys <= s.created
  }

  /** The live map after adding outputs k.. to `live`. */
  ghost function AddOutputs(live: map<Bytes, Cell>, ops: seq<Bytes>, cells: seq<Cell>): map<Bytes, Cell>
    requires |ops| == |cells|
    decreases |ops|
  {
    if ops == [] then live else AddOutputs(live[ops[0] := cells[0]], ops[1..], cells[1..])
  }

  ghost function RemoveInputs(live: map<Bytes, Cell>, ops: seq<Bytes>): map<Bytes, Cell> {
    if ops == [] then live else RemoveInputs(live - {ops[0]}, ops[1..])
  }

  ghost function Apply(s: State, tx: Tx): State
    requires |tx.outOps| == |tx.outs|
  {
    State(AddOutputs(RemoveInputs(s.live, tx.ops), tx.outOps, tx.outs), s.created + Elements(tx.outOps))
  }

  lemma {:induction false} RemoveInputsIs(live: map<Bytes, Cell>, ops: seq<Bytes>)
    ensures RemoveInputs(live, ops) == map p | p in live && p !in ops :: live[p]
  {
    if ops == [] {
      assert live == map p | p in live && p !in ops :: live[p];
    } else {
      RemoveInputsIs(live - {ops[0]}, ops[1..]);
      assert forall p :: p in ops <==> p == ops[0] || p in ops[1..];
    }
  }

  lemma {:induction false} AddOutputsIs(live: map<Bytes, Cell>, ops: seq<Bytes>, cells: seq<Cell>)
    requires |ops| == |cells| && Distinct(ops)
    ensures AddOutputs(live, ops, cells).Keys == live.Keys + Elements(ops)
    ensures forall p :: p in live && p !in ops ==> AddOutputs(live, ops, cells)[p] == live[p]
    ensures forall k :: 0 <= k < |ops| ==> AddOutputs(live, ops, cells)[ops[k]] == cells[k]
    decreases |ops|
  {
    if ops != [] {
      AddOutputsIs(live[ops[0] := cells[0]], ops[1..], cells[1..]);
      assert ops[0] !in ops[1..];
      assert forall p :: p in ops <==> p == ops[0] || p in ops[1..];
    }
  }

  /** What a transaction does to the live cells. */
  lemma ApplyIs(s: State, tx: Tx)
    requires WfState(s) && CanApply(s, tx)
    ensures var t := Apply(s, tx);
            && WfState(t)
            && t.created == s.created + Elements(tx.outOps)
            && (forall p :: p in t.live <==> (p in s.live && p !in tx.ops) || p in tx.outOps)
            && (forall p :: p in s.live && p !in tx.ops ==> t.live[p] == s.live[p])
            && (forall k :: 0 <= k < |tx.outOps| ==> t.live[tx.outOps[k]] == tx.outs[k])
  {
    RemoveInputsIs(s.live, tx.ops);
    AddOutputsIs(RemoveInputs(s.live, tx.ops), tx.outOps, tx.outs);
  }

  // ---- scans ----

  /** The cells of `cells` with type hash `th`: a type group. */
  function Select(cells: seq<Cell>, th: Digest): (r: seq<Cell>)
    ensures forall c :: c in r <==> c in cells && c.typ == Some(th)
  {
    if cells == [] then []
    else if cells[0].typ == Some(th) then [cells[0]] + Select(cells[1..], th)
    else Select(cells[1..], th)
  }

  lemma {:induction false} SelectOne(cells: seq<Cell>, th: Digest)
    ensures |Select(cells, th)| == 1 ==>
              exists k :: 0 <= k < |cells| && cells[k].typ == Some(th) && Select(cells, th) == [cells[k]]
                          && forall j :: 0 <= j < |cells| && cells[j].typ == Some(th) ==> j == k
  {
    if cells != [] {
      SelectOne(cells[1..], th);
      if |Select(cells, th)| == 1 {
        if cells[0].typ == Some(th) {
          assert Select(cells[1..], th) == [];
          forall j | 0 < j < |cells|
            ensures cells[j].typ != Some(th)
          {
            assert cells[1..][j - 1] in cells[1..];
            assert cells[1..][j - 1] !in Select(cells[1..], th);
          }
        } else {
          var k :| 0 <= k < |cells[1..]| && cells[1..][k].typ == Some(th) && Select(cells[1..], th) == [cells[1..][k]]
                   && forall j :: 0 <= j < |cells[1..]| && cells[1..][j].typ == Some(th) ==> j == k;
          forall j | 0 <= j < |cells| && cells[j].typ == Some(th)
            ensures j == k + 1
          {
            assert cells[1..][j - 1] == cells[j];
          }
          assert cells[k + 1] == cells[1..][k];
        }
      }
    }
  }

  /** A transaction runs the types of its inputs and outputs. */
  predicate Touches(tx: Tx, th: Digest) {
    Select(tx.ins, th) != [] || Select(tx.outs, th) != []
  }

  /** The cells with lock hash `lh`: a lock group. */
  function SelectLock(cells: seq<Cell>, lh: Digest): seq<Cell> {
    if cells == [] then []
    else if cells[0].lock == lh then [cells[0]] + SelectLock(cells[1..], lh)
    else SelectLock(cells[1..], lh)
  }

  /** The index of the first cell of type `th`, or the number of cells. */
  function FirstOf(cells: seq<Cell>, th: Digest): (i: nat)
    ensures i <= |cells|
    ensures i < |cells| <==> exists c :: c in cells && c.typ == Some(th)
    ensures i < |cells| ==> cells[i].typ == Some(th)
  {
    if cells == [] then 0
    else if cells[0].typ == Some(th) then 0
    else 1 + FirstOf(cells[1..], th)
  }

  function FirstLock(cells: seq<Cell>, lh: Digest): (i: nat)
    ensures i <= |cells|
  {
    if cells == [] || cells[0].lock == lh then 0 else 1 + FirstLock(cells[1..], lh)
  }

  function Datas(cells: seq<Cell>): (r: seq<Bytes>)
    ensures |r| == |cells| && forall k :: 0 <= k < |r| ==> r[k] == cells[k].data
  {
    seq(|cells|, k requires 0 <= k < |cells| => cells[k].data)
  }

  /** `load_witness_args(i, ...)`. */
  function WitnessAt(tx: Tx, i: nat): Option<WitnessArgs> {
    if i < |tx.wits| then tx.wits[i] else None
  }

  /** `load_witness_args(0, GroupInput)`, or of the first group output when the group has no input. */
  function GroupWitness(tx: Tx, th: Digest): Option<WitnessArgs> {
    var i := FirstOf(tx.ins, th);
    var fromInput := if i < |tx.ins| then WitnessAt(tx, i) else None;
    if fromInput.Some? then fromInput
    else
      var o := FirstOf(tx.outs, th);
      if o < |tx.outs| then WitnessAt(tx, o) else None
  }

  /** `registry_inserts_key`: the first input of the registry's type reveals exactly this key. */
  predicate InsertsKey(tx: Tx, reg: Digest, key: Digest) {
    var i := FirstOf(tx.ins, reg);
    && i < |tx.ins|
    && WitnessAt(tx, i).Some?
    && WitnessAt(tx, i).value.inputType.Some?
    && var d := WitnessAt(tx, i).value.inputType.value;
       |d| >= 32 && d[..32] == key
  }

  /** The loop of `registry_inserts_key`. */
  method RegistryInsertsKey(tx: Tx, reg: Digest, key: Digest) returns (ok: bool)
    ensures ok <==> InsertsKey(tx, reg, key)
  {
    var i := 0;
    while i < |tx.ins|
      invariant 0 <= i <= |tx.ins|
      invariant FirstOf(tx.ins, reg) == i + FirstOf(tx.ins[i..], reg)
    {
      if tx.ins[i].typ == Some(reg) {
        var w := WitnessAt(tx, i);
        if w.Some? && w.value.inputType.Some? {
          var d := w.value.inputType.value;
          return |d| >= 32 && d[..32] == key;
        }
        return false;
      }
      i := i + 1;
    }
    return false;
  }

  /** Token amounts: the first 16 bytes of the data, little-endian; None on short data or overflow. */
  function SumAmounts(cells: seq<Cell>): (r: Option<nat>)
    ensures r.Some? ==> r.value < U128
  {
    if cells == [] then Some(0)
    else
      var init :- SumAmounts(cells[..|cells| - 1]);
      var d := cells[|cells| - 1].data;
      if |d| < 16 || init + FromLE(d[..16]) >= U128 then None else Some(init + FromLE(d[..16]))
  }

  /** `sum_group` over a type group. */
  method SumGroup(cells: seq<Cell>) returns (r: Option<nat>)
    ensures r == SumAmounts(cells)
  {
    var sum: nat, i := 0, 0;
    while i < |cells|
      invariant 0 <= i <= |cells| && SumAmounts(cells[..i]) == Some(sum)
    {
      assert cells[..i + 1][..i] == cells[..i];
      var d := cells[i].data;
      if |d| < 16 || sum + FromLE(d[..16]) >= U128 {
        SumFails(cells, i + 1);
        return None;
      }
      sum := sum + FromLE(d[..16]);
      i := i + 1;
    }
    assert cells[..i] == cells;
    return Some(sum);
  }

  lemma {:induction false} SumFails(cells: seq<Cell>, i: nat)
    requires i <= |cells| && SumAmounts(cells[..i]) == None
    ensures SumAmounts(cells) == None
    decreases |cells|
  {
    if i == |cells| {
      assert cells[..i] == cells;
    } else {
      assert cells[..|cells| - 1][..i] == cells[..i];
      SumFails(cells[..|cells| - 1], i);
    }
  }

  lemma SumOneMore(cells: seq<Cell>, c: Cell)
    requires SumAmounts(cells).Some?
    ensures SumAmounts(cells + [c])
            == if |c.data| < 16 || SumAmounts(cells).value + FromLE(c.data[..16]) >= U128 then None
               else Some(SumAmounts(cells).value + FromLE(c.data[..16]))
  {
    hide FromLE;
    assert (cells + [c])[..|cells|] == cells && (cells + [c])[|cells|] == c;
  }

  /** `outputs_all_at`: every output of the group is locked at the recipient, which is not all zero. */
  predicate AllAt(outs: seq<Cell>, recipient: Bytes) {
    forall c :: c in outs ==> c.lock == recipient && c.lock != seq(32, i => 0)
  }

  method OutputsAllAt(outs: seq<Cell>, recipient: Bytes) returns (ok: bool)
    ensures ok <==> AllAt(outs, recipient)
  {
    var i := 0;
    while i < |outs|
      invariant 0 <= i <= |outs|
      invariant forall k :: 0 <= k < i ==> outs[k].lock == recipient && outs[k].lock != seq(32, i => 0)
    {
      if outs[i].lock == seq(32, i => 0) { assert outs[i] in outs; return false; }
      if outs[i].lock != recipient { assert outs[i] in outs; return false; }
      i := i + 1;
    }
    return true;
  }

  // ---- the authenticated checkpoint ----

  const LCKP: Bytes := [0x4c, 0x43, 0x4b, 0x50]

  /** "LCKP", a 32-byte transaction-set root and an 8-byte height. */
  function CheckpointOf(c: Cell, lckp: Digest): Option<(Bytes, nat)> {
    if c.typ == Some(lckp) && |c.data| >= 44 && c.data[..4] == LCKP then Some((c.data[4..36], FromLE(c.data[36..44])))
    else None
  }

  datatype Scan = Nothing | Agreed(root: Bytes, height: nat) | Conflict

  function Merge(found: Scan, c: Option<(Bytes, nat)>): Scan {
    match (found, c)
    case (_, None) => found
    case (Nothing, Some(r)) => Agreed(r.0, r.1)
    case (Agreed(root, height), Some(r)) => if r == (root, height) then found else Conflict
    case (Conflict, _) => Conflict
  }

  function ScanDeps(deps: seq<Cell>, lckp: Digest, n: nat): Scan
    requires n <= |deps|
  {
    if n == 0 then Nothing else Merge(ScanDeps(deps, lckp, n - 1), CheckpointOf(deps[n - 1], lckp))
  }

  /** `checkpoint_root`: the first 65 dependencies are looked at. */
  function Checkpoint(deps: seq<Cell>, lckp: Digest): Scan {
    ScanDeps(deps, lckp, if |deps| < 65 then |deps| else 65)
  }

  method CheckpointRoot(deps: seq<Cell>, lckp: Digest) returns (r: Scan)
    ensures r == Checkpoint(deps, lckp)
  {
    var found, i := Nothing, 0;
    while i < |deps| && i <= 64
      invariant 0 <= i <= |deps| && i <= 65 && found == ScanDeps(deps, lckp, i) && found != Conflict
    {
      found := Merge(found, CheckpointOf(deps[i], lckp));
      if found == Conflict {
        ConflictStays(deps, lckp, i + 1, if |deps| < 65 then |deps| else 65);
        return Conflict;
      }
      i := i + 1;
    }
    return found;
  }

  lemma {:induction false} ConflictStays(deps: seq<Cell>, lckp: Digest, m: nat, n: nat)
    requires m <= n <= |deps| && ScanDeps(deps, lckp, m) == Conflict
    ensures ScanDeps(deps, lckp, n) == Conflict
    decreases n
  {
    if m < n {
      ConflictStays(deps, lckp, m, n - 1);
    }
  }

  /** A usable checkpoint is the only one: every trusted dependency looked at says the same. */
  lemma {:induction false} CheckpointUnanimous(deps: seq<Cell>, lckp: Digest, n: nat, k: nat)
    requires k < n <= |deps| && ScanDeps(deps, lckp, n).Agreed? && CheckpointOf(deps[k], lckp).Some?
    ensures CheckpointOf(deps[k], lckp)
            == Some((ScanDeps(deps, lckp, n).root, ScanDeps(deps, lckp, n).height))
    decreases n
  {
    if k < n - 1 {
      if ScanDeps(deps, lckp, n - 1) == Nothing {
        NothingSeen(deps, lckp, n - 1, k);
      }
      CheckpointUnanimous(deps, lckp, n - 1, k);
    }
  }

  lemma {:induction false} NothingSeen(deps: seq<Cell>, lckp: Digest, n: nat, k: nat)
    requires k < n <= |deps| && ScanDeps(deps, lckp, n) == Nothing
    ensures CheckpointOf(deps[k], lckp) == None
    decreases n
  {
    if k < n - 1 {
      NothingSeen(deps, lckp, n - 1, k);
    }
  }
}
