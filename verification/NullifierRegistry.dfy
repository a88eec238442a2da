/** The nullifier registry type script: a cell holding one sparse Merkle root. */
module NullifierRegistry {
  import opened Basics
  import opened SparseMerkle

  /** What the system calls return to the script: its args, the data of the cells of its group, the
      outpoint of the transaction's first input, and the witness of its first group input (outer
      None: no witness; inner None: no `input_type` field). */
  datatype GroupView = GroupView(
    args: Bytes,
    inputs: seq<Bytes>,
    outputs: seq<Bytes>,
    firstInput: Option<Bytes>,
    proof: Option<Option<Bytes>>)

  const WITNESS_LEN: nat := 32 + 256 * 32

  function EmptyLevel(node: Hash, h: nat): Digest
    decreases h, node
  {
    if h == 0 then ZERO else node(EmptyLevel(node, h - 1) + EmptyLevel(node, h - 1))
  }

  lemma {:induction false} EmptyLevelIsEmptyRoot(node: Hash, h: nat, none: set<Digest>)
    requires h <= 256 && none == {}
    ensures EmptyLevel(node, h) == Root(node, h, none)
  {
    if h > 0 {
      EmptyLevelIsEmptyRoot(node, h - 1, none);
      SideOfEmpty(256 - h, 0);
      SideOfEmpty(256 - h, 1);
    }
  }

  method EmptyRoot(node: Hash) returns (e: Digest)
    ensures e == EmptyLevel(node, 256)
  {
    e := ZERO;
    var d := 0;
    while d < 256
      invariant 0 <= d <= 256 && e == EmptyLevel(node, d)
    {
      e := node(e + e);
      d := d + 1;
    }
  }

  function WitnessKey(raw: Bytes): Digest
    requires |raw| >= 32
  {
    raw[..32]
  }

  function WitnessSibling(raw: Bytes, i: nat): Digest
    requires |raw| == WITNESS_LEN && i < 256
  {
    raw[32 + i * 32..64 + i * 32]
  }

  function WitnessSiblings(raw: Bytes, n: nat): (sib: seq<Digest>)
    requires |raw| == WITNESS_LEN && n <= 256
    ensures |sib| == n
    ensures forall i :: 0 <= i < n ==> sib[i] == WitnessSibling(raw, i)
    decreases n, raw
  {
    if n == 0 then [] else WitnessSiblings(raw, n - 1) + [WitnessSibling(raw, n - 1)]
  }

  function GenesisVerdict(smt: Hash, ckb: Hash, v: GroupView): int {
    if |v.outputs| > 1 then 21
    else if |v.outputs| == 0 then 22
    else if v.outputs[0] != EmptyLevel(smt, 256) then 23
    else if v.firstInput == None then 24
    else if v.args != ckb(v.firstInput.value) then 25
    else 0
  }

  function UpdateVerdict(smt: Hash, v: GroupView): int
    requires |v.inputs| > 0
  {
    if |v.inputs| > 1 then 3
    else if |v.outputs| == 0 then 4
    else if |v.outputs| > 1 then 5
    else if |v.inputs[0]| != 32 || |v.outputs[0]| != 32 then 6
    else if v.proof == None then 7
    else if v.proof.value == None then 8
    else
      var raw := v.proof.value.value;
      if |raw| != WITNESS_LEN then 9
      else
        var key, sib := WitnessKey(raw), WitnessSiblings(raw, 256);
        if FoldTo(smt, ZERO, key, sib, 256) != v.inputs[0] then 12
        else if FoldTo(smt, PRESENT, key, sib, 256) != v.outputs[0] then 13
        else 0
  }

  /** The exit code of the script. */
  function Verdict(smt: Hash, ckb: Hash, v: GroupView): int {
    if |v.args| != 32 then 20
    else if |v.inputs| == 0 then GenesisVerdict(smt, ckb, v)
    else UpdateVerdict(smt, v)
  }

  method ProgramEntry(smt: Hash, ckb: Hash, v: GroupView) returns (code: int)
    ensures code == Verdict(smt, ckb, v)
  {
    if |v.args| != 32 { return 20; }
    if |v.inputs| == 0 {
      if |v.outputs| > 1 { return 21; }
      if |v.outputs| == 0 { return 22; }
      var empty := EmptyRoot(smt);
      if |v.outputs[0]| != 32 || v.outputs[0] != empty { return 23; }
      if v.firstInput == None { return 24; }
      var expected := ckb(v.firstInput.value);
      if v.args != expected { return 25; }
      return 0;
    }
    if |v.inputs| > 1 { return 3; }
    if |v.outputs| == 0 { return 4; }
    if |v.outputs| > 1 { return 5; }
    if |v.inputs[0]| != 32 || |v.outputs[0]| != 32 { return 6; }
    if v.proof == None { return 7; }
    if v.proof.value == None { return 8; }
    var raw := v.proof.value.value;
    if |raw| != WITNESS_LEN { return 9; }
    var key := WitnessKey(raw);
    var sib := new Digest[256](_ => ZERO);
    var i := 0;
    while i < 256
      invariant 0 <= i <= 256
      invariant sib[..i] == WitnessSiblings(raw, i)
    {
      sib[i] := raw[32 + i * 32..32 + i * 32 + 32];
      i := i + 1;
    }
    assert sib[..] == WitnessSiblings(raw, 256);
    var before := Fold(smt, ZERO, key, sib[..]);
    if before != v.inputs[0] { return 12; }
    var after := Fold(smt, PRESENT, key, sib[..]);
    if after != v.outputs[0] { return 13; }
    return 0;
  }

  /** An accepted spend of the registry cell. */
  predicate AcceptsUpdate(smt: Hash, ckb: Hash, v: GroupView) {
    |v.inputs| > 0 && Verdict(smt, ckb, v) == 0
  }

  function KeyOf(smt: Hash, ckb: Hash, v: GroupView): Digest
    requires AcceptsUpdate(smt, ckb, v)
  {
    WitnessKey(v.proof.value.value)
  }

  function SiblingsOf(smt: Hash, ckb: Hash, v: GroupView): (sib: seq<Digest>)
    requires AcceptsUpdate(smt, ckb, v)
    ensures |sib| == 256
  {
    WitnessSiblings(v.proof.value.value, 256)
  }

  /** What acceptance means when the spent cell commits to `keys`: the key is new, and the produced
      cell commits to `keys` and it, whatever the witness holds. */
  lemma AcceptedUpdate(smt: Hash, ckb: Hash, v: GroupView, keys: set<Digest>)
    requires AcceptsUpdate(smt, ckb, v) && v.inputs[0] == Root(smt, 256, keys)
    ensures var key := KeyOf(smt, ckb, v);
            || (key !in keys && v.outputs == [Root(smt, 256, keys + {key})])
            || Collides(smt, PathInputs(smt, 256, keys, key, SiblingsOf(smt, ckb, v)))
  {
    var key, sib := KeyOf(smt, ckb, v), SiblingsOf(smt, ckb, v);
    assert v.outputs == [v.outputs[0]] && Inserts(smt, key, sib, v.inputs[0], v.outputs[0]);
    InsertionExact(smt, 256, keys, key, sib, v.outputs[0]);
    SameLeafIsSameKey(key, key);
  }

  // ---- every run of one registry cell ----

  /** The group views of the transactions that created and then kept spending one registry cell. */
  ghost predicate Lineage(smt: Hash, ckb: Hash, views: seq<GroupView>) {
    && |views| > 0
    && |views[0].inputs| == 0
    && Verdict(smt, ckb, views[0]) == 0
    && (forall i :: 0 < i < |views| ==>
          AcceptsUpdate(smt, ckb, views[i]) && views[i].inputs == views[i - 1].outputs)
  }

  lemma LineagePrefix(smt: Hash, ckb: Hash, views: seq<GroupView>)
    requires Lineage(smt, ckb, views) && |views| > 1
    ensures Lineage(smt, ckb, views[..|views| - 1])
  {
  }

  /** The keys inserted, in order. */
  ghost function InsertedKeys(smt: Hash, ckb: Hash, views: seq<GroupView>): (keys: seq<Digest>)
    requires Lineage(smt, ckb, views)
    ensures |keys| == |views| - 1
  {
    if |views| == 1 then [] else
      LineagePrefix(smt, ckb, views);
      InsertedKeys(smt, ckb, views[..|views| - 1]) + [KeyOf(smt, ckb, views[|views| - 1])]
  }

  /** Every input hashed by the trees and the supplied paths of the run. */
  ghost function LineageInputs(smt: Hash, ckb: Hash, views: seq<GroupView>): set<Bytes>
    requires Lineage(smt, ckb, views)
  {
    if |views| == 1 then {} else
      LineagePrefix(smt, ckb, views);
      LineageInputs(smt, ckb, views[..|views| - 1])
      + PathInputs(smt, 256, Elements(InsertedKeys(smt, ckb, views[..|views| - 1])),
                   KeyOf(smt, ckb, views[|views| - 1]), SiblingsOf(smt, ckb, views[|views| - 1]))
  }

  /** The produced cell commits to exactly the keys inserted so far, and none was inserted twice. */
  ghost predicate StoresKeys(smt: Hash, ckb: Hash, views: seq<GroupView>)
    requires Lineage(smt, ckb, views)
  {
    && Distinct(InsertedKeys(smt, ckb, views))
    && views[|views| - 1].outputs == [Root(smt, 256, Elements(InsertedKeys(smt, ckb, views)))]
  }

  /** A creation passes exactly when it makes one cell with the empty root, named after the first input. */
  lemma GenesisExact(smt: Hash, ckb: Hash, v: GroupView, none: set<Digest>)
    requires |v.inputs| == 0 && none == {}
    ensures Verdict(smt, ckb, v) == 0 <==>
              && |v.args| == 32 && v.outputs == [Root(smt, 256, none)]
              && v.firstInput.Some? && v.args == ckb(v.firstInput.value)
  {
    EmptyLevelIsEmptyRoot(smt, 256, none);
    hide EmptyLevel, Root, UpdateVerdict;
    assert |v.outputs| == 1 ==> v.outputs == [v.outputs[0]];
  }

  lemma UpdateStoresKey(smt: Hash, ckb: Hash, views: seq<GroupView>)
    requires Lineage(smt, ckb, views) && |views| > 1 && Lineage(smt, ckb, views[..|views| - 1])
    requires StoresKeys(smt, ckb, views[..|views| - 1])
    ensures StoresKeys(smt, ckb, views) || Collides(smt, LineageInputs(smt, ckb, views))
  {
    hide PathInputs, Root, Verdict;
    var n := |views| - 1;
    var keys, view := InsertedKeys(smt, ckb, views[..n]), views[n];
    var key := KeyOf(smt, ckb, view);
    var path := PathInputs(smt, 256, Elements(keys), key, SiblingsOf(smt, ckb, view));
    assert InsertedKeys(smt, ckb, views) == keys + [key];
    assert Elements(keys + [key]) == Elements(keys) + {key};
    assert view.inputs[0] == Root(smt, 256, Elements(keys));
    AcceptedUpdate(smt, ckb, view, Elements(keys));
    if Collides(smt, path) {
      CollidesMonotone(smt, path, LineageInputs(smt, ckb, views));
    }
  }

  /** Over any run, the stored root is the root of exactly the keys inserted, and none twice. */
  lemma {:induction false} RegistryRefinesSet(smt: Hash, ckb: Hash, views: seq<GroupView>)
    requires Lineage(smt, ckb, views)
    ensures StoresKeys(smt, ckb, views) || Collides(smt, LineageInputs(smt, ckb, views))
  {
    if |views| == 1 {
      assert StoresKeys(smt, ckb, views) by {
        GenesisExact(smt, ckb, views[0], Elements(InsertedKeys(smt, ckb, views)));
        assert Elements(InsertedKeys(smt, ckb, views)) == {};
      }
    } else {
      LineagePrefix(smt, ckb, views);
      var before := views[..|views| - 1];
      RegistryRefinesSet(smt, ckb, before);
      if StoresKeys(smt, ckb, before) {
        UpdateStoresKey(smt, ckb, views);
      } else {
        CollidesMonotone(smt, LineageInputs(smt, ckb, before), LineageInputs(smt, ckb, views));
      }
    }
  }

  /** Runs that inserted the same keys, in any order and with any witnesses, store the same root. */
  lemma OrderDoesNotMatter(smt: Hash, ckb: Hash, one: seq<GroupView>, other: seq<GroupView>)
    requires Lineage(smt, ckb, one) && Lineage(smt, ckb, other)
    requires Elements(InsertedKeys(smt, ckb, one)) == Elements(InsertedKeys(smt, ckb, other))
    ensures || one[|one| - 1].outputs == other[|other| - 1].outputs
            || Collides(smt, LineageInputs(smt, ckb, one))
            || Collides(smt, LineageInputs(smt, ckb, other))
  {
    RegistryRefinesSet(smt, ckb, one);
    RegistryRefinesSet(smt, ckb, other);
  }
}
