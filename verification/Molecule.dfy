/** The relayer's serialization of a CKB transaction (Nervos RFC 0008) and the offset walk over it. */
module Molecule {
  import opened Basics

  datatype Script = Script(codeHash: Digest, hashType: Byte, args: Bytes)
  datatype OutPoint = OutPoint(txHash: Digest, index: nat)
  datatype CellDep = CellDep(outPoint: OutPoint, depType: Byte)
  datatype CellInput = CellInput(since: nat, previous: OutPoint)
  datatype CellOutput = CellOutput(capacity: nat, lock: Script, typ: Option<Script>)
  datatype RawTx = RawTx(
    version: nat, cellDeps: seq<CellDep>, headerDeps: seq<Digest>,
    inputs: seq<CellInput>, outputs: seq<CellOutput>, outputsData: seq<Bytes>)

  // ---- vectors ----

  function FixVec(items: seq<Bytes>): Bytes {
    LE(|items|, 4) + Concat(items)
  }

  /** Where item k of a dynvec starts; for k == |items|, the size of the whole. */
  function Offset(items: seq<Bytes>, k: nat): (o: nat)
    requires k <= |items|
    decreases k, items
  {
    if k == 0 then 4 + 4 * |items| else Offset(items, k - 1) + |items[k - 1]|
  }

  /** The first k entries of the offset table. */
  function OffsetTable(items: seq<Bytes>, k: nat): (b: Bytes)
    requires k <= |items|
    ensures |b| == 4 * k
    decreases k, items
  {
    if k == 0 then [] else OffsetTable(items, k - 1) + LE(Offset(items, k - 1), 4)
  }

  function DynVec(items: seq<Bytes>): Bytes {
    LE(Offset(items, |items|), 4) + (OffsetTable(items, |items|) + Concat(items))
  }

  method Dynvec(items: seq<Bytes>) returns (b: Bytes)
    ensures b == DynVec(items)
  {
    var off: nat, offs: seq<nat> := 4 + 4 * |items|, [];
    var i := 0;
    while i < |items|
      invariant 0 <= i <= |items| && |offs| == i && off == Offset(items, i)
      invariant forall k :: 0 <= k < i ==> offs[k] == Offset(items, k)
    {
      offs := offs + [off];
      off := off + |items[i]|;
      i := i + 1;
    }
    var table: Bytes, j := [], 0;
    while j < |offs|
      invariant 0 <= j <= |offs| && table == OffsetTable(items, j)
    {
      table := table + LE(offs[j], 4);
      j := j + 1;
    }
    b := LE(off, 4) + table + Concat(items);
    assert b == LE(off, 4) + (table + Concat(items));
  }

  // ---- the builders ----

  function MolBytes(b: Bytes): Bytes {
    LE(|b|, 4) + b
  }

  function ScriptFields(s: Script): seq<Bytes> {
    [s.codeHash, [s.hashType], MolBytes(s.args)]
  }

  function ScriptMol(s: Script): Bytes {
    DynVec(ScriptFields(s))
  }

  function ScriptOrNone(s: Option<Script>): Bytes {
    match s case None => [] case Some(x) => ScriptMol(x)
  }

  function OutPointMol(o: OutPoint): (b: Bytes)
    ensures |b| == 36
  {
    o.txHash + LE(o.index, 4)
  }

  function CellInputMol(i: CellInput): (b: Bytes)
    ensures |b| == 44
  {
    LE(i.since, 8) + OutPointMol(i.previous)
  }

  function CellDepMol(d: CellDep): (b: Bytes)
    ensures |b| == 37
  {
    OutPointMol(d.outPoint) + [d.depType]
  }

  function OutputFields(o: CellOutput): seq<Bytes> {
    [LE(o.capacity, 8), ScriptMol(o.lock), ScriptOrNone(o.typ)]
  }

  function CellOutputMol(o: CellOutput): Bytes {
    DynVec(OutputFields(o))
  }

  function DepMols(ds: seq<CellDep>): (r: seq<Bytes>)
    ensures |r| == |ds| && forall k :: 0 <= k < |r| ==> r[k] == CellDepMol(ds[k])
  {
    seq(|ds|, k requires 0 <= k < |ds| => CellDepMol(ds[k]))
  }

  function InputMols(xs: seq<CellInput>): (r: seq<Bytes>)
    ensures |r| == |xs| && forall k :: 0 <= k < |r| ==> r[k] == CellInputMol(xs[k])
  {
    seq(|xs|, k requires 0 <= k < |xs| => CellInputMol(xs[k]))
  }

  function OutputMols(os: seq<CellOutput>): (r: seq<Bytes>)
    ensures |r| == |os| && forall k :: 0 <= k < |r| ==> r[k] == CellOutputMol(os[k])
  {
    seq(|os|, k requires 0 <= k < |os| => CellOutputMol(os[k]))
  }

  function DataMols(ds: seq<Bytes>): (r: seq<Bytes>)
    ensures |r| == |ds| && forall k :: 0 <= k < |r| ==> r[k] == MolBytes(ds[k])
  {
    seq(|ds|, k requires 0 <= k < |ds| => MolBytes(ds[k]))
  }

  function RawTxFields(t: RawTx): seq<Bytes> {
    [LE(t.version, 4), FixVec(DepMols(t.cellDeps)), FixVec(t.headerDeps), FixVec(InputMols(t.inputs)),
     DynVec(OutputMols(t.outputs)), DynVec(DataMols(t.outputsData))]
  }

  /** `raw_tx_molecule`. */
  function RawTxMol(t: RawTx): Bytes {
    DynVec(RawTxFields(t))
  }

  // ---- the offset walk ----

  /** `int.from_bytes(b[i:i+4], "little")`: a slice is cut at the end. */
  function U32le(b: Bytes, i: nat): nat {
    if i + 4 <= |b| then FromLE(b[i..i + 4]) else if i <= |b| then FromLE(b[i..]) else 0
  }

  function FieldOff(b: Bytes, i: nat): nat {
    U32le(b, 4 + 4 * i)
  }

  function CellOutOff(b: Bytes): nat {
    FieldOff(b, 4) + U32le(b, FieldOff(b, 4) + 4)
  }

  function TypeOff(b: Bytes): nat {
    CellOutOff(b) + U32le(b, CellOutOff(b) + 12)
  }

  function TypeCodeOff(b: Bytes): nat {
    TypeOff(b) + U32le(b, TypeOff(b) + 4)
  }

  function DataOff(b: Bytes): nat {
    FieldOff(b, 5) + U32le(b, FieldOff(b, 5) + 4) + 4
  }

  // ---- the layout of a dynvec ----

  function SumLen(items: seq<Bytes>, k: nat): nat
    requires k <= |items|
    decreases k, items
  {
    if k == 0 then 0 else SumLen(items, k - 1) + |items[k - 1]|
  }

  lemma {:induction false} OffsetIs(items: seq<Bytes>, k: nat)
    requires k <= |items|
    ensures Offset(items, k) == 4 + 4 * |items| + SumLen(items, k)
  {
    if k > 0 {
      OffsetIs(items, k - 1);
    }
  }

  lemma {:induction false} SumLenTail(items: seq<Bytes>, k: nat)
    requires 0 < k <= |items|
    ensures SumLen(items, k) == |items[0]| + SumLen(items[1..], k - 1)
  {
    if k > 1 {
      SumLenTail(items, k - 1);
    }
  }

  lemma {:induction false} ConcatLen(items: seq<Bytes>)
    ensures |Concat(items)| == SumLen(items, |items|)
  {
    if items != [] {
      ConcatLen(items[1..]);
      SumLenTail(items, |items|);
    }
  }

  lemma {:induction false} SumLenMono(items: seq<Bytes>, k: nat, n: nat)
    requires k <= n <= |items|
    ensures SumLen(items, k) <= SumLen(items, n)
    decreases n
  {
    if k < n {
      SumLenMono(items, k, n - 1);
    }
  }

  /** Item k of a concatenation. */
  lemma {:induction false} ConcatItem(b: Bytes, i: nat, items: seq<Bytes>, k: nat)
    requires k < |items| && At(b, i, Concat(items))
    ensures At(b, i + SumLen(items, k), items[k])
    decreases k, items
  {
    AtSplit(b, i, items[0], Concat(items[1..]));
    if k > 0 {
      ConcatItem(b, i + |items[0]|, items[1..], k - 1);
      SumLenTail(items, k);
    }
  }

  lemma {:induction false} TableEntry(b: Bytes, i: nat, items: seq<Bytes>, n: nat, k: nat)
    requires k < n <= |items| && At(b, i, OffsetTable(items, n))
    ensures At(b, i + 4 * k, LE(Offset(items, k), 4))
    decreases n, items
  {
    AtSplit(b, i, OffsetTable(items, n - 1), LE(Offset(items, n - 1), 4));
    if k < n - 1 {
      TableEntry(b, i, items, n - 1, k);
    }
  }

  lemma DynVecLen(items: seq<Bytes>)
    ensures |DynVec(items)| == Offset(items, |items|)
  {
    ConcatLen(items);
    OffsetIs(items, |items|);
  }

  lemma Pow32()
    ensures Pow256(4) == U32 && Pow256(8) == U64
  {
    assert Pow256(8) == 256 * (256 * (256 * (256 * Pow256(4))));
  }

  lemma U32leAt(b: Bytes, i: nat, n: nat)
    requires n < U32 && At(b, i, LE(n, 4))
    ensures U32le(b, i) == n
  {
    Pow32();
    FromLEOfLE(n, 4);
  }

  lemma DynLayout(items: seq<Bytes>)
    ensures DynVec(items) == LE(Offset(items, |items|), 4) + (OffsetTable(items, |items|) + Concat(items))
  {
  }

  lemma DynParts(b: Bytes, i: nat, items: seq<Bytes>)
    requires At(b, i, DynVec(items))
    ensures At(b, i + 4, OffsetTable(items, |items|)) && At(b, i + 4 + 4 * |items|, Concat(items))
  {
    hide At, DynVec, LE, OffsetTable, Concat, Offset;
    DynLayout(items);
    assert At(b, i + 4, OffsetTable(items, |items|)) && At(b, i + 4 + 4 * |items|, Concat(items)) by {
      hide At;
      AtSplit(b, i, LE(Offset(items, |items|), 4), OffsetTable(items, |items|) + Concat(items));
      AtSplit(b, i + 4, OffsetTable(items, |items|), Concat(items));
    }
  }

  lemma OffsetsBounded(items: seq<Bytes>, k: nat)
    requires k < |items|
    ensures Offset(items, k) == 4 + 4 * |items| + SumLen(items, k)
    ensures Offset(items, k) + |items[k]| <= |DynVec(items)| && |items[k]| < |DynVec(items)|
  {
    hide DynVec, Offset, SumLen;
    DynVecLen(items);
    OffsetIs(items, k);
    OffsetIs(items, |items|);
    SumLenNext(items, k);
    SumLenMono(items, k + 1, |items|);
    var s: nat, t: nat, u: nat, l: nat, n: nat := SumLen(items, k), SumLen(items, k + 1), SumLen(items, |items|),
        |items[k]|, |items|;
    assert Offset(items, k) + l <= |DynVec(items)| && l < |DynVec(items)|;
  }

  lemma SumLenNext(items: seq<Bytes>, k: nat)
    requires k < |items|
    ensures SumLen(items, k + 1) == SumLen(items, k) + |items[k]|
  {
  }

  /** Entry k of the table points at item k. */
  lemma DynField(b: Bytes, i: nat, items: seq<Bytes>, k: nat)
    requires At(b, i, DynVec(items)) && |DynVec(items)| < U32 && k < |items|
    ensures U32le(b, i + 4 + 4 * k) == Offset(items, k)
    ensures At(b, i + Offset(items, k), items[k])
    ensures |items[k]| < |DynVec(items)|
  {
    hide At, U32le, LE, DynVec, OffsetTable, Concat, SumLen, Offset;
    OffsetsBounded(items, k);
    DynParts(b, i, items);
    TableEntry(b, i + 4, items, |items|, k);
    U32leAt(b, i + 4 + 4 * k, Offset(items, k));
    ConcatItem(b, i + 4 + 4 * |items|, items, k);
  }

  // ---- the walk inverts the builder ----

  /** The walk finds the first output. */
  lemma FirstOutputAt(t: RawTx)
    requires |RawTxMol(t)| < U32 && t.outputs != []
    ensures At(RawTxMol(t), CellOutOff(RawTxMol(t)), CellOutputMol(t.outputs[0]))
    ensures |CellOutputMol(t.outputs[0])| < U32
  {
    hide At, DynVec, FixVec, LE, U32le;
    var b := RawTxMol(t);
    AtWhole(b);
    DynField(b, 0, RawTxFields(t), 4);
    DynField(b, FieldOff(b, 4), OutputMols(t.outputs), 0);
  }

  /** The walk lands on the type script's code hash of output 0 and on its data. */
  lemma OffsetWalk(t: RawTx)
    requires |RawTxMol(t)| < U32 && t.outputs != [] && t.outputs[0].typ.Some? && t.outputsData != []
    ensures At(RawTxMol(t), TypeCodeOff(RawTxMol(t)), t.outputs[0].typ.value.codeHash)
    ensures At(RawTxMol(t), DataOff(RawTxMol(t)), t.outputsData[0])
  {
    hide At, DynVec, FixVec, LE, U32le;
    var b, o := RawTxMol(t), t.outputs[0];
    FirstOutputAt(t);
    var co := CellOutOff(b);
    DynField(b, co, OutputFields(o), 2);
    DynField(b, TypeOff(b), ScriptFields(o.typ.value), 0);
    AtWhole(b);
    DynField(b, 0, RawTxFields(t), 5);
    DynField(b, FieldOff(b, 5), DataMols(t.outputsData), 0);
    AtSplit(b, FieldOff(b, 5) + U32le(b, FieldOff(b, 5) + 4), LE(|t.outputsData[0]|, 4), t.outputsData[0]);
  }

  // ---- where every field stands ----

  lemma {:induction false} SumLenFixed(items: seq<Bytes>, w: nat, k: nat)
    requires k <= |items| && forall j :: 0 <= j < |items| ==> |items[j]| == w
    ensures SumLen(items, k) == w * k
    decreases k
  {
    if k > 0 { SumLenFixed(items, w, k - 1); }
  }

  /** A fixvec begins with the number of its items, and item k of size w stands w * k bytes behind it. */
  lemma FixItem(b: Bytes, i: nat, items: seq<Bytes>, w: nat)
    requires At(b, i, FixVec(items)) && |FixVec(items)| < U32 && w > 0
    requires forall j :: 0 <= j < |items| ==> |items[j]| == w
    ensures U32le(b, i) == |items|
    ensures forall k :: 0 <= k < |items| ==> At(b, i + 4 + w * k, items[k])
  {
    hide At, U32le, LE, SumLen;
    AtSplit(b, i, LE(|items|, 4), Concat(items));
    ConcatCounts(items);
    U32leAt(b, i, |items|);
    forall k | 0 <= k < |items|
      ensures At(b, i + 4 + w * k, items[k])
    {
      ConcatItem(b, i + 4, items, k);
      SumLenFixed(items, w, k);
    }
  }

  lemma OutPointAt(b: Bytes, i: nat, o: OutPoint)
    requires At(b, i, OutPointMol(o)) && OutPointFits(o)
    ensures At(b, i, o.txHash) && U32le(b, i + 32) == o.index
  {
    hide At, U32le, LE;
    AtSplit(b, i, o.txHash, LE(o.index, 4));
    U32leAt(b, i + 32, o.index);
  }

  /** Version, cell and header dependencies: entries 0, 1 and 2 of the table. */
  lemma DepsAt(t: RawTx)
    requires Fits(t) && |RawTxMol(t)| < U32
    ensures var b := RawTxMol(t);
            && U32le(b, FieldOff(b, 0)) == t.version
            && U32le(b, FieldOff(b, 1)) == |t.cellDeps| && U32le(b, FieldOff(b, 2)) == |t.headerDeps|
            && (forall k :: 0 <= k < |t.cellDeps| ==>
                  var i, d := FieldOff(b, 1) + 4 + 37 * k, t.cellDeps[k];
                  At(b, i, d.outPoint.txHash) && U32le(b, i + 32) == d.outPoint.index && At(b, i + 36, [d.depType]))
            && (forall k :: 0 <= k < |t.headerDeps| ==> At(b, FieldOff(b, 2) + 4 + 32 * k, t.headerDeps[k]))
  {
    hide At, DynVec, FixVec, LE, U32le, OutPointMol;
    var b, fields := RawTxMol(t), RawTxFields(t);
    AtWhole(b);
    DynField(b, 0, fields, 0);
    DynField(b, 0, fields, 1);
    DynField(b, 0, fields, 2);
    U32leAt(b, FieldOff(b, 0), t.version);
    FixItem(b, FieldOff(b, 1), DepMols(t.cellDeps), 37);
    FixItem(b, FieldOff(b, 2), t.headerDeps, 32);
    forall k | 0 <= k < |t.cellDeps|
      ensures var i, d := FieldOff(b, 1) + 4 + 37 * k, t.cellDeps[k];
              At(b, i, d.outPoint.txHash) && U32le(b, i + 32) == d.outPoint.index && At(b, i + 36, [d.depType])
    {
      var i, d := FieldOff(b, 1) + 4 + 37 * k, t.cellDeps[k];
      assert d in t.cellDeps && DepMols(t.cellDeps)[k] == CellDepMol(d);
      AtSplit(b, i, OutPointMol(d.outPoint), [d.depType]);
      OutPointAt(b, i, d.outPoint);
    }
  }

  /** Inputs: entry 3. */
  lemma InputsAt(t: RawTx)
    requires Fits(t) && |RawTxMol(t)| < U32
    ensures var b := RawTxMol(t);
            && U32le(b, FieldOff(b, 3)) == |t.inputs|
            && forall k :: 0 <= k < |t.inputs| ==>
                 var i, x := FieldOff(b, 3) + 4 + 44 * k, t.inputs[k];
                 && At(b, i, LE(x.since, 8)) && At(b, i + 8, x.previous.txHash)
                 && U32le(b, i + 40) == x.previous.index
  {
    hide At, DynVec, FixVec, LE, U32le, OutPointMol;
    var b := RawTxMol(t);
    AtWhole(b);
    DynField(b, 0, RawTxFields(t), 3);
    FixItem(b, FieldOff(b, 3), InputMols(t.inputs), 44);
    forall k | 0 <= k < |t.inputs|
      ensures var i, x := FieldOff(b, 3) + 4 + 44 * k, t.inputs[k];
              && At(b, i, LE(x.since, 8)) && At(b, i + 8, x.previous.txHash)
              && U32le(b, i + 40) == x.previous.index
    {
      var i, x := FieldOff(b, 3) + 4 + 44 * k, t.inputs[k];
      assert x in t.inputs && InputMols(t.inputs)[k] == CellInputMol(x);
      AtSplit(b, i, LE(x.since, 8), OutPointMol(x.previous));
      OutPointAt(b, i + 8, x.previous);
    }
  }

  /** A script: code hash, hash type and args, by its own table. */
  predicate ScriptStands(b: Bytes, i: nat, s: Script) {
    && At(b, i + U32le(b, i + 4), s.codeHash) && At(b, i + U32le(b, i + 8), [s.hashType])
    && U32le(b, i + U32le(b, i + 12)) == |s.args| && At(b, i + U32le(b, i + 12) + 4, s.args)
  }

  lemma ScriptAt(b: Bytes, i: nat, s: Script)
    requires At(b, i, ScriptMol(s)) && |ScriptMol(s)| < U32
    ensures ScriptStands(b, i, s)
  {
    hide At, DynVec, LE, U32le;
    DynField(b, i, ScriptFields(s), 0);
    DynField(b, i, ScriptFields(s), 1);
    DynField(b, i, ScriptFields(s), 2);
    var j := i + U32le(b, i + 12);
    AtSplit(b, j, LE(|s.args|, 4), s.args);
    U32leAt(b, j, |s.args|);
  }

  /** Outputs and their data, entries 4 and 5: output k by its own table. */
  lemma OutputsAt(t: RawTx, k: nat)
    requires |RawTxMol(t)| < U32
    ensures var b := RawTxMol(t);
            && (k < |t.outputs| ==>
                  var i, o := FieldOff(b, 4) + U32le(b, FieldOff(b, 4) + 4 + 4 * k), t.outputs[k];
                  && At(b, i + U32le(b, i + 4), LE(o.capacity, 8)) && ScriptStands(b, i + U32le(b, i + 8), o.lock)
                  && (o.typ.Some? ==> ScriptStands(b, i + U32le(b, i + 12), o.typ.value)))
            && (k < |t.outputsData| ==>
                  var i := FieldOff(b, 5) + U32le(b, FieldOff(b, 5) + 4 + 4 * k);
                  U32le(b, i) == |t.outputsData[k]| && At(b, i + 4, t.outputsData[k]))
  {
    hide At, DynVec, FixVec, LE, U32le, ScriptStands;
    var b := RawTxMol(t);
    AtWhole(b);
    DynField(b, 0, RawTxFields(t), 4);
    DynField(b, 0, RawTxFields(t), 5);
    if k < |t.outputs| {
      DynField(b, FieldOff(b, 4), OutputMols(t.outputs), k);
      CellOutputAt(b, FieldOff(b, 4) + U32le(b, FieldOff(b, 4) + 4 + 4 * k), t.outputs[k]);
    }
    if k < |t.outputsData| {
      DynField(b, FieldOff(b, 5), DataMols(t.outputsData), k);
      var i, data := FieldOff(b, 5) + U32le(b, FieldOff(b, 5) + 4 + 4 * k), t.outputsData[k];
      AtSplit(b, i, LE(|data|, 4), data);
      U32leAt(b, i, |data|);
    }
  }

  lemma CellOutputAt(b: Bytes, i: nat, o: CellOutput)
    requires At(b, i, CellOutputMol(o)) && |CellOutputMol(o)| < U32
    ensures At(b, i + U32le(b, i + 4), LE(o.capacity, 8)) && ScriptStands(b, i + U32le(b, i + 8), o.lock)
    ensures o.typ.Some? ==> ScriptStands(b, i + U32le(b, i + 12), o.typ.value)
  {
    hide At, DynVec, LE, U32le, ScriptStands, ScriptMol;
    DynField(b, i, OutputFields(o), 0);
    DynField(b, i, OutputFields(o), 1);
    DynField(b, i, OutputFields(o), 2);
    ScriptAt(b, i + U32le(b, i + 8), o.lock);
    if o.typ.Some? { ScriptAt(b, i + U32le(b, i + 12), o.typ.value); }
  }

  // ---- the serialization is injective ----

  lemma AtSame(b: Bytes, i: nat, s: Bytes, t: Bytes)
    requires At(b, i, s) && At(b, i, t) && |s| == |t|
    ensures s == t
  {
  }

  /** The offsets of equal dynvecs are equal. */
  lemma SameOffsets(xs: seq<Bytes>, ys: seq<Bytes>, k: nat)
    requires DynVec(xs) == DynVec(ys) && |DynVec(xs)| < U32 && |xs| == |ys| && k <= |xs|
    ensures Offset(xs, k) == Offset(ys, k)
  {
    hide DynVec;
    DynVecLen(xs);
    DynVecLen(ys);
    if k < |xs| {
      AtWhole(DynVec(xs));
      DynField(DynVec(xs), 0, xs, k);
      DynField(DynVec(xs), 0, ys, k);
    }
  }

  lemma SameCount(xs: seq<Bytes>, ys: seq<Bytes>)
    requires DynVec(xs) == DynVec(ys) && |DynVec(xs)| < U32
    ensures |xs| == |ys|
  {
    hide DynVec;
    DynVecLen(xs);
    DynVecLen(ys);
    OffsetIs(xs, |xs|);
    OffsetIs(ys, |ys|);
    if xs != [] && ys != [] {
      AtWhole(DynVec(xs));
      DynField(DynVec(xs), 0, xs, 0);
      DynField(DynVec(xs), 0, ys, 0);
      OffsetIs(xs, 0);
      OffsetIs(ys, 0);
    }
  }

  lemma DynVecInjective(xs: seq<Bytes>, ys: seq<Bytes>)
    requires DynVec(xs) == DynVec(ys) && |DynVec(xs)| < U32
    ensures xs == ys
  {
    hide DynVec, At;
    SameCount(xs, ys);
    AtWhole(DynVec(xs));
    forall k | 0 <= k < |xs|
      ensures xs[k] == ys[k]
    {
      SameOffsets(xs, ys, k);
      SameOffsets(xs, ys, k + 1);
      DynField(DynVec(xs), 0, xs, k);
      DynField(DynVec(xs), 0, ys, k);
      AtSame(DynVec(xs), Offset(xs, k), xs[k], ys[k]);
    }
  }

  lemma LEInjective(m: nat, n: nat, k: nat)
    requires m < Pow256(k) && n < Pow256(k) && LE(m, k) == LE(n, k)
    ensures m == n
  {
    FromLEOfLE(m, k);
    FromLEOfLE(n, k);
  }

  /** Concatenations of equally many items of one size. */
  lemma {:induction false} ConcatInjective(xs: seq<Bytes>, ys: seq<Bytes>, w: nat)
    requires |xs| == |ys| && Concat(xs) == Concat(ys)
    requires forall k :: 0 <= k < |xs| ==> |xs[k]| == w && |ys[k]| == w
    ensures xs == ys
  {
    if xs != [] {
      assert xs[0] == Concat(xs)[..w] && ys[0] == Concat(ys)[..w];
      assert Concat(xs[1..]) == Concat(xs)[w..] && Concat(ys[1..]) == Concat(ys)[w..];
      ConcatInjective(xs[1..], ys[1..], w);
      assert xs == [xs[0]] + xs[1..] && ys == [ys[0]] + ys[1..];
    }
  }

  lemma FixVecInjective(xs: seq<Bytes>, ys: seq<Bytes>, w: nat)
    requires |xs| < U32 && |ys| < U32 && FixVec(xs) == FixVec(ys)
    requires (forall k :: 0 <= k < |xs| ==> |xs[k]| == w) && (forall k :: 0 <= k < |ys| ==> |ys[k]| == w)
    ensures xs == ys
  {
    hide LE;
    Pow32();
    assert LE(|xs|, 4) == FixVec(xs)[..4] && LE(|ys|, 4) == FixVec(ys)[..4];
    LEInjective(|xs|, |ys|, 4);
    assert Concat(xs) == FixVec(xs)[4..] && Concat(ys) == FixVec(ys)[4..];
    ConcatInjective(xs, ys, w);
  }

  /** A fixvec holds at least one byte for every item of positive size. */
  lemma {:induction false} ConcatCounts(xs: seq<Bytes>)
    requires forall k :: 0 <= k < |xs| ==> |xs[k]| > 0
    ensures |Concat(xs)| >= |xs|
  {
    if xs != [] {
      ConcatCounts(xs[1..]);
    }
  }

  /** The widths that Python's `to_bytes` insists on. */
  predicate OutPointFits(o: OutPoint) {
    o.index < U32
  }

  predicate Fits(t: RawTx) {
    && t.version < U32
    && (forall d :: d in t.cellDeps ==> OutPointFits(d.outPoint))
    && (forall i :: i in t.inputs ==> i.since < U64 && OutPointFits(i.previous))
    && (forall o :: o in t.outputs ==> o.capacity < U64)
  }

  lemma MolBytesInjective(a: Bytes, b: Bytes)
    requires MolBytes(a) == MolBytes(b)
    ensures a == b
  {
    assert a == MolBytes(a)[4..] && b == MolBytes(b)[4..];
  }

  lemma ScriptInjective(a: Script, b: Script)
    requires |ScriptMol(a)| < U32 && ScriptMol(a) == ScriptMol(b)
    ensures a == b
  {
    hide MolBytes, DynVec;
    DynVecInjective(ScriptFields(a), ScriptFields(b));
    assert ScriptFields(a)[0] == ScriptFields(b)[0] && ScriptFields(a)[1] == ScriptFields(b)[1];
    assert ScriptFields(a)[2] == ScriptFields(b)[2];
    MolBytesInjective(a.args, b.args);
  }

  lemma ScriptNotEmpty(s: Script)
    ensures |ScriptMol(s)| >= 16
  {
    hide DynVec;
    DynVecLen(ScriptFields(s));
    OffsetIs(ScriptFields(s), 3);
  }

  lemma OutPointInjective(a: OutPoint, b: OutPoint)
    requires OutPointFits(a) && OutPointFits(b) && OutPointMol(a) == OutPointMol(b)
    ensures a == b
  {
    hide LE;
    Pow32();
    assert a.txHash == OutPointMol(a)[..32] && b.txHash == OutPointMol(b)[..32];
    assert LE(a.index, 4) == OutPointMol(a)[32..] && LE(b.index, 4) == OutPointMol(b)[32..];
    LEInjective(a.index, b.index, 4);
  }

  lemma CellDepInjective(a: CellDep, b: CellDep)
    requires OutPointFits(a.outPoint) && OutPointFits(b.outPoint) && CellDepMol(a) == CellDepMol(b)
    ensures a == b
  {
    hide OutPointMol;
    assert OutPointMol(a.outPoint) == CellDepMol(a)[..36] && OutPointMol(b.outPoint) == CellDepMol(b)[..36];
    assert a.depType == CellDepMol(a)[36] && b.depType == CellDepMol(b)[36];
    OutPointInjective(a.outPoint, b.outPoint);
  }

  lemma CellInputInjective(a: CellInput, b: CellInput)
    requires a.since < U64 && b.since < U64 && OutPointFits(a.previous) && OutPointFits(b.previous)
    requires CellInputMol(a) == CellInputMol(b)
    ensures a == b
  {
    hide LE, OutPointMol;
    Pow32();
    assert LE(a.since, 8) == CellInputMol(a)[..8] && LE(b.since, 8) == CellInputMol(b)[..8];
    assert OutPointMol(a.previous) == CellInputMol(a)[8..] && OutPointMol(b.previous) == CellInputMol(b)[8..];
    LEInjective(a.since, b.since, 8);
    OutPointInjective(a.previous, b.previous);
  }

  lemma CellOutputInjective(a: CellOutput, b: CellOutput)
    requires a.capacity < U64 && b.capacity < U64
    requires |CellOutputMol(a)| < U32 && CellOutputMol(a) == CellOutputMol(b)
    ensures a == b
  {
    hide LE, DynVec, ScriptMol;
    Pow32();
    var x, y := OutputFields(a), OutputFields(b);
    DynVecInjective(x, y);
    assert x[0] == y[0] && x[1] == y[1] && x[2] == y[2];
    AtWhole(DynVec(x));
    DynField(DynVec(x), 0, x, 1);
    DynField(DynVec(x), 0, x, 2);
    LEInjective(a.capacity, b.capacity, 8);
    ScriptInjective(a.lock, b.lock);
    if a.typ.Some? { ScriptNotEmpty(a.typ.value); }
    if b.typ.Some? { ScriptNotEmpty(b.typ.value); }
    if a.typ.Some? && b.typ.Some? {
      ScriptInjective(a.typ.value, b.typ.value);
    }
  }

  lemma CellDepsInjective(xs: seq<CellDep>, ys: seq<CellDep>)
    requires FixVec(DepMols(xs)) == FixVec(DepMols(ys)) && |FixVec(DepMols(xs))| < U32
    requires forall d :: d in xs || d in ys ==> OutPointFits(d.outPoint)
    ensures xs == ys
  {
    hide CellDepMol, LE;
    ConcatCounts(DepMols(xs));
    ConcatCounts(DepMols(ys));
    FixVecInjective(DepMols(xs), DepMols(ys), 37);
    forall k | 0 <= k < |xs|
      ensures xs[k] == ys[k]
    {
      assert DepMols(xs)[k] == DepMols(ys)[k];
      CellDepInjective(xs[k], ys[k]);
    }
  }

  lemma InputsInjective(xs: seq<CellInput>, ys: seq<CellInput>)
    requires FixVec(InputMols(xs)) == FixVec(InputMols(ys)) && |FixVec(InputMols(xs))| < U32
    requires forall i :: i in xs || i in ys ==> i.since < U64 && OutPointFits(i.previous)
    ensures xs == ys
  {
    hide CellInputMol, LE;
    ConcatCounts(InputMols(xs));
    ConcatCounts(InputMols(ys));
    FixVecInjective(InputMols(xs), InputMols(ys), 44);
    forall k | 0 <= k < |xs|
      ensures xs[k] == ys[k]
    {
      assert InputMols(xs)[k] == InputMols(ys)[k];
      CellInputInjective(xs[k], ys[k]);
    }
  }

  lemma OutputsInjective(xs: seq<CellOutput>, ys: seq<CellOutput>)
    requires DynVec(OutputMols(xs)) == DynVec(OutputMols(ys)) && |DynVec(OutputMols(xs))| < U32
    requires forall o :: o in xs || o in ys ==> o.capacity < U64
    ensures xs == ys
  {
    hide CellOutputMol, DynVec;
    var b := DynVec(OutputMols(xs));
    DynVecInjective(OutputMols(xs), OutputMols(ys));
    AtWhole(b);
    forall k | 0 <= k < |xs|
      ensures xs[k] == ys[k]
    {
      assert OutputMols(xs)[k] == OutputMols(ys)[k];
      DynField(b, 0, OutputMols(xs), k);
      CellOutputInjective(xs[k], ys[k]);
    }
  }

  lemma DatasInjective(xs: seq<Bytes>, ys: seq<Bytes>)
    requires DynVec(DataMols(xs)) == DynVec(DataMols(ys)) && |DynVec(DataMols(xs))| < U32
    ensures xs == ys
  {
    hide MolBytes, DynVec;
    DynVecInjective(DataMols(xs), DataMols(ys));
    forall k | 0 <= k < |xs|
      ensures xs[k] == ys[k]
    {
      assert DataMols(xs)[k] == DataMols(ys)[k];
      MolBytesInjective(xs[k], ys[k]);
    }
  }

  lemma HeadersInjective(xs: seq<Digest>, ys: seq<Digest>)
    requires FixVec(xs) == FixVec(ys) && |FixVec(xs)| < U32
    ensures xs == ys
  {
    hide LE;
    ConcatCounts(xs);
    ConcatCounts(ys);
    FixVecInjective(xs, ys, 32);
  }

  /** Different transactions have different serializations, so a transaction hash names one transaction or shows a
      collision. */
  lemma RawTxInjective(a: RawTx, b: RawTx)
    requires Fits(a) && Fits(b) && |RawTxMol(a)| < U32 && RawTxMol(a) == RawTxMol(b)
    ensures a == b
  {
    hide LE, DynVec, FixVec, DepMols, InputMols, OutputMols, DataMols;
    Pow32();
    var x, y := RawTxFields(a), RawTxFields(b);
    DynVecInjective(x, y);
    AtWhole(DynVec(x));
    forall k | 0 <= k < 6
      ensures x[k] == y[k] && |x[k]| < U32
    {
      DynField(DynVec(x), 0, x, k);
    }
    assert x[0] == y[0] && x[1] == y[1] && x[2] == y[2] && x[3] == y[3] && x[4] == y[4] && x[5] == y[5];
    assert |x[1]| < U32 && |x[2]| < U32 && |x[3]| < U32 && |x[4]| < U32 && |x[5]| < U32;
    LEInjective(a.version, b.version, 4);
    CellDepsInjective(a.cellDeps, b.cellDeps);
    HeadersInjective(a.headerDeps, b.headerDeps);
    InputsInjective(a.inputs, b.inputs);
    OutputsInjective(a.outputs, b.outputs);
    DatasInjective(a.outputsData, b.outputsData);
  }

  /** A body that hashes to a transaction's id is that transaction's, or two bodies collide. */
  lemma HashNamesTransaction(ckb: Hash, a: RawTx, b: RawTx)
    requires Fits(a) && Fits(b) && |RawTxMol(a)| < U32 && ckb(RawTxMol(a)) == ckb(RawTxMol(b))
    ensures a == b || Collides(ckb, {RawTxMol(a), RawTxMol(b)})
  {
    hide RawTxMol;
    if RawTxMol(a) == RawTxMol(b) {
      RawTxInjective(a, b);
    }
  }
}
