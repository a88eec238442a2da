/** The seal and the datum of one Cardano transaction: the bound asset looks for the seal in every output and for the
    datum in output 0 only. */
module SealOutputs {
  import opened Basics
  import opened Cbor
  import opened SealWalk
  import opened EscrowWalk
  import opened BodyParse
  import opened BodyParseExact
  import opened Ledger
  import opened Scripts
  import BoundAsset

  // ---- bodies that show both ----

  /** A field of a map output; `option` is an inline datum or a datum hash. */
  datatype SField =
    | SAddress(kw: nat, w: nat, addr: Bytes)
    | SAmount(kw: nat, value: Value)
    | SOption(option: EField)
    | SOther(kw: nat, key: nat, item: Item)

  datatype SFields = NoSField | MoreSFields(field: SField, tail: SFields)

  datatype SOutput = SLegacy(w: nat, aw: nat, addr: Bytes, value: Value, more: Items) | SMap(w: nat, fields: SFields)

  datatype SOutputs = NoSOutput | MoreSOutputs(output: SOutput, tail: SOutputs)

  /** `before` and `after` have no outputs entry. */
  datatype SBody = SBody(w: nat, before: BEntries, kw: nat, ow: nat, outputs: SOutputs, after: BEntries)

  // ---- as the walker for the seal sees them ----

  function SealField(f: SField): Field {
    match f
    case SAddress(kw, w, a) => Address(kw, w, a)
    case SAmount(kw, v) => Amount(kw, v)
    case SOption(o) => Field.Other(o.kw, EKey(o), EValue(o))
    case SOther(kw, key, x) => Field.Other(kw, key, x)
  }

  function SealFields(fs: SFields): Fields {
    match fs case NoSField => NoField case MoreSFields(f, t) => MoreFields(SealField(f), SealFields(t))
  }

  function SealOutput(o: SOutput): Output {
    match o
    case SLegacy(w, aw, a, v, more) => ArrayOutput(w, aw, a, v, more)
    case SMap(w, fs) => MapOutput(w, SealFields(fs))
  }

  function SealOutputList(os: SOutputs): Outputs {
    match os case NoSOutput => NoOutput case MoreSOutputs(o, t) => MoreOutputs(SealOutput(o), SealOutputList(t))
  }

  function EntriesOf(es: BEntries): Entries {
    if es.NoBEntry? then NoEntry else Entry(es.kw, BKey(es), BValue(es), EntriesOf(es.tail))
  }

  function SealBody(t: SBody): Body {
    Body(t.w, EntriesOf(t.before), t.kw, t.ow, SealOutputList(t.outputs), EntriesOf(t.after))
  }

  // ---- as the walker for the datum sees them ----

  function TxField(f: SField): EField {
    match f
    case SAddress(kw, w, a) => EAddress(kw, w, a)
    case SAmount(kw, v) => EOther(kw, 1, ValueItem(v))
    case SOption(o) => o
    case SOther(kw, key, x) => EOther(kw, key, x)
  }

  function TxFields(fs: SFields): EFields {
    match fs case NoSField => NoEField case MoreSFields(f, t) => MoreEFields(TxField(f), TxFields(t))
  }

  function TxOutput(o: SOutput): EOutput {
    match o
    case SLegacy(w, aw, a, v, more) => Legacy(w, Cons(Str(2, aw, a), Cons(ValueItem(v), more)))
    case SMap(w, fs) => Babbage(w, TxFields(fs))
  }

  function TxOutputs(os: SOutputs): EOutputs {
    match os case NoSOutput => NoEOutput case MoreSOutputs(o, t) => MoreEOutputs(TxOutput(o), TxOutputs(t))
  }

  function Append(es: BEntries, rest: BEntries): BEntries {
    match es
    case NoBEntry => rest
    case BInputs(kw, tag, w, xs, t) => BInputs(kw, tag, w, xs, Append(t, rest))
    case BOutputs(kw, w, os, t) => BOutputs(kw, w, os, Append(t, rest))
    case BOther(kw, key, x, t) => BOther(kw, key, x, Append(t, rest))
  }

  function DatumBody(t: SBody): TxBody {
    TxBody(t.w, Append(t.before, BOutputs(t.kw, t.ow, TxOutputs(t.outputs), t.after)))
  }

  // ---- they see the same bytes ----

  lemma {:induction false} SameFields(fs: SFields)
    ensures FieldItems(SealFields(fs)) == EFieldItems(TxFields(fs))
  {
    if fs.MoreSFields? { SameFields(fs.tail); }
  }

  lemma {:induction false} SameOutputs(os: SOutputs)
    ensures OutputItems(SealOutputList(os)) == EOutputItems(TxOutputs(os))
  {
    if os.MoreSOutputs? {
      SameOutputs(os.tail);
      SameOutput(os.output);
    }
  }

  lemma {:induction false} SameEntries(es: BEntries, rest: BEntries)
    ensures EntryItems(EntriesOf(es), BItems(rest)) == BItems(Append(es, rest))
  {
    hide BValue;
    if !es.NoBEntry? {
      SameEntries(es.tail, rest);
      SameValue(es, rest);
    }
  }

  lemma SameValue(es: BEntries, rest: BEntries)
    requires !es.NoBEntry?
    ensures var a := Append(es, rest);
            && !a.NoBEntry? && a.kw == es.kw && BKey(a) == BKey(es) && BValue(a) == BValue(es)
            && a.tail == Append(es.tail, rest)
  {
  }

  lemma {:induction false} AppendNothing(es: BEntries)
    ensures Append(es, NoBEntry) == es
  {
    if !es.NoBEntry? { AppendNothing(es.tail); }
  }

  lemma SameBytes(t: SBody)
    ensures BodyItem(SealBody(t)) == TxItem(DatumBody(t))
  {
    var outs := BOutputs(t.kw, t.ow, TxOutputs(t.outputs), t.after);
    SameOutputs(t.outputs);
    SameEntries(t.before, outs);
    SameEntries(t.after, NoBEntry);
    AppendNothing(t.after);
    assert EntryItems(EntriesOf(t.after), Nil) == BItems(t.after) by { assert BItems(NoBEntry) == Nil; }
    assert BItems(outs) == Cons(Scalar(0, t.kw, 1),
                                Cons(Arr(t.ow, OutputItems(SealOutputList(t.outputs))), BItems(t.after)));
  }

  // ---- what an accepted transaction has shown of its outputs ----

  predicate NoOutputs(es: BEntries) {
    !es.NoBEntry? ==> !es.BOutputs? && NoOutputs(es.tail)
  }

  /** The nesting limits of both walkers; output 0 names no datum by hash. */
  predicate Limited(t: SBody) {
    && NoOutputs(t.before) && NoOutputs(t.after)
    && EntriesLimited(EntriesOf(t.before)) && OutputsLimited(SealOutputList(t.outputs))
    && Readable(DatumBody(t)) && !HashInFirst(TxOutputs(t.outputs))
  }

  predicate Holds(o: SOutput, lock: Bytes, policy: Bytes) {
    HoldsSeal(SealOutput(o), lock, policy)
  }

  predicate SomeHolds(os: SOutputs, lock: Bytes, policy: Bytes) {
    os.MoreSOutputs? && (Holds(os.output, lock, policy) || SomeHolds(os.tail, lock, policy))
  }

  /** The inline datum of an output. */
  function DatumOf(o: SOutput): Bytes {
    if o.SMap? then FieldDatums(TxFields(o.fields), false) else []
  }

  lemma {:induction false} HoldsAreSame(os: SOutputs, lock: Bytes, policy: Bytes)
    ensures SomeHoldsSeal(SealOutputList(os), lock, policy) == SomeHolds(os, lock, policy)
  {
    hide HoldsSeal;
    if os.MoreSOutputs? { HoldsAreSame(os.tail, lock, policy); }
  }

  lemma {:induction false} NoDatumElsewhere(es: BEntries, rest: BEntries, lax: bool)
    requires NoOutputs(es)
    ensures BodyDatum(Append(es, rest), lax) == BodyDatum(rest, lax)
    ensures NamesHash(Append(es, rest)) == NamesHash(rest)
    ensures BodyDatum(es, lax) == [] && !NamesHash(es)
  {
    if !es.NoBEntry? {
      NoDatumElsewhere(es.tail, rest, lax);
      SameValue(es, rest);
    }
  }

  /** Both readers on one encoded body: the seal is looked for in every output, the datum is that of output 0. */
  lemma BothExact(t: SBody, lock: Bytes, policy: Bytes, fuel: nat)
    requires Wf(TxItem(DatumBody(t))) && Limited(t) && lock != [] && fuel > MAX_DEPTH
    requires |Encode(TxItem(DatumBody(t)))| < U64
    ensures var b := Encode(TxItem(DatumBody(t)));
            && SealAtLock(b, lock, policy) == Some(SomeHolds(t.outputs, lock, policy))
            && Parse(b, fuel) == Some(Parsed(Outpoints(DatumBody(t).entries),
                                             if t.outputs.MoreSOutputs? then DatumOf(t.outputs.output) else []))
  {
    hide SealAtLock, Parse, Encode, BodyItem, TxItem, Wf, Readable, OutputsLimited, EntriesLimited, Outpoints,
      SomeHoldsSeal, SomeHolds;
    SameBytes(t);
    var b := Encode(TxItem(DatumBody(t)));
    assert b + [] == b;
    SealAtLockExact(SealBody(t), [], lock, policy);
    HoldsAreSame(t.outputs, lock, policy);
    FirstIsRead(t);
    ParseIsDeclared(DatumBody(t), [], fuel);
  }

  lemma FirstIsRead(t: SBody)
    requires Limited(t)
    ensures !NamesHash(DatumBody(t).entries)
    ensures Declared(DatumBody(t)) == if t.outputs.MoreSOutputs? then DatumOf(t.outputs.output) else []
  {
    hide FieldDatums, HasHash, Readable;
    var outs := BOutputs(t.kw, t.ow, TxOutputs(t.outputs), t.after);
    NoDatumElsewhere(t.before, outs, false);
    NoDatumElsewhere(t.after, NoBEntry, false);
    AppendNothing(t.after);
    assert BodyDatum(outs, false) == FirstDatum(TxOutputs(t.outputs), false) + [];
  }

  /** What the shape has shown when it asks for a seal and a datum (S1, S4): the seal is in some output, and the
      inline datum of output 0, a map output, commits to the state. So where no later output holds the seal, the
      output that holds it carries the commitment. */
  lemma SealAndDatum(env: Env, e: BoundAsset.Evidence, t: SBody, inp: Cell, out: Cell)
    requires Wf(TxItem(DatumBody(t))) && Limited(t) && e.lock != [] && env.stack > MAX_DEPTH && |e.body| < U64
    requires e.body == Encode(TxItem(DatumBody(t))) && Parse(e.body, env.stack) == Some(Parsed(e.ins, e.datum))
    requires BoundAsset.Enters(env, e, out) || BoundAsset.Departs(env, e, inp, out)
    ensures SomeHolds(t.outputs, e.lock, e.policy) && t.outputs.output.SMap?
    ensures SealCommitment(DatumOf(t.outputs.output), env.stack) == Some(env.b2b(out.data[70..]))
    ensures !SomeHolds(t.outputs.tail, e.lock, e.policy) ==> Holds(t.outputs.output, e.lock, e.policy)
  {
    hide SealAtLock, Parse, Encode, TxItem, Wf, Limited, Outpoints, SealCommitment, Holds, FieldDatums;
    BothExact(t, e.lock, e.policy, env.stack);
    BoundAsset.EmptyDatum(env.stack);
  }

  // ---- they need not be one output ----

  function DatumOption(datum: Bytes): EField {
    EDatum(0, 0, Scalar(0, 0, 1), 1, 2, datum)
  }

  /** {0: addr, 1: 5, 2: [1, 24(datum)]} */
  function WithDatum(addr: Bytes, datum: Bytes): SOutput {
    SMap(0, MoreSFields(SAddress(0, 1, addr),
                        MoreSFields(SAmount(0, Coin(0, 5)), MoreSFields(SOption(DatumOption(datum)), NoSField))))
  }

  function OneOf(policy: Bytes): Policies {
    Policy(1, policy, Map(0, Cons(Str(2, 0, []), Cons(Scalar(0, 0, 1), Nil))), NoPolicy)
  }

  /** [addr, [2, {policy: {h'': 1}}]] */
  function WithSeal(addr: Bytes, policy: Bytes): SOutput {
    SLegacy(0, 1, addr, Assets(0, Scalar(0, 0, 2), 0, OneOf(policy), Nil), Nil)
  }

  /** {0: [[id, 0]], 1: [{0: addr, 1: 5, 2: [1, 24(datum)]}, [lock, [2, {policy: {h'': 1}}]]]} */
  function Apart(id: Digest, addr: Bytes, lock: Bytes, policy: Bytes, datum: Bytes): SBody {
    TwoOf(id, WithDatum(addr, datum), WithSeal(lock, policy))
  }

  function TwoOf(id: Digest, one: SOutput, two: SOutput): SBody {
    SBody(0, Inputs(id, NoBEntry), 0, 0, MoreSOutputs(one, MoreSOutputs(two, NoSOutput)), NoBEntry)
  }

  lemma DatumOptionIs(datum: Bytes)
    requires |datum| < 0x10000
    ensures var x := DatumOption(datum);
            Wf(EValue(x)) && Depth(EValue(x)) == 2 && |Encode(EValue(x))| == 7 + |datum| && EKey(x) == 2 && x.kw == 0
  {
    var s := Str(2, 2, datum);
    assert Fits(2, |datum|) && Fits(1, 24) by { assert Pow256(1) == 256 && Pow256(2) == 0x10000; }
    PairIs(Scalar(0, 0, 1), Tagged(1, 24, s));
  }

  lemma WithDatumIs(addr: Bytes, datum: Bytes)
    requires |addr| < 256 && |datum| < 0x10000
    ensures var o := WithDatum(addr, datum);
            && o.SMap? && Wf(EOutputItem(TxOutput(o))) && |Encode(EOutputItem(TxOutput(o)))| == 14 + |addr| + |datum|
            && ReadableFields(TxFields(o.fields), true) && !HasHash(TxFields(o.fields))
            && FieldsLimited(SealFields(o.fields))
            && DatumOf(o) == datum && AddressOf(SealFields(o.fields)) == Some(addr)
  {
    var x := DatumOption(datum);
    var a, c, last := EAddress(0, 1, addr), EOther(0, 1, Scalar(0, 0, 5)), MoreEFields(x, NoEField);
    DatumOptionIs(datum);
    ThreeFields(a, c, x);
    assert Fits(1, |addr|) by { assert Pow256(1) == 256; }
    assert EValue(a) == Str(2, 1, addr) && |Encode(EValue(a))| == 2 + |addr|;
    assert EValue(c) == Scalar(0, 0, 5) && |Encode(EValue(c))| == 1;
    ThreeSealFields(SAddress(0, 1, addr), SAmount(0, Coin(0, 5)), SOption(x));
    assert TxField(SAmount(0, Coin(0, 5))) == c && TxField(SAddress(0, 1, addr)) == a;
  }

  /** Three fields of a map output, at both walkers. */
  lemma ThreeFields(a: EField, c: EField, x: EField)
    requires a.EAddress? && c.EOther? && c.key == 1 && x.EDatum? && a.kw == c.kw == x.kw == 0
    ensures var fs := MoreEFields(a, MoreEFields(c, MoreEFields(x, NoEField)));
            && Length(EFieldItems(fs)) == 6 && !HasHash(fs) && FieldDatums(fs, false) == x.datum
            && (Wf(EValue(a)) && Wf(EValue(c)) && Wf(EValue(x)) ==>
                  && WfAll(EFieldItems(fs))
                  && |EncodeAll(EFieldItems(fs))|
                     == 3 + |Encode(EValue(a))| + |Encode(EValue(c))| + |Encode(EValue(x))|)
            && (Depth(EValue(a)) <= MAX_DEPTH && Depth(EValue(c)) <= MAX_DEPTH && Depth(EValue(x)) <= MAX_DEPTH
                ==> ReadableFields(fs, true))
  {
    hide EValue, Encode, Depth;
    var last := MoreEFields(x, NoEField);
    var more := MoreEFields(c, last);
    OneField(x, NoEField);
    OneField(c, last);
    OneField(a, more);
    assert Fits(0, 0) && Fits(0, 1) && Fits(0, 2);
    assert FieldDatums(NoEField, false) == [] && FieldDatums(last, false) == x.datum
           && FieldDatums(more, false) == x.datum;
    assert !HasHash(NoEField);
    if Depth(EValue(a)) <= MAX_DEPTH && Depth(EValue(c)) <= MAX_DEPTH && Depth(EValue(x)) <= MAX_DEPTH {
      assert ReadableFields(last, true);
      ReadableMore(c, last);
      ReadableMore(a, more);
    }
  }

  lemma ThreeSealFields(a: SField, c: SField, x: SField)
    requires a.SAddress? && c.SAmount? && x.SOption? && EKey(x.option) == 2
    requires Depth(ValueItem(c.value)) <= MAX_DEPTH && Depth(EValue(x.option)) <= MAX_DEPTH
    ensures var fs := MoreSFields(a, MoreSFields(c, MoreSFields(x, NoSField)));
            && FieldsLimited(SealFields(fs)) && AddressOf(SealFields(fs)) == Some(a.addr)
            && TxFields(fs) == MoreEFields(TxField(a), MoreEFields(TxField(c), MoreEFields(TxField(x), NoEField)))
  {
    hide EValue, ValueItem, Depth, TxField;
    var last := MoreSFields(x, NoSField);
    var more := MoreSFields(c, last);
    assert SealFields(last) == MoreFields(SealField(x), NoField) && FieldsLimited(SealFields(last));
    assert AddressOf(SealFields(last)) == None && AddressOf(SealFields(more)) == None;
    assert FieldsLimited(SealFields(more));
    assert TxFields(last) == MoreEFields(TxField(x), NoEField)
           && TxFields(more) == MoreEFields(TxField(c), TxFields(last));
  }

  lemma WithSealIs(addr: Bytes, policy: Bytes)
    requires |addr| < 256 && |policy| < 256
    ensures var o := WithSeal(addr, policy);
            && o.SLegacy? && Wf(EOutputItem(TxOutput(o)))
            && |Encode(EOutputItem(TxOutput(o)))| == 11 + |addr| + |policy|
            && Depth(EOutputItem(TxOutput(o))) <= MAX_DEPTH && Holds(o, addr, policy)
  {
    assert Fits(1, |addr|) && Fits(1, |policy|) by { assert Pow256(1) == 256; }
    var name, one, id, a := Str(2, 0, []), Scalar(0, 0, 1), Str(2, 1, policy), Str(2, 1, addr);
    var token := Map(0, Cons(name, Cons(one, Nil)));
    PairIs(name, one);
    assert PolicyItems(OneOf(policy)) == Cons(id, Cons(token, Nil)) by { assert PolicyItems(NoPolicy) == Nil; }
    var m := Map(0, Cons(id, Cons(token, Nil)));
    PairIs(id, token);
    var v := Arr(0, Cons(Scalar(0, 0, 2), Cons(m, Nil)));
    PairIs(Scalar(0, 0, 2), m);
    PairIs(a, v);
    assert HasPolicy(OneOf(policy), policy);
  }

  lemma ApartIs(id: Digest, addr: Bytes, lock: Bytes, policy: Bytes, datum: Bytes)
    requires |addr| < 256 && |lock| < 256 && |policy| < 256 && |datum| < 0x10000 && addr != lock && datum != []
    ensures var t := Apart(id, addr, lock, policy, datum);
            && Wf(TxItem(DatumBody(t))) && |Encode(TxItem(DatumBody(t)))| < 0x20000 && Limited(t)
            && Outpoints(DatumBody(t).entries) == [(id, 0)] && DatumOf(t.outputs.output) == datum
            && !Holds(t.outputs.output, lock, policy)
            && Holds(t.outputs.tail.output, lock, policy) && DatumOf(t.outputs.tail.output) == []
  {
    assert DatumOf(WithSeal(lock, policy)) == [] && WithSeal(lock, policy).SLegacy?;
    hide WithDatum, WithSeal, Encode, EOutputItem, TxOutput, SealOutput, ReadableFields, FieldsLimited, HasHash,
      AddressOf;
    WithDatumIs(addr, datum);
    WithSealIs(lock, policy);
    TwoBytes(id, WithDatum(addr, datum), WithSeal(lock, policy));
    TwoLimited(id, WithDatum(addr, datum), WithSeal(lock, policy));
    NotThere(addr, datum, lock, policy);
  }

  lemma NotThere(addr: Bytes, datum: Bytes, lock: Bytes, policy: Bytes)
    requires AddressOf(SealFields(WithDatum(addr, datum).fields)) == Some(addr) && addr != lock
    ensures !Holds(WithDatum(addr, datum), lock, policy)
  {
    hide AddressOf, SealFields;
  }

  lemma TwoEntriesOf(id: Digest, one: SOutput, two: SOutput)
    ensures DatumBody(TwoOf(id, one, two)).entries
            == Inputs(id, BOutputs(0, 0, MoreEOutputs(TxOutput(one), MoreEOutputs(TxOutput(two), NoEOutput)), NoBEntry))
    ensures SealOutputList(TwoOf(id, one, two).outputs)
            == MoreOutputs(SealOutput(one), MoreOutputs(SealOutput(two), NoOutput))
  {
    hide TxOutput, SealOutput;
    assert TxOutputs(NoSOutput) == NoEOutput && SealOutputList(NoSOutput) == NoOutput;
    assert TxOutputs(MoreSOutputs(two, NoSOutput)) == MoreEOutputs(TxOutput(two), NoEOutput);
    var outs := BOutputs(0, 0, TxOutputs(TwoOf(id, one, two).outputs), NoBEntry);
    assert Append(NoBEntry, outs) == outs && Append(Inputs(id, NoBEntry), outs) == Inputs(id, outs);
    assert SealOutputList(MoreSOutputs(two, NoSOutput)) == MoreOutputs(SealOutput(two), NoOutput);
  }

  lemma TwoBytes(id: Digest, one: SOutput, two: SOutput)
    requires Wf(EOutputItem(TxOutput(one))) && Wf(EOutputItem(TxOutput(two)))
    ensures var t := TwoOf(id, one, two);
            && Wf(TxItem(DatumBody(t))) && Outpoints(DatumBody(t).entries) == [(id, 0)]
            && |Encode(TxItem(DatumBody(t)))|
               == 41 + |Encode(EOutputItem(TxOutput(one)))| + |Encode(EOutputItem(TxOutput(two)))|
  {
    var x, y := EOutputItem(TxOutput(one)), EOutputItem(TxOutput(two));
    var os := MoreEOutputs(TxOutput(one), MoreEOutputs(TxOutput(two), NoEOutput));
    var outs := BOutputs(0, 0, os, NoBEntry);
    TwoEntriesOf(id, one, two);
    OneInputIs(id);
    PairIs(x, y);
    TwoEntries(0, OneInput(id), 1, Arr(0, Cons(x, Cons(y, Nil))));
    hide EOutputItem, TxOutput, Encode, Wf, OneInput, DatumBody;
    InputsAre(id, outs);
    assert EOutputItems(NoEOutput) == Nil && EOutputItems(os.tail) == Cons(y, Nil);
    assert EOutputItems(os) == Cons(x, Cons(y, Nil)) && Outpoints(outs) == [];
  }

  lemma TwoLimited(id: Digest, one: SOutput, two: SOutput)
    requires one.SMap? && two.SLegacy?
    requires ReadableFields(TxFields(one.fields), true) && !HasHash(TxFields(one.fields))
    requires FieldsLimited(SealFields(one.fields))
    requires Depth(EOutputItem(TxOutput(two))) <= MAX_DEPTH
    ensures Limited(TwoOf(id, one, two))
  {
    var t := TwoOf(id, one, two);
    TwoEntriesOf(id, one, two);
    OneInputIs(id);
    InputsAre(id, NoBEntry);
    hide Depth, ReadableFields, FieldsLimited, HasHash, SealFields, TxFields, OneInput, EOutputItem, Encode, Wf;
    var last := MoreEOutputs(TxOutput(two), NoEOutput);
    assert ReadableOutputs(NoEOutput, false) && ReadableOutputs(last, false) && ReadableEntries(NoBEntry);
    assert ReadableEntries(BOutputs(0, 0, MoreEOutputs(TxOutput(one), last), NoBEntry));
    assert EntriesOf(NoBEntry) == NoEntry && EntriesLimited(NoEntry) && NoOutputs(NoBEntry);
    assert EntriesOf(Inputs(id, NoBEntry)) == Entry(0, 0, OneInput(id), NoEntry);
    assert OutputsLimited(NoOutput) && OutputsLimited(MoreOutputs(SealOutput(two), NoOutput)) by {
      assert OutputItem(SealOutput(two)) == EOutputItem(TxOutput(two)) by { SameOutput(two); }
    }
  }

  lemma SameOutput(o: SOutput)
    ensures OutputItem(SealOutput(o)) == EOutputItem(TxOutput(o))
  {
    if o.SMap? { SameFields(o.fields); }
  }

  /** For every state there is a body that S1 takes although the one output with the seal has no datum: the datum
      with the commitment is that of output 0, at another address. */
  lemma SealApartFromDatum(env: Env, id: Digest, lock: Bytes, policy: Bytes, addr: Bytes, d: SealDatum, out: Cell)
    requires 0 < |lock| < 256 && |policy| < 256 && |addr| < 256 && addr != lock && env.stack > MAX_DEPTH
    requires WfSeal(d) && |SealBytes(d)| < 0x10000 && BoundAsset.IsCell(out.data) && out.data[1] == BoundAsset.CKB_OWNED
    requires d.commitment == env.b2b(out.data[70..])
    requires out.lock == out.data[38..70] && out.lock != BoundAsset.ZeroLock()
    requires out.data[2..34] == env.b2b(Encoded(id, addr, lock, policy, SealBytes(d)))
    ensures var body := Encoded(id, addr, lock, policy, SealBytes(d));
            && Parse(body, env.stack) == Some(Parsed([(id, 0)], SealBytes(d)))
            && BoundAsset.Enters(env, BoundAsset.Evidence(lock, policy, body, [(id, 0)], SealBytes(d)), out)
    ensures !Holds(WithDatum(addr, SealBytes(d)), lock, policy)
    ensures Holds(WithSeal(lock, policy), lock, policy) && DatumOf(WithSeal(lock, policy)) == []
  {
    hide Encode, Parse, SealAtLock, SealCommitment, SealBytes, DatumOf, Holds, Limited, WithDatum, WithSeal, DatumBody,
      TxItem, Wf, Outpoints;
    assert SealBytes(d) != [] by { SealBytesStart(d); }
    ApartIs(id, addr, lock, policy, SealBytes(d));
    BothExact(Apart(id, addr, lock, policy, SealBytes(d)), lock, policy, env.stack);
    SealReadersExact(d, env.stack);
  }

  /** The encoding of `Apart`; nothing where a length does not fit. */
  function Encoded(id: Digest, addr: Bytes, lock: Bytes, policy: Bytes, datum: Bytes): Bytes {
    var it := TxItem(DatumBody(Apart(id, addr, lock, policy, datum)));
    if Wf(it) then Encode(it) else []
  }

  lemma SealBytesStart(d: SealDatum)
    requires WfSeal(d)
    ensures SealBytes(d) != []
  {
    hide Encode, SealStart, Fits;
    assert |HeadBytes(6, d.tw, d.tag)| > 0;
  }
}
