/** `parse` on encoded bodies: the consumed outpoints, and what it takes for the inline datum of output 0. */
module BodyParseExact {
  import opened Basics
  import opened Cbor
  import opened CborSkippers
  import opened SealWalk
  import opened EscrowWalk
  import opened BodyParse

  /** The inputs: `[transaction id, index]` pairs. */
  datatype InputList = NoInput | MoreInputs(aw: nat, iw: nat, id: Digest, xw: nat, index: nat, tail: InputList)

  /** The entries of a body, in any order; `set_` is the width of the optional tag 258. */
  datatype BEntries =
    | NoBEntry
    | BInputs(kw: nat, set_: Option<nat>, w: nat, inputs: InputList, tail: BEntries)
    | BOutputs(kw: nat, w: nat, outputs: EOutputs, tail: BEntries)
    | BOther(kw: nat, key: nat, item: Item, tail: BEntries)

  datatype TxBody = TxBody(w: nat, entries: BEntries)

  function InputItem(aw: nat, iw: nat, id: Digest, xw: nat, index: nat): Item {
    Arr(aw, Cons(Str(2, iw, id), Cons(Scalar(0, xw, index), Nil)))
  }

  function InputItems(xs: InputList): Items {
    match xs
    case NoInput => Nil
    case MoreInputs(aw, iw, id, xw, index, t) => Cons(InputItem(aw, iw, id, xw, index), InputItems(t))
  }

  function BKey(e: BEntries): nat
    requires !e.NoBEntry?
  {
    if e.BInputs? then 0 else if e.BOutputs? then 1 else e.key
  }

  function BValue(e: BEntries): Item
    requires !e.NoBEntry?
  {
    match e
    case BInputs(_, tag, w, xs, _) =>
      if tag.Some? then Tagged(tag.value, 258, Arr(w, InputItems(xs))) else Arr(w, InputItems(xs))
    case BOutputs(_, w, os, _) => Arr(w, EOutputItems(os))
    case BOther(_, _, x, _) => x
  }

  function BItems(es: BEntries): Items {
    if es.NoBEntry? then Nil else Cons(Scalar(0, es.kw, BKey(es)), Cons(BValue(es), BItems(es.tail)))
  }

  function TxItem(t: TxBody): Item {
    Map(t.w, BItems(t.entries))
  }

  /** The outpoints consumed; an index is kept to 32 bits. */
  function InputPoints(xs: InputList): seq<Outpoint> {
    match xs case NoInput => [] case MoreInputs(_, _, id, _, index, t) => [(id, index % 0x1_0000_0000)] + InputPoints(t)
  }

  function Outpoints(es: BEntries): seq<Outpoint> {
    if es.NoBEntry? then []
    else (if es.BInputs? then InputPoints(es.inputs) else []) + Outpoints(es.tail)
  }

  // ---- the datum of output 0, as declared and as read ----

  /** The bytes of the hash begin with a head whose argument reaches exactly to its end. */
  predicate Aligned(hash: Bytes) {
    var h := LaxHead(hash, 0);
    h.Some? && h.value.next + h.value.arg == |hash|
  }

  /** What field 2 declares: the inline datum, and nothing for a hash. What is read there, with `lax`: of an aligned
      hash also the bytes after its leading head. */
  function FieldDatum(f: EField, lax: bool): Bytes {
    match f
    case EDatum(_, _, _, _, _, datum) => datum
    case EHash(_, _, _, _, hash) => if lax && Aligned(hash) then hash[LaxHead(hash, 0).value.next..] else []
    case _ => []
  }

  function FieldDatums(fs: EFields, lax: bool): Bytes {
    if fs.NoEField? then [] else FieldDatum(fs.field, lax) + FieldDatums(fs.tail, lax)
  }

  function FirstDatum(os: EOutputs, lax: bool): Bytes {
    if os.MoreEOutputs? && os.output.Babbage? then FieldDatums(os.output.fields, lax) else []
  }

  function BodyDatum(es: BEntries, lax: bool): Bytes {
    if es.NoBEntry? then []
    else (if es.BOutputs? then FirstDatum(es.outputs, lax) else []) + BodyDatum(es.tail, lax)
  }

  /** The inline datum of output 0. */
  function Declared(t: TxBody): Bytes {
    BodyDatum(t.entries, false)
  }

  predicate HashInFirst(os: EOutputs) {
    os.MoreEOutputs? && os.output.Babbage? && HasHash(os.output.fields)
  }

  /** Output 0 names its datum by a hash. */
  predicate NamesHash(es: BEntries) {
    !es.NoBEntry? && ((es.BOutputs? && HashInFirst(es.outputs)) || NamesHash(es.tail))
  }

  // ---- the limits ----

  /** Nesting is limited. Field 2 of output 0 is an inline datum or an aligned 32-byte hash; other outputs may hold
      anything there. */
  predicate ReadableFields(fs: EFields, first: bool) {
    fs.MoreEFields? ==>
      && Depth(EValue(fs.field)) <= MAX_DEPTH
      && (first && EKey(fs.field) == 2 ==>
            fs.field.EDatum? || (fs.field.EHash? && |fs.field.hash| == 32 && Aligned(fs.field.hash)))
      && ReadableFields(fs.tail, first)
  }

  predicate ReadableOutputs(os: EOutputs, first: bool) {
    os.MoreEOutputs? ==>
      && (if os.output.Babbage? then ReadableFields(os.output.fields, first)
          else Depth(EOutputItem(os.output)) <= MAX_DEPTH)
      && ReadableOutputs(os.tail, false)
  }

  predicate ReadableEntries(es: BEntries) {
    !es.NoBEntry? ==>
      && (es.BOutputs? ==> ReadableOutputs(es.outputs, true))
      && (es.BOther? ==> es.key >= 2 && Depth(es.item) <= MAX_DEPTH)
      && ReadableEntries(es.tail)
  }

  predicate Readable(t: TxBody) {
    ReadableEntries(t.entries)
  }

  // ---- exactness ----

  lemma RawSkipAt(b: Bytes, i: nat, it: Item, fuel: nat)
    requires Wf(it) && At(b, i, Encode(it)) && Depth(it) <= MAX_DEPTH && fuel > MAX_DEPTH && |b| < U64
    ensures RawSkip(b, i, fuel) == Some(i + |Encode(it)|)
  {
    SkipComplete(b, i, it, 0);
    SkippersAgree(b, i, 0, fuel);
  }

  lemma InputExact(b: Bytes, j: nat, aw: nat, iw: nat, id: Digest, xw: nat, index: nat)
    requires Wf(InputItem(aw, iw, id, xw, index)) && At(b, j, Encode(InputItem(aw, iw, id, xw, index)))
    ensures ParseInput(b, j)
            == Some(((id, index % 0x1_0000_0000), j + |Encode(InputItem(aw, iw, id, xw, index))|))
  {
    hide At, Ohdr, Encode, EncodeAll, Fits;
    var s, x := Str(2, iw, id), Scalar(0, xw, index);
    ArrAt(b, j, aw, Cons(s, Cons(x, Nil)));
    var k := j + 1 + aw;
    ConsAt(b, k, s, Cons(x, Nil));
    StrAt(b, k, 2, iw, id);
    ConsAt(b, k + |Encode(s)|, x, Nil);
    ScalarAt(b, k + |Encode(s)|, 0, xw, index);
    EncodeAllNil();
  }

  lemma {:induction false} InputsExact(b: Bytes, j: nat, xs: InputList, ins: seq<Outpoint>)
    requires WfAll(InputItems(xs)) && At(b, j, EncodeAll(InputItems(xs)))
    ensures ParseInputs(b, j, Length(InputItems(xs)), ins)
            == Some((ins + InputPoints(xs), j + |EncodeAll(InputItems(xs))|))
    decreases xs
  {
    hide At, Encode, EncodeAll, Fits, ParseInput, InputItem;
    match xs
    case NoInput =>
      EncodeAllNil();
      assert ins + [] == ins;
    case MoreInputs(aw, iw, id, xw, index, t) =>
      var it := InputItem(aw, iw, id, xw, index);
      ConsAt(b, j, it, InputItems(t));
      InputExact(b, j, aw, iw, id, xw, index);
      var p: Outpoint := (id, index % 0x1_0000_0000);
      InputsExact(b, j + |Encode(it)|, t, ins + [p]);
      assert ins + [p] + InputPoints(t) == ins + ([p] + InputPoints(t));
  }

  lemma InputFieldExact(b: Bytes, i: nat, e: BEntries, ins: seq<Outpoint>)
    requires e.BInputs? && Wf(BValue(e)) && At(b, i, Encode(BValue(e)))
    ensures ParseInputField(b, i, ins) == Some((ins + InputPoints(e.inputs), i + |Encode(BValue(e))|))
  {
    hide At, Ohdr, Encode, EncodeAll, Fits, ParseInputs;
    var a := Arr(e.w, InputItems(e.inputs));
    match e.set_
    case None =>
      ArrAt(b, i, e.w, InputItems(e.inputs));
      InputsExact(b, i + 1 + e.w, e.inputs, ins);
    case Some(tw) =>
      TaggedAt(b, i, tw, 258, a);
      ArrAt(b, i + 1 + tw, e.w, InputItems(e.inputs));
      InputsExact(b, i + 1 + tw + 1 + e.w, e.inputs, ins);
  }

  lemma InlineDatumExact(b: Bytes, i: nat, f: EField, fuel: nat)
    requires f.EDatum? && Wf(EValue(f)) && At(b, i, Encode(EValue(f))) && Depth(EValue(f)) <= MAX_DEPTH
    requires fuel > MAX_DEPTH && |b| < U64
    ensures ParseDatum(b, i, fuel) == Some((FieldDatum(f, true), i + |Encode(EValue(f))|))
  {
    hide At, Ohdr, RawSkip, Encode, EncodeAll, Fits, LaxHead;
    var s := Str(2, f.w, f.datum);
    var t := Tagged(f.tw, 24, s);
    ArrAt(b, i, f.aw, Cons(f.marker, Cons(t, Nil)));
    ConsAt(b, i + 1 + f.aw, f.marker, Cons(t, Nil));
    RawSkipAt(b, i + 1 + f.aw, f.marker, fuel);
    var at := i + 1 + f.aw + |Encode(f.marker)|;
    ConsAt(b, at, t, Nil);
    TaggedAt(b, at, f.tw, 24, s);
    StrAt(b, at + 1 + f.tw, 2, f.w, f.datum);
    EncodeAllNil();
    LaxIsStrict(b, i);
    LaxIsStrict(b, at);
    LaxIsStrict(b, at + 1 + f.tw);
  }

  /** A head stands where its bytes stand. */
  lemma LaxShift(b: Bytes, i: nat, s: Bytes)
    requires At(b, i, s) && LaxHead(s, 0).Some?
    ensures var h := LaxHead(s, 0).value; LaxHead(b, i) == Some(Head(h.major, h.arg, i + h.next))
  {
    var w := LaxHead(s, 0).value.next;
    assert forall k :: 0 <= k < |s| ==> s[k] == b[i..i + |s|][k] == b[i + k];
    assert s[1..w] == b[i + 1..i + w];
  }

  /** The head inside the hash, where the walk takes the datum's length from. */
  lemma HashHead(b: Bytes, i: nat, f: EField, fuel: nat)
    requires f.EHash? && Wf(EValue(f)) && At(b, i, Encode(EValue(f))) && Depth(EValue(f)) <= MAX_DEPTH
    requires fuel > MAX_DEPTH && |b| < U64 && LaxHead(f.hash, 0).Some?
    ensures var h, at := LaxHead(f.hash, 0).value, i + |Encode(EValue(f))| - |f.hash|;
            && at >= 0 && At(b, at, f.hash)
            && ParseDatum(b, i, fuel)
               == if at + h.next + h.arg > |b| then None
                  else Some((b[at + h.next..at + h.next + h.arg], at + h.next + h.arg))
  {
    hide At, Ohdr, RawSkip, Encode, EncodeAll, Fits, LaxHead;
    var s := Str(2, f.w, f.hash);
    ArrAt(b, i, f.aw, Cons(f.marker, Cons(s, Nil)));
    ConsAt(b, i + 1 + f.aw, f.marker, Cons(s, Nil));
    RawSkipAt(b, i + 1 + f.aw, f.marker, fuel);
    var at := i + 1 + f.aw + |Encode(f.marker)|;
    ConsAt(b, at, s, Nil);
    StrAt(b, at, 2, f.w, f.hash);
    EncodeAllNil();
    AtSlice(b, at + 1 + f.w, f.hash);
    LaxShift(b, at + 1 + f.w, f.hash);
    LaxIsStrict(b, i);
    LaxIsStrict(b, at);
  }

  /** An aligned hash is read as a datum: the bytes after its leading head. */
  lemma HashExact(b: Bytes, i: nat, f: EField, fuel: nat)
    requires f.EHash? && Wf(EValue(f)) && At(b, i, Encode(EValue(f))) && Depth(EValue(f)) <= MAX_DEPTH
    requires fuel > MAX_DEPTH && |b| < U64 && Aligned(f.hash)
    ensures ParseDatum(b, i, fuel) == Some((FieldDatum(f, true), i + |Encode(EValue(f))|))
  {
    hide RawSkip, Encode, EValue, LaxHead, ParseDatum;
    HashHead(b, i, f, fuel);
    var n, at := LaxHead(f.hash, 0).value.next, i + |Encode(EValue(f))| - |f.hash|;
    assert b[at + n..at + |f.hash|] == b[at..at + |f.hash|][n..];
  }

  lemma {:induction false} FieldsExact(b: Bytes, k: nat, fs: EFields, first: bool, fuel: nat, datum: Bytes)
    requires WfAll(EFieldItems(fs)) && At(b, k, EncodeAll(EFieldItems(fs))) && ReadableFields(fs, first)
    requires fuel > MAX_DEPTH && |b| < U64
    ensures Length(EFieldItems(fs)) % 2 == 0
    ensures ParseOutputEntries(b, k, Length(EFieldItems(fs)) / 2, first, fuel, datum)
            == Some((datum + (if first then FieldDatums(fs, true) else []), k + |EncodeAll(EFieldItems(fs))|))
    decreases fs
  {
    hide At, Ohdr, RawSkip, Encode, EncodeAll, Fits, ParseDatum, EValue, FieldDatum, Aligned;
    match fs
    case NoEField =>
      EncodeAllNil();
      assert datum + [] == datum;
    case MoreEFields(e, t) =>
      var at := k + 1 + e.kw;
      FieldAt(b, k, e.kw, EKey(e), EValue(e), EFieldItems(t));
      var more: Bytes := if first then FieldDatum(e, true) else [];
      if first && EKey(e) == 2 {
        if e.EDatum? { InlineDatumExact(b, at, e, fuel); } else { HashExact(b, at, e, fuel); }
      } else {
        RawSkipAt(b, at, EValue(e), fuel);
        NoFieldDatum(e);
        assert datum + [] == datum;
      }
      FieldsExact(b, at + |Encode(EValue(e))|, t, first, fuel, datum + more);
      assert datum + more + FieldDatums(t, true) == datum + (more + FieldDatums(t, true));
  }

  lemma NoFieldDatum(f: EField)
    ensures EKey(f) != 2 ==> FieldDatum(f, true) == []
  {
  }

  lemma {:induction false} OutputsExact(b: Bytes, j: nat, os: EOutputs, first: bool, fuel: nat, datum: Bytes)
    requires WfAll(EOutputItems(os)) && At(b, j, EncodeAll(EOutputItems(os))) && ReadableOutputs(os, first)
    requires fuel > MAX_DEPTH && |b| < U64
    ensures ParseOutputs(b, j, Length(EOutputItems(os)), first, fuel, datum)
            == Some((datum + (if first then FirstDatum(os, true) else []), j + |EncodeAll(EOutputItems(os))|))
    decreases os
  {
    hide At, Ohdr, RawSkip, Encode, EncodeAll, Fits, ParseOutputEntries, FieldDatums;
    assert datum + [] == datum;
    if os.NoEOutput? {
      EncodeAllNil();
    } else {
      var x := EOutputItem(os.output);
      ConsAt(b, j, x, EOutputItems(os.tail));
      match os.output {
        case Legacy(w, xs) =>
          ArrAt(b, j, w, xs);
          RawSkipAt(b, j, x, fuel);
          OutputsExact(b, j + |Encode(x)|, os.tail, false, fuel, datum);
        case Babbage(w, fs) =>
          MapAt(b, j, w, EFieldItems(fs));
          FieldsExact(b, j + 1 + w, fs, first, fuel, datum);
          var next := datum + if first then FieldDatums(fs, true) else [];
          OutputsExact(b, j + |Encode(x)|, os.tail, false, fuel, next);
          assert next + [] == next;
      }
    }
  }

  /** One step over an entry, by its key. */
  lemma EntryStep(b: Bytes, i: nat, n: nat, fuel: nat, acc: Parsed, e: BEntries, at: nat)
    requires n > 0 && !e.NoBEntry? && Ohdr(b, i) == Some(Head(0, BKey(e), at)) && (e.BOther? ==> e.key >= 2)
    ensures ParseEntries(b, i, n, fuel, acc)
            == if e.BInputs? then
                 match ParseInputField(b, at, acc.ins)
                 case None => None
                 case Some(r) => ParseEntries(b, r.1, n - 1, fuel, acc.(ins := r.0))
               else if e.BOutputs? then
                 (if LaxHead(b, at) == None then None
                  else
                    match ParseOutputs(b, LaxHead(b, at).value.next, LaxHead(b, at).value.arg, true, fuel, acc.datum)
                    case None => None
                    case Some(r) => ParseEntries(b, r.1, n - 1, fuel, acc.(datum := r.0)))
               else
                 match RawSkip(b, at, fuel) case None => None case Some(k) => ParseEntries(b, k, n - 1, fuel, acc)
  {
    hide ParseInputField, ParseOutputs, RawSkip, Ohdr;
    LaxIsStrict(b, i);
  }

  lemma {:induction false} EntriesExact(b: Bytes, i: nat, es: BEntries, fuel: nat, acc: Parsed)
    requires WfAll(BItems(es)) && At(b, i, EncodeAll(BItems(es))) && ReadableEntries(es)
    requires fuel > MAX_DEPTH && |b| < U64
    ensures Length(BItems(es)) % 2 == 0
    ensures ParseEntries(b, i, Length(BItems(es)) / 2, fuel, acc)
            == Some(Parsed(acc.ins + Outpoints(es), acc.datum + BodyDatum(es, true)))
    decreases es
  {
    hide At, Ohdr, RawSkip, Encode, EncodeAll, Fits, ParseInputField, ParseOutputs, FirstDatum, ParseEntries,
      InputPoints, BKey;
    assert acc.ins + [] == acc.ins && acc.datum + [] == acc.datum;
    if es.NoBEntry? {
      NoMoreEntries(b, i, fuel, acc);
    } else {
      var x, t, at := BValue(es), es.tail, i + 1 + es.kw;
      FieldAt(b, i, es.kw, BKey(es), x, BItems(t));
      EntryStep(b, i, Length(BItems(t)) / 2 + 1, fuel, acc, es, at);
      var next := acc;
      if es.BInputs? {
        InputFieldExact(b, at, es, acc.ins);
        next := acc.(ins := acc.ins + InputPoints(es.inputs));
      } else if es.BOutputs? {
        ArrAt(b, at, es.w, EOutputItems(es.outputs));
        OutputsExact(b, at + 1 + es.w, es.outputs, true, fuel, acc.datum);
        next := acc.(datum := acc.datum + FirstDatum(es.outputs, true));
      } else {
        RawSkipAt(b, at, x, fuel);
      }
      EntriesExact(b, at + |Encode(x)|, t, fuel, next);
      assert next.ins + Outpoints(t) == acc.ins + Outpoints(es);
      assert next.datum + BodyDatum(t, true) == acc.datum + BodyDatum(es, true);
    }
  }

  lemma NoMoreEntries(b: Bytes, i: nat, fuel: nat, acc: Parsed)
    ensures ParseEntries(b, i, 0, fuel, acc) == Some(acc)
  {
  }

  /** The walk enters the map of an encoded body. */
  lemma ParseStarts(t: TxBody, rest: Bytes, fuel: nat)
    requires Wf(TxItem(t))
    ensures var b := Encode(TxItem(t)) + rest;
            && WfAll(BItems(t.entries)) && At(b, 1 + t.w, EncodeAll(BItems(t.entries)))
            && Parse(b, fuel) == ParseEntries(b, 1 + t.w, Length(BItems(t.entries)) / 2, fuel, Parsed([], []))
  {
    hide At, Ohdr, Encode, EncodeAll, Fits, ParseEntries, BItems, WfAll, Length;
    AtPrefix(Encode(TxItem(t)), rest);
    MapAt(Encode(TxItem(t)) + rest, 0, t.w, BItems(t.entries));
  }

  /** On every encoded body within the limits: exactly the consumed outpoints, in order, and the bytes that field 2 of
      output 0 is read as. */
  lemma ParseExact(t: TxBody, rest: Bytes, fuel: nat)
    requires Wf(TxItem(t)) && Readable(t) && fuel > MAX_DEPTH && |Encode(TxItem(t)) + rest| < U64
    ensures Parse(Encode(TxItem(t)) + rest, fuel) == Some(Parsed(Outpoints(t.entries), BodyDatum(t.entries, true)))
  {
    hide At, Parse, Encode, EncodeAll, ParseEntries, BodyDatum, BItems, WfAll, Length, Wf;
    ParseStarts(t, rest, fuel);
    EntriesExact(Encode(TxItem(t)) + rest, 1 + t.w, t.entries, fuel, Parsed([], []));
    assert [] + Outpoints(t.entries) == Outpoints(t.entries);
    assert [] + BodyDatum(t.entries, true) == BodyDatum(t.entries, true);
  }

  // ---- when that is the declared datum ----

  /** A 32-byte hash that is aligned is read as at least 23 bytes. */
  lemma AlignedIsRead(f: EField)
    requires f.EHash? && |f.hash| == 32 && Aligned(f.hash)
    ensures FieldDatum(f, false) == [] && 23 <= |FieldDatum(f, true)| < 32
  {
  }

  lemma {:induction false} FieldDatumsGrow(fs: EFields)
    requires ReadableFields(fs, true)
    ensures !HasHash(fs) ==> FieldDatums(fs, true) == FieldDatums(fs, false)
    ensures |FieldDatums(fs, true)| >= |FieldDatums(fs, false)| + if HasHash(fs) then 23 else 0
  {
    hide FieldDatum, Aligned;
    if fs.MoreEFields? {
      FieldDatumsGrow(fs.tail);
      if fs.field.EHash? { AlignedIsRead(fs.field); } else { SameFieldDatum(fs.field); }
    }
  }

  lemma SameFieldDatum(f: EField)
    requires !f.EHash?
    ensures FieldDatum(f, true) == FieldDatum(f, false)
  {
  }

  lemma {:induction false} BodyDatumGrows(es: BEntries)
    requires ReadableEntries(es)
    ensures !NamesHash(es) ==> BodyDatum(es, true) == BodyDatum(es, false)
    ensures |BodyDatum(es, true)| >= |BodyDatum(es, false)| + if NamesHash(es) then 23 else 0
  {
    hide FieldDatums, ReadableFields, HasHash;
    if !es.NoBEntry? {
      BodyDatumGrows(es.tail);
      if es.BOutputs? && es.outputs.MoreEOutputs? && es.outputs.output.Babbage? {
        FieldDatumsGrow(es.outputs.output.fields);
      }
    }
  }

  /** What is read is the inline datum of output 0, or nothing if it has none, exactly when output 0 names no hash. */
  lemma ParseIsDeclared(t: TxBody, rest: Bytes, fuel: nat)
    requires Wf(TxItem(t)) && Readable(t) && fuel > MAX_DEPTH && |Encode(TxItem(t)) + rest| < U64
    ensures Parse(Encode(TxItem(t)) + rest, fuel) == Some(Parsed(Outpoints(t.entries), Declared(t)))
            <==> !NamesHash(t.entries)
  {
    hide Parse, Encode, TxItem, BodyDatum, NamesHash, ReadableEntries, Outpoints, Wf;
    ParseExact(t, rest, fuel);
    BodyDatumGrows(t.entries);
  }

  // ---- any hash with a positive leading argument is read as some datum ----

  /** The first field 2 of the output is a 32-byte hash that does not begin with an argument of zero. */
  predicate HashFields(fs: EFields) {
    && fs.MoreEFields? && Depth(EValue(fs.field)) <= MAX_DEPTH
    && if EKey(fs.field) == 2 then
         fs.field.EHash? && |fs.field.hash| == 32 && LaxHead(fs.field.hash, 0).value.arg > 0
       else HashFields(fs.tail)
  }

  /** So it is in output 0 of the first outputs entry; what comes after is not restricted. */
  predicate HashEntries(es: BEntries) {
    && !es.NoBEntry?
    && if es.BOutputs? then
         es.outputs.MoreEOutputs? && es.outputs.output.Babbage? && HashFields(es.outputs.output.fields)
       else (es.BOther? ==> es.key >= 2 && Depth(es.item) <= MAX_DEPTH) && HashEntries(es.tail)
  }

  lemma {:induction false} OutputEntriesGrow(b: Bytes, k: nat, n: nat, first: bool, fuel: nat, datum: Bytes)
    ensures var r := ParseOutputEntries(b, k, n, first, fuel, datum); r.Some? ==> |r.value.0| >= |datum|
    decreases n
  {
    hide LaxHead, ParseDatum, RawSkip;
    if n > 0 && LaxHead(b, k).Some? {
      var key := LaxHead(b, k).value;
      if key.arg == 2 && first {
        var d := ParseDatum(b, key.next, fuel);
        if d.Some? { OutputEntriesGrow(b, d.value.1, n - 1, first, fuel, datum + d.value.0); }
      } else if RawSkip(b, key.next, fuel).Some? {
        OutputEntriesGrow(b, RawSkip(b, key.next, fuel).value, n - 1, first, fuel, datum);
      }
    }
  }

  lemma {:induction false} OutputsGrow(b: Bytes, j: nat, n: nat, first: bool, fuel: nat, datum: Bytes)
    ensures var r := ParseOutputs(b, j, n, first, fuel, datum); r.Some? ==> |r.value.0| >= |datum|
    decreases n
  {
    hide LaxHead, ParseOutputEntries, RawSkip;
    if n > 0 && LaxHead(b, j).Some? {
      var o := LaxHead(b, j).value;
      if o.major == 5 {
        OutputEntriesGrow(b, o.next, o.arg, first, fuel, datum);
        var r := ParseOutputEntries(b, o.next, o.arg, first, fuel, datum);
        if r.Some? { OutputsGrow(b, r.value.1, n - 1, false, fuel, r.value.0); }
      } else if RawSkip(b, j, fuel).Some? {
        OutputsGrow(b, RawSkip(b, j, fuel).value, n - 1, false, fuel, datum);
      }
    }
  }

  lemma {:induction false} EntriesGrow(b: Bytes, i: nat, n: nat, fuel: nat, acc: Parsed)
    ensures var r := ParseEntries(b, i, n, fuel, acc); r.Some? ==> |r.value.datum| >= |acc.datum|
    decreases n
  {
    hide LaxHead, ParseInputField, ParseOutputs, RawSkip;
    if n > 0 && LaxHead(b, i).Some? {
      var key := LaxHead(b, i).value;
      if key.arg == 0 {
        var r := ParseInputField(b, key.next, acc.ins);
        if r.Some? { EntriesGrow(b, r.value.1, n - 1, fuel, acc.(ins := r.value.0)); }
      } else if key.arg == 1 {
        if LaxHead(b, key.next).Some? {
          var o := LaxHead(b, key.next).value;
          OutputsGrow(b, o.next, o.arg, true, fuel, acc.datum);
          var r := ParseOutputs(b, o.next, o.arg, true, fuel, acc.datum);
          if r.Some? { EntriesGrow(b, r.value.1, n - 1, fuel, acc.(datum := r.value.0)); }
        }
      } else if RawSkip(b, key.next, fuel).Some? {
        EntriesGrow(b, RawSkip(b, key.next, fuel).value, n - 1, fuel, acc);
      }
    }
  }

  lemma HashHeadSome(hash: Bytes)
    requires |hash| == 32
    ensures LaxHead(hash, 0).Some?
  {
  }

  lemma {:induction false} HashFieldsRead(b: Bytes, k: nat, fs: EFields, fuel: nat, datum: Bytes)
    requires WfAll(EFieldItems(fs)) && At(b, k, EncodeAll(EFieldItems(fs))) && HashFields(fs)
    requires fuel > MAX_DEPTH && |b| < U64
    ensures Length(EFieldItems(fs)) % 2 == 0
    ensures var r := ParseOutputEntries(b, k, Length(EFieldItems(fs)) / 2, true, fuel, datum);
            r.Some? ==> |r.value.0| > |datum|
    decreases fs
  {
    hide At, Ohdr, RawSkip, Encode, EncodeAll, Fits, ParseDatum, EValue, LaxHead;
    EvenFields(fs);
    var e, t, at := fs.field, fs.tail, k + 1 + fs.field.kw;
    FieldAt(b, k, e.kw, EKey(e), EValue(e), EFieldItems(t));
    LaxIsStrict(b, k);
    if EKey(e) == 2 {
      HashHeadSome(e.hash);
      HashHead(b, at, e, fuel);
      var d := ParseDatum(b, at, fuel);
      if d.Some? {
        OutputEntriesGrow(b, d.value.1, Length(EFieldItems(t)) / 2, true, fuel, datum + d.value.0);
      }
    } else {
      RawSkipAt(b, at, EValue(e), fuel);
      HashFieldsRead(b, at + |Encode(EValue(e))|, t, fuel, datum);
    }
  }

  lemma {:induction false} EvenFields(fs: EFields)
    ensures Length(EFieldItems(fs)) % 2 == 0
  {
    if fs.MoreEFields? { EvenFields(fs.tail); }
  }

  lemma {:induction false} EvenEntries(es: BEntries)
    ensures Length(BItems(es)) % 2 == 0
  {
    if !es.NoBEntry? { EvenEntries(es.tail); }
  }

  lemma {:induction false} HashEntriesRead(b: Bytes, i: nat, es: BEntries, fuel: nat, acc: Parsed)
    requires WfAll(BItems(es)) && At(b, i, EncodeAll(BItems(es))) && HashEntries(es)
    requires fuel > MAX_DEPTH && |b| < U64
    ensures Length(BItems(es)) % 2 == 0
    ensures var r := ParseEntries(b, i, Length(BItems(es)) / 2, fuel, acc); r.Some? ==> |r.value.datum| > |acc.datum|
    decreases es
  {
    hide At, Ohdr, RawSkip, Encode, EncodeAll, Fits, ParseInputField, ParseOutputs, ParseEntries, InputPoints, BKey,
      HashFields;
    EvenEntries(es);
    var x, t, at := BValue(es), es.tail, i + 1 + es.kw;
    var left := Length(BItems(t)) / 2;
    FieldAt(b, i, es.kw, BKey(es), x, BItems(t));
    EntryStep(b, i, left + 1, fuel, acc, es, at);
    if es.BInputs? {
      InputFieldExact(b, at, es, acc.ins);
      HashEntriesRead(b, at + |Encode(x)|, t, fuel, acc.(ins := acc.ins + InputPoints(es.inputs)));
    } else if es.BOutputs? {
      ArrAt(b, at, es.w, EOutputItems(es.outputs));
      HashOutputsRead(b, at + 1 + es.w, es.outputs, fuel, acc.datum);
      var r := ParseOutputs(b, at + 1 + es.w, Length(EOutputItems(es.outputs)), true, fuel, acc.datum);
      if r.Some? { EntriesGrow(b, r.value.1, left, fuel, acc.(datum := r.value.0)); }
    } else {
      RawSkipAt(b, at, x, fuel);
      HashEntriesRead(b, at + |Encode(x)|, t, fuel, acc);
    }
  }

  lemma HashOutputsRead(b: Bytes, j: nat, os: EOutputs, fuel: nat, datum: Bytes)
    requires WfAll(EOutputItems(os)) && At(b, j, EncodeAll(EOutputItems(os)))
    requires os.MoreEOutputs? && os.output.Babbage? && HashFields(os.output.fields) && fuel > MAX_DEPTH && |b| < U64
    ensures var r := ParseOutputs(b, j, Length(EOutputItems(os)), true, fuel, datum); r.Some? ==> |r.value.0| > |datum|
  {
    hide At, Ohdr, RawSkip, Encode, EncodeAll, Fits, ParseOutputEntries, HashFields;
    var x, fs, left := EOutputItem(os.output), os.output.fields, Length(EOutputItems(os.tail));
    ConsAt(b, j, x, EOutputItems(os.tail));
    MapAt(b, j, os.output.w, EFieldItems(fs));
    HashFieldsRead(b, j + 1 + os.output.w, fs, fuel, datum);
    var r := ParseOutputEntries(b, j + 1 + os.output.w, Length(EFieldItems(fs)) / 2, true, fuel, datum);
    if r.Some? { OutputsGrow(b, r.value.1, left, false, fuel, r.value.0); }
  }

  /** A body whose output 0 has such a hash and so no datum is never read as one without a datum: the walk panics, or
      bytes of the hash, and perhaps of what follows, come out as a datum. */
  lemma HashIsNeverEmpty(t: TxBody, rest: Bytes, fuel: nat)
    requires Wf(TxItem(t)) && HashEntries(t.entries) && fuel > MAX_DEPTH && |Encode(TxItem(t)) + rest| < U64
    ensures var r := Parse(Encode(TxItem(t)) + rest, fuel); r.Some? ==> r.value.datum != []
  {
    hide At, Parse, Encode, EncodeAll, ParseEntries, BItems, WfAll, Length, Wf, HashEntries;
    ParseStarts(t, rest, fuel);
    HashEntriesRead(Encode(TxItem(t)) + rest, 1 + t.w, t.entries, fuel, Parsed([], []));
  }

  /** The inputs entry of `OneInput`, in front of others. */
  function Inputs(id: Digest, tail: BEntries): BEntries {
    BInputs(0, None, 0, MoreInputs(0, 1, id, 0, 0, NoInput), tail)
  }

  lemma InputsAre(id: Digest, tail: BEntries)
    ensures BValue(Inputs(id, tail)) == OneInput(id) && Outpoints(Inputs(id, tail)) == [(id, 0)] + Outpoints(tail)
    ensures BItems(Inputs(id, tail)) == Cons(Scalar(0, 0, 0), Cons(OneInput(id), BItems(tail)))
    ensures Outpoints(NoBEntry) == [] && BItems(NoBEntry) == Nil
  {
    assert InputItems(NoInput) == Nil && InputPoints(NoInput) == [];
  }

  /** {0: [[id, 0]], 1: [{0: addr, 1: 5, 2: x}]} */
  function OneOutput(id: Digest, addr: Bytes, x: EField): TxBody {
    TxBody(0, Inputs(id, BOutputs(0, 0, MoreEOutputs(LockOutput(addr, 5, x), NoEOutput), NoBEntry)))
  }

  lemma {:induction false} OneOutputIs(id: Digest, addr: Bytes, x: EField, lax: bool)
    requires |addr| < 256 && x.EHash? && x.kw == 0 && Wf(EValue(x)) && ELimited(x) && Depth(EValue(x)) <= MAX_DEPTH
    requires |x.hash| == 32 && Aligned(x.hash) && |Encode(EValue(x))| < 100
    ensures var t := OneOutput(id, addr, x);
            && Wf(TxItem(t)) && Readable(t) && Outpoints(t.entries) == [(id, 0)]
            && BodyDatum(t.entries, lax) == FieldDatum(x, lax) && |Encode(TxItem(t))| < 1000
  {
    hide EValue, Aligned, FieldDatum, ELimited;
    assert |addr| < Pow256(1) by { assert Pow256(1) == 256; }
    LockOutputIs(addr, 5, x);
    var a, c, last := EAddress(0, 1, addr), ECoin(0, 0, 5), MoreEFields(x, NoEField);
    var fs := MoreEFields(a, MoreEFields(c, last));
    NoFieldDatums(a, c, lax);
    assert FieldDatums(NoEField, lax) == [] && FieldDatums(last, lax) == FieldDatum(x, lax);
    assert FieldDatums(MoreEFields(c, last), lax) == FieldDatum(x, lax) == FieldDatums(fs, lax);
    OneField(x, NoEField);
    OneField(c, last);
    OneField(a, MoreEFields(c, last));
    OneOutputWf(id, fs);
    hide Encode, Wf;
    ReadableMore(c, last);
    ReadableMore(a, MoreEFields(c, last));
    var os := MoreEOutputs(Babbage(0, fs), NoEOutput);
    assert ReadableOutputs(NoEOutput, false) && ReadableOutputs(os, true) && FirstDatum(os, lax) == FieldDatum(x, lax);
    var outs := BOutputs(0, 0, os, NoBEntry);
    InputsAre(id, outs);
    assert ReadableEntries(NoBEntry) && ReadableEntries(outs) && Outpoints(outs) == [];
    assert BodyDatum(NoBEntry, lax) == [] && BodyDatum(outs, lax) == FieldDatum(x, lax);
  }

  lemma ReadableMore(f: EField, t: EFields)
    requires ReadableFields(t, true) && Depth(EValue(f)) <= MAX_DEPTH && EKey(f) != 2
    ensures ReadableFields(MoreEFields(f, t), true)
  {
    hide EValue, EKey;
  }

  lemma NoFieldDatums(a: EField, c: EField, lax: bool)
    requires a.EAddress? && c.ECoin?
    ensures FieldDatum(a, lax) == [] && FieldDatum(c, lax) == []
    ensures Depth(EValue(a)) == Depth(EValue(c)) == 0 && EKey(a) == 0 && EKey(c) == 1
    ensures Fits(a.w, |a.addr|) ==> Wf(EValue(a)) && |Encode(EValue(a))| == 1 + a.w + |a.addr|
    ensures Fits(c.w, c.n) ==> Wf(EValue(c)) && |Encode(EValue(c))| == 1 + c.w
  {
    hide Fits;
  }

  lemma OneOutputWf(id: Digest, fs: EFields)
    requires Wf(EOutputItem(Babbage(0, fs)))
    ensures var t := TxBody(0, Inputs(id, BOutputs(0, 0, MoreEOutputs(Babbage(0, fs), NoEOutput), NoBEntry)));
            Wf(TxItem(t)) && |Encode(TxItem(t))| == 41 + |Encode(EOutputItem(Babbage(0, fs)))|
  {
    hide EOutputItem;
    var x, outs := EOutputItem(Babbage(0, fs)), BOutputs(0, 0, MoreEOutputs(Babbage(0, fs), NoEOutput), NoBEntry);
    assert EOutputItems(NoEOutput) == Nil && BValue(outs) == Arr(0, Cons(x, Nil));
    SingleIs(x);
    OneInputIs(id);
    TwoEntries(0, OneInput(id), 1, BValue(outs));
    hide Encode, OneInput, Wf;
    InputsAre(id, outs);
  }

  lemma HashStart(tail: Bytes)
    requires |tail| == 30
    ensures LaxHead([0x58, 0x1e] + tail, 0) == Some(Head(2, 30, 2))
  {
    assert ([0x58, 0x1e] + tail)[1..2] == [0x1e];
    FromBEOne(0x1e);
  }

  lemma HashOptionIs(x: EField)
    requires x.EHash? && x.aw == 0 && x.marker == Scalar(0, 0, 0) && x.w == 1 && |x.hash| == 32
    ensures Wf(EValue(x)) && ELimited(x) && Depth(EValue(x)) == 1 && |Encode(EValue(x))| == 36
  {
    var y := Str(2, 1, x.hash);
    assert Fits(1, 32) by { assert Pow256(1) == 256; }
    PairIs(x.marker, y);
  }

  /** Thirty bytes of a 32-byte hash, `58 1e` and `tail`, come out as the inline datum of an output that has none. */
  lemma HashReadAsDatum(id: Digest, addr: Bytes, tail: Bytes, fuel: nat)
    requires |addr| < 256 && |tail| == 30 && fuel > MAX_DEPTH
    ensures var t := OneOutput(id, addr, EHash(0, 0, Scalar(0, 0, 0), 1, [0x58, 0x1e] + tail));
            && Wf(TxItem(t)) && |Encode(TxItem(t))| < 1000 && Declared(t) == []
            && Parse(Encode(TxItem(t)), fuel) == Some(Parsed([(id, 0)], tail))
  {
    var hash := [0x58, 0x1e] + tail;
    var x := EHash(0, 0, Scalar(0, 0, 0), 1, hash);
    var t := OneOutput(id, addr, x);
    assert LaxHead(hash, 0) == Some(Head(2, 30, 2)) by { HashStart(tail); }
    HashOptionIs(x);
    assert hash[2..] == tail;
    assert FieldDatum(x, true) == tail && FieldDatum(x, false) == [];
    OneOutputIs(id, addr, x, true);
    OneOutputIs(id, addr, x, false);
    hide OneOutput, Encode, Parse, LaxHead;
    ParseExact(t, [], fuel);
    assert Encode(TxItem(t)) + [] == Encode(TxItem(t));
  }

  lemma ShortHead(b: Bytes, i: nat)
    requires i < |b| && b[i] % 32 < 24
    ensures LaxHead(b, i) == Some(Head(b[i] / 32, b[i] % 32, i + 1))
  {
  }

  /** A map at i whose first field 2 is a 32-byte hash that begins with a zero. */
  lemma ZeroHeadSkipped(b: Bytes, i: nat, n: nat, fuel: nat)
    requires i + 7 <= |b| && fuel > 0 && n > 0
    requires b[i + 1] == 0x02 && b[i + 2] == 0x82 && b[i + 3] == 0x00 && b[i + 4] == 0x58 && b[i + 5] == 0x20
    requires b[i + 6] == 0x00
    ensures ParseOutputEntries(b, i + 1, n, true, fuel, []) == ParseOutputEntries(b, i + 7, n - 1, true, fuel, [])
  {
    ShortHead(b, i + 1);
    ShortHead(b, i + 2);
    ShortHead(b, i + 3);
    ShortHead(b, i + 6);
    assert b[i + 5..i + 6] == [b[i + 5]];
    FromBEOne(b[i + 5]);
    assert LaxHead(b, i + 4) == Some(Head(2, 32, i + 6));
    hide LaxHead;
    assert RawSkip(b, i + 3, fuel) == Some(i + 4);
    assert b[i + 7..i + 7] == [];
    assert ParseDatum(b, i + 2, fuel) == Some(([], i + 7));
    hide ParseDatum, RawSkip;
    NothingMore([]);
  }

  lemma NothingMore(d: Bytes)
    ensures d + [] == d
  {
  }

  /** A body of n entries whose first is {1: [{2: [0, hash]}]} with such a hash: the walk goes on inside it. */
  lemma ZeroHeadGoesOn(b: Bytes, n: nat, fuel: nat)
    requires |b| >= 10 && 0 < n < 24 && fuel > 0 && b[0] == 0xa0 + n && b[1] == 0x01 && b[2] == 0x81 && b[3] == 0xa1
    requires b[4] == 0x02 && b[5] == 0x82 && b[6] == 0x00 && b[7] == 0x58 && b[8] == 0x20 && b[9] == 0x00
    ensures Parse(b, fuel) == ParseEntries(b, 10, n - 1, fuel, Parsed([], []))
  {
    ZeroHeadSkipped(b, 3, 1, fuel);
    ShortHead(b, 0);
    ShortHead(b, 1);
    ShortHead(b, 2);
    ShortHead(b, 3);
    hide LaxHead, RawSkip, ParseDatum;
    assert ParseOutputEntries(b, 10, 0, true, fuel, []) == Some(([], 10));
    assert ParseOutputs(b, 10, 0, false, fuel, []) == Some(([], 10));
    hide ParseOutputEntries;
    assert ParseOutputs(b, 3, 1, true, fuel, []) == Some(([], 10));
    hide ParseOutputs;
    assert ParseEntries(b, 1, n, fuel, Parsed([], [])) == ParseEntries(b, 10, n - 1, fuel, Parsed([], []));
  }

  /** When nothing is read after it, the datum is empty, as declared, */
  lemma ZeroHeadPasses(b: Bytes, fuel: nat)
    requires |b| == 41 && fuel > 0 && b[..10] == [0xa1, 0x01, 0x81, 0xa1, 0x02, 0x82, 0x00, 0x58, 0x20, 0x00]
    ensures Parse(b, fuel) == Some(Parsed([], []))
  {
    var s := b[..10];
    assert b[0] == s[0] && b[1] == s[1] && b[2] == s[2] && b[3] == s[3] && b[4] == s[4];
    assert b[5] == s[5] && b[6] == s[6] && b[7] == s[7] && b[8] == s[8] && b[9] == s[9];
    hide Parse, ParseEntries;
    ZeroHeadGoesOn(b, 1, fuel);
    NoMoreEntries(b, 10, fuel, Parsed([], []));
  }

  /** and when another entry follows, the bytes of the hash decide: these make the walk panic. */
  lemma ZeroHeadPanics(b: Bytes, fuel: nat)
    requires |b| == 43 && fuel > 0 && b[..10] == [0xa2, 0x01, 0x81, 0xa1, 0x02, 0x82, 0x00, 0x58, 0x20, 0x00]
    requires b[10..14] == [0x00, 0x81, 0x82, 0x00]
    ensures Parse(b, fuel) == None
  {
    var s, t := b[..10], b[10..14];
    assert b[0] == s[0] && b[1] == s[1] && b[2] == s[2] && b[3] == s[3] && b[4] == s[4];
    assert b[5] == s[5] && b[6] == s[6] && b[7] == s[7] && b[8] == s[8] && b[9] == s[9];
    assert b[10] == t[0] && b[11] == t[1] && b[12] == t[2] && b[13] == t[3];
    hide Parse;
    ZeroHeadGoesOn(b, 2, fuel);
    ShortHead(b, 10);
    ShortHead(b, 11);
    ShortHead(b, 12);
    ShortHead(b, 13);
    hide LaxHead;
    assert ParseInputs(b, 12, 1, []) == None;
    hide ParseInputs;
    assert ParseInputField(b, 11, []) == None;
  }

  // ---- the seal datum ----

  /** A seal datum: a constructor with an owner, a commitment and, for a leap, a recipient; `rest` is whatever
      follows (further fields, the end mark). Its field array is definite (a head) or indefinite. */
  datatype SealDatum = SealDatum(tw: nat, tag: nat, aw: Option<(nat, nat)>, owner: Item, cw: nat, commitment: Bytes,
                                 rw: nat, recipient: Bytes, rest: Bytes)

  predicate WfSeal(d: SealDatum) {
    && Fits(d.tw, d.tag) && (d.aw.Some? ==> Fits(d.aw.value.0, d.aw.value.1))
    && Wf(d.owner) && Depth(d.owner) <= MAX_DEPTH && Fits(d.cw, |d.commitment|) && Fits(d.rw, |d.recipient|)
  }

  function SealStart(d: SealDatum): (b: Bytes)
    requires WfSeal(d)
  {
    match d.aw case None => [0x9f] case Some(h) => HeadBytes(4, h.0, h.1)
  }

  function SealBytes(d: SealDatum): Bytes
    requires WfSeal(d)
  {
    HeadBytes(6, d.tw, d.tag) + (SealStart(d) + (Encode(d.owner) + (Encode(Str(2, d.cw, d.commitment))
      + (Encode(Str(2, d.rw, d.recipient)) + d.rest))))
  }

  lemma SealStartRead(b: Bytes, i: nat, d: SealDatum)
    requires WfSeal(d) && At(b, i, SealStart(d))
    ensures LaxHead(b, i).Some? && LaxHead(b, i).value.next == i + |SealStart(d)|
  {
    if d.aw.Some? {
      HeadRead(b, i, 4, d.aw.value.0, d.aw.value.1);
    } else {
      assert b[i] == b[i..i + 1][0];
    }
  }

  /** The datum up to the commitment, and `tail`. */
  function UpToCommitment(d: SealDatum, tail: Bytes): Bytes
    requires WfSeal(d)
  {
    HeadBytes(6, d.tw, d.tag) + (SealStart(d) + (Encode(d.owner) + (Encode(Str(2, d.cw, d.commitment)) + tail)))
  }

  /** The commitment is read whatever follows it, so also when nothing does. */
  lemma CommitmentExact(d: SealDatum, tail: Bytes, fuel: nat)
    requires WfSeal(d) && fuel > MAX_DEPTH && |UpToCommitment(d, tail)| < U64
    ensures var b, k := UpToCommitment(d, tail), 1 + d.tw + |SealStart(d)| + |Encode(d.owner)|;
            var c := Str(2, d.cw, d.commitment);
            && SealCommitment(b, fuel) == Some(d.commitment)
            && FieldOne(b, fuel) == Some(k) && RawSkip(b, k, fuel) == Some(k + |Encode(c)|)
            && At(b, k + |Encode(c)|, tail)
  {
    hide At, Ohdr, RawSkip, Encode, Fits, HeadBytes, SealStart, UpToCommitment, LaxHead, Depth;
    var b, j, c := UpToCommitment(d, tail), 1 + d.tw + |SealStart(d)|, Str(2, d.cw, d.commitment);
    CommitmentParts(d, tail);
    HeadRead(b, 0, 6, d.tw, d.tag);
    LaxIsStrict(b, 0);
    SealStartRead(b, 1 + d.tw, d);
    RawSkipAt(b, j, d.owner, fuel);
    var k := j + |Encode(d.owner)|;
    StrAt(b, k, 2, d.cw, d.commitment);
    LaxIsStrict(b, k);
    StringDepth(2, d.cw, d.commitment);
    RawSkipAt(b, k, c, fuel);
  }

  lemma CommitmentParts(d: SealDatum, tail: Bytes)
    requires WfSeal(d)
    ensures var b, i := UpToCommitment(d, tail), 1 + d.tw;
            var j, c := i + |SealStart(d)|, Str(2, d.cw, d.commitment);
            && At(b, 0, HeadBytes(6, d.tw, d.tag)) && At(b, i, SealStart(d)) && At(b, j, Encode(d.owner))
            && At(b, j + |Encode(d.owner)|, Encode(c)) && At(b, j + |Encode(d.owner)| + |Encode(c)|, tail)
  {
    hide At, Encode, Fits, HeadBytes, SealStart, Depth;
    var b := UpToCommitment(d, tail);
    AtWhole(b);
    FourParts(b, HeadBytes(6, d.tw, d.tag), SealStart(d), Encode(d.owner), Encode(Str(2, d.cw, d.commitment)), tail);
  }

  /** Both readers are exact on both array forms. */
  lemma SealReadersExact(d: SealDatum, fuel: nat)
    requires WfSeal(d) && fuel > MAX_DEPTH && |SealBytes(d)| < U64
    ensures SealCommitment(SealBytes(d), fuel) == Some(d.commitment)
    ensures SealRecipient(SealBytes(d), fuel) == Some(d.recipient)
  {
    hide At, Ohdr, RawSkip, Encode, Fits, HeadBytes, SealStart, LaxHead, Depth, FieldOne, SealCommitment;
    var b, r := SealBytes(d), Str(2, d.rw, d.recipient);
    assert b == UpToCommitment(d, Encode(r) + d.rest);
    hide SealBytes, UpToCommitment;
    CommitmentExact(d, Encode(r) + d.rest, fuel);
    var k := FieldOne(b, fuel).value;
    var l := RawSkip(b, k, fuel).value;
    AtSplit(b, l, Encode(r), d.rest);
    StrAt(b, l, 2, d.rw, d.recipient);
    LaxIsStrict(b, l);
  }

  // ---- one datum option ----

  function FieldOptions(fs: EFields): nat {
    if fs.NoEField? then 0 else (if EKey(fs.field) == 2 then 1 else 0) + FieldOptions(fs.tail)
  }

  /** How often output 0 has a field 2. */
  function Options(es: BEntries): nat {
    if es.NoBEntry? then 0
    else
      var here := es.BOutputs? && es.outputs.MoreEOutputs? && es.outputs.output.Babbage?;
      (if here then FieldOptions(es.outputs.output.fields) else 0) + Options(es.tail)
  }

  lemma {:induction false} FieldsShort(fs: EFields)
    requires ReadableFields(fs, true)
    ensures FieldOptions(fs) == 0 ==> FieldDatums(fs, true) == [] && !HasHash(fs)
    ensures FieldOptions(fs) <= 1 && HasHash(fs) ==> |FieldDatums(fs, true)| < 32
  {
    hide FieldDatum, Aligned;
    if fs.MoreEFields? {
      FieldsShort(fs.tail);
      if fs.field.EHash? { AlignedIsRead(fs.field); } else { NoFieldDatum(fs.field); }
    }
  }

  /** A single aligned hash is read as fewer than 32 bytes. */
  lemma {:induction false} OneHashIsShort(es: BEntries)
    requires ReadableEntries(es)
    ensures Options(es) == 0 ==> BodyDatum(es, true) == [] && !NamesHash(es)
    ensures Options(es) <= 1 && NamesHash(es) ==> |BodyDatum(es, true)| < 32
  {
    hide FieldDatums, ReadableFields, HasHash, FieldOptions;
    if !es.NoBEntry? {
      OneHashIsShort(es.tail);
      if es.BOutputs? && es.outputs.MoreEOutputs? && es.outputs.output.Babbage? {
        FieldsShort(es.outputs.output.fields);
      }
    }
  }

  /** A commitment is shorter than the datum it stands in, so the 30 bytes of a hash never hold a 32-byte one. */
  lemma CommitmentIsShorter(d: Bytes, fuel: nat)
    ensures var c := SealCommitment(d, fuel); c.Some? ==> |c.value| < |d|
  {
    hide RawSkip;
  }

  lemma LaxIsStrict(b: Bytes, i: nat)
    ensures Ohdr(b, i).Some? ==> LaxHead(b, i) == Ohdr(b, i)
  {
  }

  lemma StringDepth(m: nat, w: nat, s: Bytes)
    ensures Depth(Str(m, w, s)) == 0
  {
  }
}
