/** `escrow_output` and the escrow datum readers: the locked lovelace, and the recipient and amount that
    the inline datum binds. */
module EscrowWalk {
  import opened Basics
  import opened Cbor
  import opened SealWalk

  // ---- the walker ----

  /** What one map output showed: address slice, coin and datum. */
  datatype Found = Found(lo: nat, hi: nat, coin: Option<nat>, datum: Option<Bytes>)

  function ReadCoin(b: Bytes, i: nat): Option<(nat, nat)> {
    var v :- Ohdr(b, i);
    if v.major == 0 then Some((v.arg, v.next))
    else if v.major == 4 then
      var c :- Ohdr(b, v.next);
      if c.major != 0 then None
      else
        var e :- Skip(b, c.next, 0);
        Some((c.arg, e))
    else None
  }

  /** `[marker, 24(bytes)]`: the datum bytes and where they end. */
  function ReadDatum(b: Bytes, i: nat): Option<(Bytes, nat)> {
    var d :- Ohdr(b, i);
    if d.major != 4 then None
    else
      var nk :- Skip(b, d.next, 0);
      var t :- Ohdr(b, nk);
      if t.major != 6 || t.arg != 24 then None
      else
        var s :- Ohdr(b, t.next);
        if s.major != 2 || s.next + s.arg > |b| then None
        else Some((b[s.next..s.next + s.arg], s.next + s.arg))
  }

  function EscrowFields(b: Bytes, k: nat, n: nat, f: Found): Option<(Found, nat)>
    decreases n, b
  {
    if n == 0 then Some((f, k))
    else
      var key :- Ohdr(b, k);
      if key.arg == 0 then
        var a :- Ohdr(b, key.next);
        if a.major != 2 || a.next + a.arg > |b| then None
        else EscrowFields(b, a.next + a.arg, n - 1, f.(lo := a.next, hi := a.next + a.arg))
      else if key.arg == 1 then
        var c :- ReadCoin(b, key.next);
        EscrowFields(b, c.1, n - 1, f.(coin := Some(c.0)))
      else if key.arg == 2 then
        var d :- ReadDatum(b, key.next);
        EscrowFields(b, d.1, n - 1, f.(datum := Some(d.0)))
      else
        var e :- Skip(b, key.next, 0);
        EscrowFields(b, e, n - 1, f)
  }

  predicate AtEscrow(b: Bytes, f: Found, addr: Bytes) {
    f.coin.Some? && f.lo < f.hi <= |b| && b[f.lo..f.hi] == addr && f.datum.Some?
  }

  function EscrowOutputs(b: Bytes, j: nat, n: nat, addr: Bytes): Option<(nat, Bytes)>
    decreases n, b
  {
    if n == 0 then None
    else
      var h :- Ohdr(b, j);
      if h.major == 5 then
        var r :- EscrowFields(b, h.next, h.arg, Found(0, 0, None, None));
        if AtEscrow(b, r.0, addr) then Some((r.0.coin.value, r.0.datum.value))
        else EscrowOutputs(b, r.1, n - 1, addr)
      else if h.major == 4 then
        var e :- Skip(b, j, 0);
        EscrowOutputs(b, e, n - 1, addr)
      else None
  }

  function EscrowEntries(b: Bytes, i: nat, n: nat, addr: Bytes): Option<(nat, Bytes)>
    decreases n, b
  {
    if n == 0 then None
    else
      var key :- Ohdr(b, i);
      if key.major != 0 then None
      else if key.arg == 1 then
        var o :- Ohdr(b, key.next);
        if o.major != 4 then None else EscrowOutputs(b, o.next, o.arg, addr)
      else
        var e :- Skip(b, key.next, 0);
        EscrowEntries(b, e, n - 1, addr)
  }

  /** `escrow_output`. */
  function EscrowOutput(b: Bytes, addr: Bytes): Option<(nat, Bytes)> {
    var h :- Ohdr(b, 0);
    if h.major != 5 then None else EscrowEntries(b, h.next, h.arg, addr)
  }

  method ComputeEscrowFields(b: Bytes, start: nat, n: nat) returns (r: Option<(Found, nat)>)
    ensures r == EscrowFields(b, start, n, Found(0, 0, None, None))
  {
    hide Ohdr, Skip, ReadCoin, ReadDatum;
    var k: nat, left: nat, f := start, n, Found(0, 0, None, None);
    while left > 0
      invariant EscrowFields(b, start, n, Found(0, 0, None, None)) == EscrowFields(b, k, left, f)
    {
      var key := Ohdr(b, k);
      if key == None { return None; }
      var Head(_, ek, eki) := key.value;
      if ek == 0 {
        var a := Ohdr(b, eki);
        if a == None || a.value.major != 2 { return None; }
        var e := a.value.next + a.value.arg;
        if e > |b| { return None; }
        f, k := f.(lo := a.value.next, hi := e), e;
      } else if ek == 1 {
        var c := ReadCoin(b, eki);
        if c == None { return None; }
        f, k := f.(coin := Some(c.value.0)), c.value.1;
      } else if ek == 2 {
        var d := ReadDatum(b, eki);
        if d == None { return None; }
        f, k := f.(datum := Some(d.value.0)), d.value.1;
      } else {
        var e := OSkip(b, eki, 0);
        if e == None { return None; }
        k := e.value;
      }
      left := left - 1;
    }
    return Some((f, k));
  }

  method ComputeEscrowOutput(b: Bytes, addr: Bytes) returns (r: Option<(nat, Bytes)>)
    ensures r == EscrowOutput(b, addr)
  {
    hide Ohdr, Skip, EscrowFields;
    var h := Ohdr(b, 0);
    if h == None || h.value.major != 5 { return None; }
    var i: nat, left: nat := h.value.next, h.value.arg;
    while left > 0
      invariant EscrowEntries(b, h.value.next, h.value.arg, addr) == EscrowEntries(b, i, left, addr)
    {
      var key := Ohdr(b, i);
      if key == None || key.value.major != 0 { return None; }
      if key.value.arg == 1 {
        var o := Ohdr(b, key.value.next);
        if o == None || o.value.major != 4 { return None; }
        var j: nat, outs: nat := o.value.next, o.value.arg;
        while outs > 0
          invariant EscrowOutputs(b, o.value.next, o.value.arg, addr) == EscrowOutputs(b, j, outs, addr)
        {
          var out := Ohdr(b, j);
          if out == None { return None; }
          if out.value.major == 5 {
            var f := ComputeEscrowFields(b, out.value.next, out.value.arg);
            if f == None { return None; }
            if AtEscrow(b, f.value.0, addr) {
              return Some((f.value.0.coin.value, f.value.0.datum.value));
            }
            j := f.value.1;
          } else if out.value.major == 4 {
            var e := OSkip(b, j, 0);
            if e == None { return None; }
            j := e.value;
          } else {
            return None;
          }
          outs := outs - 1;
        }
        return None;
      }
      var next := OSkip(b, key.value.next, 0);
      if next == None { return None; }
      i, left := next.value, left - 1;
    }
    return None;
  }

  /** Offset of the first field of a constructor, in the definite or the indefinite array form. */
  function ConstrFields(d: Bytes): Option<nat> {
    var t :- Ohdr(d, 0);
    if t.major != 6 || t.next >= |d| then None
    else if d[t.next] == 0x9f then Some(t.next + 1)
    else if d[t.next] / 32 == 4 then
      var a :- Ohdr(d, t.next);
      Some(a.next)
    else None
  }

  /** `datum_recipient`. */
  function DatumRecipient(d: Bytes): Option<Bytes> {
    var i :- ConstrFields(d);
    var r :- Ohdr(d, i);
    if r.major != 2 || r.next + r.arg > |d| then None else Some(d[r.next..r.next + r.arg])
  }

  /** `datum_amount`. */
  function DatumAmount(d: Bytes): Option<int> {
    var i :- ConstrFields(d);
    var j :- Skip(d, i, 0);
    var a :- Ohdr(d, j);
    if a.major == 0 then Some(a.arg) else if a.major == 1 then Some(-1 - a.arg) else None
  }

  // ---- what a body says, and how it is written ----

  datatype EField =
    | EAddress(kw: nat, w: nat, addr: Bytes)
    | ECoin(kw: nat, w: nat, n: nat)
    | EAssets(kw: nat, aw: nat, w: nat, n: nat, assets: Item)          // [coin, multiasset]
    | EDatum(kw: nat, aw: nat, marker: Item, tw: nat, w: nat, datum: Bytes)
    | EHash(kw: nat, aw: nat, marker: Item, w: nat, hash: Bytes)     // a datum given by its hash
    | EOther(kw: nat, key: nat, item: Item)

  datatype EFields = NoEField | MoreEFields(field: EField, tail: EFields)

  datatype EOutput = Legacy(w: nat, items: Items) | Babbage(w: nat, fields: EFields)

  datatype EOutputs = NoEOutput | MoreEOutputs(output: EOutput, tail: EOutputs)

  datatype EBody = EBody(w: nat, before: Entries, kw: nat, ow: nat, outputs: EOutputs, after: Entries)

  function EKey(f: EField): nat {
    match f
    case EAddress(_, _, _) => 0
    case ECoin(_, _, _) => 1
    case EAssets(_, _, _, _, _) => 1
    case EDatum(_, _, _, _, _, _) => 2
    case EHash(_, _, _, _, _) => 2
    case EOther(_, key, _) => key
  }

  function EValue(f: EField): Item {
    match f
    case EAddress(_, w, a) => Str(2, w, a)
    case ECoin(_, w, n) => Scalar(0, w, n)
    case EAssets(_, aw, w, n, x) => Arr(aw, Cons(Scalar(0, w, n), Cons(x, Nil)))
    case EDatum(_, aw, m, tw, w, d) => Arr(aw, Cons(m, Cons(Tagged(tw, 24, Str(2, w, d)), Nil)))
    case EHash(_, aw, m, w, hash) => Arr(aw, Cons(m, Cons(Str(2, w, hash), Nil)))
    case EOther(_, _, x) => x
  }

  function EFieldItems(fs: EFields): Items {
    match fs
    case NoEField => Nil
    case MoreEFields(f, t) => Cons(Scalar(0, f.kw, EKey(f)), Cons(EValue(f), EFieldItems(t)))
  }

  function EOutputItem(o: EOutput): Item {
    match o case Legacy(w, xs) => Arr(w, xs) case Babbage(w, fs) => Map(w, EFieldItems(fs))
  }

  function EOutputItems(os: EOutputs): Items {
    match os case NoEOutput => Nil case MoreEOutputs(o, t) => Cons(EOutputItem(o), EOutputItems(t))
  }

  function EFrom(es: Entries, t: EBody): Items {
    EntryItems(es, Cons(Scalar(0, t.kw, 1), Cons(Arr(t.ow, EOutputItems(t.outputs)), EntryItems(t.after, Nil))))
  }

  function EBodyItem(t: EBody): Item {
    Map(t.w, EFrom(t.before, t))
  }

  /** The last field of each kind. */
  function EAddressOf(fs: EFields): Option<Bytes> {
    if fs.NoEField? then None
    else if EAddressOf(fs.tail) != None then EAddressOf(fs.tail)
    else if fs.field.EAddress? then Some(fs.field.addr) else None
  }

  function ECoinOf(fs: EFields): Option<nat> {
    if fs.NoEField? then None
    else if ECoinOf(fs.tail) != None then ECoinOf(fs.tail)
    else if fs.field.ECoin? || fs.field.EAssets? then Some(fs.field.n) else None
  }

  function EDatumOf(fs: EFields): Option<Bytes> {
    if fs.NoEField? then None
    else if EDatumOf(fs.tail) != None then EDatumOf(fs.tail)
    else if fs.field.EDatum? then Some(fs.field.datum) else None
  }

  /** A map output at `addr` with both an amount and an inline datum. */
  predicate Complete(o: EOutput, addr: Bytes) {
    o.Babbage? && EAddressOf(o.fields) == Some(addr) && ECoinOf(o.fields).Some? && EDatumOf(o.fields).Some?
  }

  /** Coin and datum of every complete output at `addr`, in order. */
  function Locks(os: EOutputs, addr: Bytes): seq<(nat, Bytes)> {
    if os.NoEOutput? then []
    else if Complete(os.output, addr) then
      [(ECoinOf(os.output.fields).value, EDatumOf(os.output.fields).value)] + Locks(os.tail, addr)
    else Locks(os.tail, addr)
  }

  predicate HasHash(fs: EFields) {
    fs.MoreEFields? && (fs.field.EHash? || HasHash(fs.tail))
  }

  /** Some map output up to and including the first complete one at `addr` gives its datum by hash. */
  predicate Blocked(os: EOutputs, addr: Bytes) {
    os.MoreEOutputs?
    && ((os.output.Babbage? && HasHash(os.output.fields)) || (!Complete(os.output, addr) && Blocked(os.tail, addr)))
  }

  /** What the walk can see: the first complete output, unless it is blocked. */
  function Reached(os: EOutputs, addr: Bytes): Option<(nat, Bytes)> {
    if Locks(os, addr) == [] || Blocked(os, addr) then None else Some(Locks(os, addr)[0])
  }

  predicate ELimited(f: EField) {
    match f
    case EAssets(_, _, _, _, x) => Depth(x) <= MAX_DEPTH
    case EDatum(_, _, m, _, _, _) => Depth(m) <= MAX_DEPTH
    case EHash(_, _, m, _, _) => Depth(m) <= MAX_DEPTH
    case EOther(_, key, x) => key >= 3 && Depth(x) <= MAX_DEPTH
    case _ => true
  }

  predicate EFieldsLimited(fs: EFields) {
    fs.MoreEFields? ==> ELimited(fs.field) && EFieldsLimited(fs.tail)
  }

  predicate EOutputsLimited(os: EOutputs) {
    os.MoreEOutputs? ==>
      && EOutputsLimited(os.tail)
      && (if os.output.Legacy? then Depth(EOutputItem(os.output)) <= MAX_DEPTH else EFieldsLimited(os.output.fields))
  }

  // ---- the walker is exact on encodings ----

  lemma CoinExact(b: Bytes, i: nat, f: EField)
    requires (f.ECoin? || f.EAssets?) && Wf(EValue(f)) && At(b, i, Encode(EValue(f))) && ELimited(f)
    ensures ReadCoin(b, i) == Some((f.n, i + |Encode(EValue(f))|))
  {
    hide At, Ohdr, Skip, Encode, EncodeAll, Fits;
    if f.ECoin? {
      ScalarAt(b, i, 0, f.w, f.n);
    } else {
      var c := Scalar(0, f.w, f.n);
      ArrAt(b, i, f.aw, Cons(c, Cons(f.assets, Nil)));
      ConsAt(b, i + 1 + f.aw, c, Cons(f.assets, Nil));
      ScalarAt(b, i + 1 + f.aw, 0, f.w, f.n);
      ConsAt(b, i + 1 + f.aw + |Encode(c)|, f.assets, Nil);
      SkipComplete(b, i + 1 + f.aw + |Encode(c)|, f.assets, 0);
      EncodeAllNil();
    }
  }

  lemma DatumExact(b: Bytes, i: nat, f: EField)
    requires f.EDatum? && Wf(EValue(f)) && At(b, i, Encode(EValue(f))) && ELimited(f)
    ensures ReadDatum(b, i) == Some((f.datum, i + |Encode(EValue(f))|))
  {
    hide At, Ohdr, Skip, Encode, EncodeAll, Fits;
    var s := Str(2, f.w, f.datum);
    var t := Tagged(f.tw, 24, s);
    ArrAt(b, i, f.aw, Cons(f.marker, Cons(t, Nil)));
    ConsAt(b, i + 1 + f.aw, f.marker, Cons(t, Nil));
    SkipComplete(b, i + 1 + f.aw, f.marker, 0);
    var at := i + 1 + f.aw + |Encode(f.marker)|;
    ConsAt(b, at, t, Nil);
    TaggedAt(b, at, f.tw, 24, s);
    StrAt(b, at + 1 + f.tw, 2, f.w, f.datum);
    EncodeAllNil();
  }

  /** The walk gives up on a datum that is only named by its hash. */
  lemma HashRefused(b: Bytes, i: nat, f: EField)
    requires f.EHash? && Wf(EValue(f)) && At(b, i, Encode(EValue(f))) && ELimited(f)
    ensures ReadDatum(b, i) == None
  {
    hide At, Ohdr, Skip, Encode, EncodeAll, Fits;
    var s := Str(2, f.w, f.hash);
    ArrAt(b, i, f.aw, Cons(f.marker, Cons(s, Nil)));
    ConsAt(b, i + 1 + f.aw, f.marker, Cons(s, Nil));
    SkipComplete(b, i + 1 + f.aw, f.marker, 0);
    var at := i + 1 + f.aw + |Encode(f.marker)|;
    ConsAt(b, at, s, Nil);
    StrAt(b, at, 2, f.w, f.hash);
  }

  predicate FoundFields(b: Bytes, fs: EFields, old_: Found, new_: Found) {
    && (match EAddressOf(fs)
        case None => new_.lo == old_.lo && new_.hi == old_.hi
        case Some(a) => new_.lo + |a| == new_.hi <= |b| && b[new_.lo..new_.hi] == a)
    && new_.coin == (if ECoinOf(fs) == None then old_.coin else ECoinOf(fs))
    && new_.datum == (if EDatumOf(fs) == None then old_.datum else EDatumOf(fs))
  }

  lemma EFieldStep(b: Bytes, k: nat, n: nat, f: Found, key: Head, next: Found, x: nat)
    requires n > 0 && Ohdr(b, k) == Some(key)
    requires if key.arg == 0 then
               && Ohdr(b, key.next).Some? && Ohdr(b, key.next).value.major == 2
               && Ohdr(b, key.next).value.next + Ohdr(b, key.next).value.arg == x <= |b|
               && next == f.(lo := Ohdr(b, key.next).value.next, hi := x)
             else if key.arg == 1 then
               ReadCoin(b, key.next).Some? && ReadCoin(b, key.next).value.1 == x
               && next == f.(coin := Some(ReadCoin(b, key.next).value.0))
             else if key.arg == 2 then
               ReadDatum(b, key.next).Some? && ReadDatum(b, key.next).value.1 == x
               && next == f.(datum := Some(ReadDatum(b, key.next).value.0))
             else Skip(b, key.next, 0) == Some(x) && next == f
    ensures EscrowFields(b, k, n, f) == EscrowFields(b, x, n - 1, next)
  {
    hide Ohdr, Skip, ReadCoin, ReadDatum;
  }

  lemma EFieldFails(b: Bytes, k: nat, n: nat, f: Found, next: nat)
    requires n > 0 && Ohdr(b, k) == Some(Head(0, 2, next)) && ReadDatum(b, next) == None
    ensures EscrowFields(b, k, n, f) == None
  {
    hide Ohdr, Skip, ReadCoin, ReadDatum;
  }

  lemma {:induction false} EscrowFieldsExact(b: Bytes, k: nat, fs: EFields, f: Found)
    requires WfAll(EFieldItems(fs)) && At(b, k, EncodeAll(EFieldItems(fs))) && EFieldsLimited(fs)
    ensures Length(EFieldItems(fs)) % 2 == 0
    ensures var r := EscrowFields(b, k, Length(EFieldItems(fs)) / 2, f);
            if HasHash(fs) then r == None
            else r.Some? && r.value.1 == k + |EncodeAll(EFieldItems(fs))| && FoundFields(b, fs, f, r.value.0)
    decreases fs
  {
    hide At, Ohdr, Skip, Encode, EncodeAll, Fits, EscrowFields, ReadCoin, ReadDatum, EValue;
    match fs
    case NoEField =>
      EncodeAllNil();
      EscrowFieldsNil(b, k, f);
    case MoreEFields(e, t) =>
      var at := k + 1 + e.kw;
      FieldAt(b, k, e.kw, EKey(e), EValue(e), EFieldItems(t));
      var next := f;
      if e.EAddress? {
        AddressValue(e);
        StrAt(b, at, 2, e.w, e.addr);
        next := f.(lo := at + 1 + e.w, hi := at + 1 + e.w + |e.addr|);
      } else if e.ECoin? || e.EAssets? {
        CoinExact(b, at, e);
        next := f.(coin := Some(e.n));
      } else if e.EDatum? {
        DatumExact(b, at, e);
        next := f.(datum := Some(e.datum));
      } else if e.EHash? {
        HashRefused(b, at, e);
        EFieldFails(b, k, Length(EFieldItems(t)) / 2 + 1, f, at);
      } else {
        OtherValue(e);
        SkipComplete(b, at, e.item, 0);
      }
      EscrowFieldsExact(b, at + |Encode(EValue(e))|, t, next);
      if !e.EHash? {
        EFieldStep(b, k, Length(EFieldItems(t)) / 2 + 1, f, Head(0, EKey(e), at), next, at + |Encode(EValue(e))|);
      }
  }

  lemma AddressValue(e: EField)
    requires e.EAddress?
    ensures EValue(e) == Str(2, e.w, e.addr)
  {
  }

  lemma OtherValue(e: EField)
    requires e.EOther?
    ensures EValue(e) == e.item
  {
  }

  lemma EscrowFieldsNil(b: Bytes, k: nat, f: Found)
    ensures EscrowFields(b, k, 0, f) == Some((f, k))
  {
  }

  lemma {:induction false} EscrowOutputsExact(b: Bytes, j: nat, os: EOutputs, addr: Bytes)
    requires WfAll(EOutputItems(os)) && At(b, j, EncodeAll(EOutputItems(os))) && EOutputsLimited(os) && addr != []
    ensures EscrowOutputs(b, j, Length(EOutputItems(os)), addr) == Reached(os, addr)
    decreases os
  {
    hide At, Ohdr, Skip, Encode, EncodeAll, Fits, EscrowFields;
    if os.MoreEOutputs? {
      var x := EOutputItem(os.output);
      ConsAt(b, j, x, EOutputItems(os.tail));
      match os.output {
        case Legacy(w, xs) =>
          ArrAt(b, j, w, xs);
          SkipComplete(b, j, x, 0);
        case Babbage(w, fs) =>
          MapAt(b, j, w, EFieldItems(fs));
          EscrowFieldsExact(b, j + 1 + w, fs, Found(0, 0, None, None));
      }
      EscrowOutputsExact(b, j + |Encode(x)|, os.tail, addr);
    }
  }

  lemma {:induction false} EscrowEntriesExact(b: Bytes, i: nat, es: Entries, t: EBody, addr: Bytes)
    requires WfAll(EFrom(es, t)) && At(b, i, EncodeAll(EFrom(es, t)))
    requires EntriesLimited(es) && EOutputsLimited(t.outputs) && addr != []
    ensures Length(EFrom(es, t)) >= 2
    ensures EscrowEntries(b, i, Length(EFrom(es, t)) / 2, addr) == Reached(t.outputs, addr)
    decreases es
  {
    hide At, Ohdr, Skip, Encode, EncodeAll, Fits, EscrowOutputs, Reached;
    match es
    case NoEntry =>
      FieldAt(b, i, t.kw, 1, Arr(t.ow, EOutputItems(t.outputs)), EntryItems(t.after, Nil));
      ArrAt(b, i + 1 + t.kw, t.ow, EOutputItems(t.outputs));
      EscrowOutputsExact(b, i + 1 + t.kw + 1 + t.ow, t.outputs, addr);
    case Entry(kw, key, x, rest) =>
      FieldAt(b, i, kw, key, x, EFrom(rest, t));
      SkipComplete(b, i + 1 + kw, x, 0);
      EscrowEntriesExact(b, i + 1 + kw + |Encode(x)|, rest, t, addr);
  }

  /** On every encoded body: the coin and inline datum of the first complete output at the escrow address, and None
      exactly when there is none, or a map output up to and including it names its datum by hash. */
  lemma EscrowOutputExact(t: EBody, rest: Bytes, addr: Bytes)
    requires Wf(EBodyItem(t)) && EntriesLimited(t.before) && EOutputsLimited(t.outputs) && addr != []
    ensures EscrowOutput(Encode(EBodyItem(t)) + rest, addr) == Reached(t.outputs, addr)
  {
    var b := Encode(EBodyItem(t)) + rest;
    hide At, Ohdr, Skip, Encode, EncodeAll, Fits, EscrowEntries, Reached;
    AtPrefix(Encode(EBodyItem(t)), rest);
    MapAt(b, 0, t.w, EFrom(t.before, t));
    EscrowEntriesExact(b, 1 + t.w, t.before, t, addr);
  }

  /** The lovelace of all the locks. */
  function LockedSum(locks: seq<(nat, Bytes)>): nat {
    if locks == [] then 0 else locks[0].0 + LockedSum(locks[1..])
  }

  /** The locks that the walk never returns, whatever is minted: all of them when it is blocked, else all but the
      first. */
  function Stranded(os: EOutputs, addr: Bytes): seq<(nat, Bytes)> {
    if Locks(os, addr) == [] || Blocked(os, addr) then Locks(os, addr) else Locks(os, addr)[1..]
  }

  /** Of the lovelace a body locks at an address, exactly the stranded part cannot be minted: one body mints one
      lock. */
  lemma OneLockPerBody(t: EBody, addr: Bytes)
    requires Wf(EBodyItem(t)) && EntriesLimited(t.before) && EOutputsLimited(t.outputs) && addr != []
    ensures var r := EscrowOutput(Encode(EBodyItem(t)), addr);
            (if r.Some? then r.value.0 else 0) + LockedSum(Stranded(t.outputs, addr))
                == LockedSum(Locks(t.outputs, addr))
  {
    hide EscrowOutput, EBodyItem, Encode, Wf, Locks, Blocked;
    EscrowOutputExact(t, [], addr);
    assert Encode(EBodyItem(t)) + [] == Encode(EBodyItem(t));
  }

  /** {0: addr, 1: coin, 2: datum} */
  function LockOutput(addr: Bytes, coin: nat, datum: EField): EOutput {
    Babbage(0, MoreEFields(EAddress(0, 1, addr), MoreEFields(ECoin(0, 0, coin), MoreEFields(datum, NoEField))))
  }

  lemma LockOutputIs(addr: Bytes, coin: nat, datum: EField)
    requires |addr| < 256 && coin < 24 && datum.kw == 0 && EKey(datum) == 2 && Wf(EValue(datum)) && ELimited(datum)
    requires datum.EDatum? || datum.EHash?
    ensures var o := LockOutput(addr, coin, datum);
            && o.Babbage? && Wf(EOutputItem(o)) && EFieldsLimited(o.fields) && HasHash(o.fields) == datum.EHash?
            && EAddressOf(o.fields) == Some(addr) && ECoinOf(o.fields) == Some(coin)
            && EDatumOf(o.fields) == (if datum.EDatum? then Some(datum.datum) else None)
            && |Encode(EOutputItem(o))| < 500 + |Encode(EValue(datum))|
  {
    var a, c := EAddress(0, 1, addr), ECoin(0, 0, coin);
    var last := MoreEFields(datum, NoEField);
    var more := MoreEFields(c, last);
    hide EValue, EKey;
    OneField(datum, NoEField);
    OneField(c, last);
    OneField(a, more);
    assert EKey(a) == 0 && EKey(c) == 1 && Wf(EValue(a)) && Wf(EValue(c)) by {
      FieldValues(a, c);
      assert Pow256(1) == 256;
    }
    assert |Encode(EValue(a))| < 300 && |Encode(EValue(c))| == 1 by { FieldValues(a, c); }
  }

  lemma FieldValues(a: EField, c: EField)
    requires a.EAddress? && c.ECoin?
    ensures EKey(a) == 0 && EKey(c) == 1 && EValue(a) == Str(2, a.w, a.addr) && EValue(c) == Scalar(0, c.w, c.n)
  {
  }

  lemma OneField(f: EField, t: EFields)
    ensures Length(EFieldItems(MoreEFields(f, t))) == 2 + Length(EFieldItems(t))
    ensures WfAll(EFieldItems(MoreEFields(f, t))) <==> Fits(f.kw, EKey(f)) && Wf(EValue(f)) && WfAll(EFieldItems(t))
    ensures WfAll(EFieldItems(MoreEFields(f, t))) ==>
              |EncodeAll(EFieldItems(MoreEFields(f, t)))|
                  == 1 + f.kw + |Encode(EValue(f))| + |EncodeAll(EFieldItems(t))|
    ensures EFieldItems(NoEField) == Nil && Length(Nil) == 0 && WfAll(Nil) && EncodeAll(Nil) == []
    ensures HasHash(MoreEFields(f, t)) <==> f.EHash? || HasHash(t)
    ensures EFieldsLimited(MoreEFields(f, t)) <==> ELimited(f) && EFieldsLimited(t)
    ensures f.EAddress? && EAddressOf(t) == None ==> EAddressOf(MoreEFields(f, t)) == Some(f.addr)
    ensures !f.EAddress? ==> EAddressOf(MoreEFields(f, t)) == EAddressOf(t)
    ensures f.ECoin? && ECoinOf(t) == None ==> ECoinOf(MoreEFields(f, t)) == Some(f.n)
    ensures !f.ECoin? && !f.EAssets? ==> ECoinOf(MoreEFields(f, t)) == ECoinOf(t)
    ensures f.EDatum? && EDatumOf(t) == None ==> EDatumOf(MoreEFields(f, t)) == Some(f.datum)
    ensures !f.EDatum? ==> EDatumOf(MoreEFields(f, t)) == EDatumOf(t)
  {
    hide EValue, EKey;
  }

  /** {0: [[id, 0]], 1: [{0: other, 1: 5, 2: [0, hash]}, {0: addr, 1: 7, 2: [1, 24(datum)]}]} */
  function HashFirst(id: Digest, other: Bytes, hash: Digest, addr: Bytes, datum: Bytes): EBody {
    EBody(0, Entry(0, 0, OneInput(id), NoEntry), 0, 0,
          MoreEOutputs(LockOutput(other, 5, EHash(0, 0, Scalar(0, 0, 0), 1, hash)),
                       MoreEOutputs(LockOutput(addr, 7, EDatum(0, 0, Scalar(0, 0, 1), 1, 1, datum)), NoEOutput)),
          NoEntry)
  }

  /** A lock behind an output of somebody else with a datum hash is not found. */
  lemma HashHidesALaterLock(id: Digest, other: Bytes, hash: Digest, addr: Bytes, datum: Bytes)
    requires |other| < 256 && 0 < |addr| < 256 && other != addr && |datum| < 256
    ensures var t := HashFirst(id, other, hash, addr, datum);
            && Wf(EBodyItem(t)) && EscrowOutput(Encode(EBodyItem(t)), addr) == None
            && Locks(t.outputs, addr) == [(7, datum)] == Stranded(t.outputs, addr)
  {
    hide Encode, EscrowOutput, LockOutput, HasHash, EAddressOf, ECoinOf, EDatumOf, EFieldsLimited, EValue, Wf, ELimited,
      OneInput;
    var x, y := EHash(0, 0, Scalar(0, 0, 0), 1, hash), EDatum(0, 0, Scalar(0, 0, 1), 1, 1, datum);
    OptionWf(x);
    OptionWf(y);
    LockOutputIs(other, 5, x);
    LockOutputIs(addr, 7, y);
    var one, two := LockOutput(other, 5, x), LockOutput(addr, 7, y);
    TwoOutputs(id, one, two);
    HiddenLock(one, two, addr);
    var t := HashFirst(id, other, hash, addr, datum);
    EscrowOutputExact(t, [], addr);
    assert Encode(EBodyItem(t)) + [] == Encode(EBodyItem(t));
  }

  /** A datum option with a one-byte marker and one-byte lengths. */
  lemma OptionWf(x: EField)
    requires && (x.EHash? ==> x.aw == 0 && x.marker == Scalar(0, 0, 0) && x.w == 1 && |x.hash| < 256)
             && (x.EDatum? ==> x.aw == 0 && x.marker == Scalar(0, 0, 1) && x.tw == x.w == 1 && |x.datum| < 256)
    requires x.EHash? || x.EDatum?
    ensures Wf(EValue(x)) && ELimited(x) && |Encode(EValue(x))| < 500
  {
    assert Pow256(1) == 256;
    if x.EHash? { PairIs(x.marker, Str(2, 1, x.hash)); } else { PairIs(x.marker, Tagged(1, 24, Str(2, 1, x.datum))); }
  }

  lemma TwoOutputs(id: Digest, one: EOutput, two: EOutput)
    requires Wf(EOutputItem(one)) && Wf(EOutputItem(two)) && one.Babbage? && two.Babbage?
    requires EFieldsLimited(one.fields) && EFieldsLimited(two.fields)
    ensures var t := EBody(0, Entry(0, 0, OneInput(id), NoEntry), 0, 0,
                           MoreEOutputs(one, MoreEOutputs(two, NoEOutput)), NoEntry);
            && Wf(EBodyItem(t)) && EntriesLimited(t.before) && EOutputsLimited(t.outputs)
            && |Encode(EBodyItem(t))| == 41 + |Encode(EOutputItem(one))| + |Encode(EOutputItem(two))|
  {
    OneInputIs(id);
    var xs := Cons(EOutputItem(one), Cons(EOutputItem(two), Nil));
    PairIs(EOutputItem(one), EOutputItem(two));
    TwoEntries(0, OneInput(id), 1, Arr(0, xs));
    hide EOutputItem, OneInput, Wf, Encode;
    assert EOutputsLimited(MoreEOutputs(two, NoEOutput));
    assert EOutputItems(NoEOutput) == Nil && EOutputItems(MoreEOutputs(two, NoEOutput)) == xs.tail;
    var outs := Cons(Scalar(0, 0, 1), Cons(Arr(0, xs), Nil));
    assert EntryItems(NoEntry, Nil) == Nil && EntryItems(NoEntry, outs) == outs;
    assert EntriesLimited(NoEntry);
  }

  lemma HiddenLock(one: EOutput, two: EOutput, addr: Bytes)
    requires one.Babbage? && HasHash(one.fields) && !Complete(one, addr) && Complete(two, addr)
    ensures var os := MoreEOutputs(one, MoreEOutputs(two, NoEOutput));
            && Locks(os, addr) == [(ECoinOf(two.fields).value, EDatumOf(two.fields).value)] && Blocked(os, addr)
  {
    assert Locks(NoEOutput, addr) == [];
  }

  /** An escrow datum: a constructor whose field array is definite (a head) or indefinite (0x9f). */
  datatype Datum = Datum(tw: nat, tag: nat, aw: Option<(nat, nat)>, rw: nat, recipient: Bytes, qw: nat, negative: bool,
                         mag: nat, rest: Bytes)

  predicate WfDatum(d: Datum) {
    && Fits(d.tw, d.tag) && Fits(d.rw, |d.recipient|) && Fits(d.qw, d.mag)
    && (d.aw.Some? ==> Fits(d.aw.value.0, d.aw.value.1))
  }

  function ArrayStart(d: Datum): Bytes
    requires WfDatum(d)
  {
    match d.aw case None => [0x9f] case Some(h) => HeadBytes(4, h.0, h.1)
  }

  function DatumBytes(d: Datum): Bytes
    requires WfDatum(d)
  {
    HeadBytes(6, d.tw, d.tag) + (ArrayStart(d) + (Encode(Str(2, d.rw, d.recipient))
      + (Encode(Scalar(if d.negative then 1 else 0, d.qw, d.mag)) + d.rest)))
  }

  lemma ArrayStartByte(d: Datum)
    requires WfDatum(d)
    ensures |ArrayStart(d)| > 0 && (ArrayStart(d)[0] == 0x9f <==> d.aw == None) && ArrayStart(d)[0] / 32 == 4
  {
  }

  lemma DatumParts(d: Datum)
    requires WfDatum(d)
    ensures var b, j := DatumBytes(d), 1 + d.tw + |ArrayStart(d)|;
            var x, q := Str(2, d.rw, d.recipient), Scalar(if d.negative then 1 else 0, d.qw, d.mag);
            && At(b, 0, HeadBytes(6, d.tw, d.tag)) && At(b, 1 + d.tw, ArrayStart(d))
            && At(b, j, Encode(x)) && At(b, j + |Encode(x)|, Encode(q))
  {
    var b, j := DatumBytes(d), 1 + d.tw + |ArrayStart(d)|;
    var x, q := Str(2, d.rw, d.recipient), Scalar(if d.negative then 1 else 0, d.qw, d.mag);
    AtWhole(b);
    assert |HeadBytes(6, d.tw, d.tag)| == 1 + d.tw;
    hide At, Encode, Fits, HeadBytes, ArrayStart;
    FourParts(b, HeadBytes(6, d.tw, d.tag), ArrayStart(d), Encode(x), Encode(q), d.rest);
  }

  lemma ConstrFieldsExact(d: Datum)
    requires WfDatum(d)
    ensures ConstrFields(DatumBytes(d)) == Some(1 + d.tw + |ArrayStart(d)|)
  {
    hide At, Encode, Fits, HeadBytes, ArrayStart, DatumBytes, Ohdr;
    DatumParts(d);
    ArrayStartByte(d);
    HeadRead(DatumBytes(d), 0, 6, d.tw, d.tag);
    StartRead(DatumBytes(d), 1 + d.tw, d);
  }

  /** The datum up to the recipient, and `tail`. */
  function UpToRecipient(d: Datum, tail: Bytes): Bytes
    requires WfDatum(d)
  {
    HeadBytes(6, d.tw, d.tag) + (ArrayStart(d) + (Encode(Str(2, d.rw, d.recipient)) + tail))
  }

  lemma RecipientParts(d: Datum, tail: Bytes)
    requires WfDatum(d)
    ensures var b, j := UpToRecipient(d, tail), 1 + d.tw + |ArrayStart(d)|;
            && At(b, 0, HeadBytes(6, d.tw, d.tag)) && At(b, 1 + d.tw, ArrayStart(d))
            && At(b, j, Encode(Str(2, d.rw, d.recipient)))
  {
    var b, x := UpToRecipient(d, tail), Str(2, d.rw, d.recipient);
    assert |HeadBytes(6, d.tw, d.tag)| == 1 + d.tw;
    AtWhole(b);
    hide At, Encode, Fits, HeadBytes, ArrayStart;
    AtSplit(b, 0, HeadBytes(6, d.tw, d.tag), ArrayStart(d) + (Encode(x) + tail));
    AtSplit(b, 1 + d.tw, ArrayStart(d), Encode(x) + tail);
    AtSplit(b, 1 + d.tw + |ArrayStart(d)|, Encode(x), tail);
  }

  /** The recipient is read whatever follows it, so also when nothing does. */
  lemma RecipientExact(d: Datum, tail: Bytes)
    requires WfDatum(d)
    ensures DatumRecipient(UpToRecipient(d, tail)) == Some(d.recipient)
  {
    hide At, Encode, Fits, HeadBytes, ArrayStart, UpToRecipient, Ohdr;
    var b := UpToRecipient(d, tail);
    RecipientParts(d, tail);
    ArrayStartByte(d);
    HeadRead(b, 0, 6, d.tw, d.tag);
    StartRead(b, 1 + d.tw, d);
    StrAt(b, 1 + d.tw + |ArrayStart(d)|, 2, d.rw, d.recipient);
  }

  /** Both readers are exact on both array forms. */
  lemma DatumReadersExact(d: Datum)
    requires WfDatum(d)
    ensures DatumRecipient(DatumBytes(d)) == Some(d.recipient)
    ensures DatumAmount(DatumBytes(d)) == Some(if d.negative then -1 - d.mag else d.mag)
  {
    hide At, Encode, Skip, Fits, HeadBytes, ArrayStart, DatumBytes, Ohdr, ConstrFields;
    var b, j, x := DatumBytes(d), 1 + d.tw + |ArrayStart(d)|, Str(2, d.rw, d.recipient);
    DatumParts(d);
    ConstrFieldsExact(d);
    StrAt(b, j, 2, d.rw, d.recipient);
    SkipComplete(b, j, x, 0);
    ScalarAt(b, j + |Encode(x)|, if d.negative then 1 else 0, d.qw, d.mag);
  }

  lemma StartRead(b: Bytes, i: nat, d: Datum)
    requires WfDatum(d) && At(b, i, ArrayStart(d)) && |ArrayStart(d)| > 0
    ensures i < |b| && b[i] == ArrayStart(d)[0]
    ensures d.aw.Some? ==> Ohdr(b, i).Some? && Ohdr(b, i).value.next == i + |ArrayStart(d)|
    ensures d.aw == None ==> |ArrayStart(d)| == 1
  {
    assert b[i] == b[i..i + |ArrayStart(d)|][0];
    if d.aw.Some? {
      HeadRead(b, i, 4, d.aw.value.0, d.aw.value.1);
    }
  }
}
