/** `seal_at_lock`: does a Conway transaction body leave the seal policy at the lock address? */
module SealWalk {
  import opened Basics
  import opened Cbor

  // ---- the walker ----

  /** The policies of a multiasset map, from offset p. */
  function PolicyLoop(b: Bytes, p: nat, n: nat, policy: Bytes): Option<bool>
    decreases n, b
  {
    if n == 0 then Some(false)
    else
      var h :- Ohdr(b, p);
      if h.major != 2 || h.next + h.arg > |b| then None
      else
        var after :- Skip(b, h.next + h.arg, 0);
        if b[h.next..h.next + h.arg] == policy then Some(true) else PolicyLoop(b, after, n - 1, policy)
  }

  /** `val_has_policy`. */
  function ValHasPolicy(b: Bytes, va: nat, policy: Bytes): Option<bool> {
    var h :- Ohdr(b, va);
    if h.major == 0 then Some(false)
    else if h.major != 4 || h.arg < 2 then None
    else
      var ca :- Skip(b, h.next, 0);
      var m :- Ohdr(b, ca);
      if m.major != 5 then None else PolicyLoop(b, m.next, m.arg, policy)
  }

  /** Where an output's address and value stand; 0 means not seen. */
  datatype Seen = Seen(lo: nat, hi: nat, val: nat)

  /** The fields of a map output. */
  function FieldLoop(b: Bytes, k: nat, n: nat, seen: Seen): Option<(Seen, nat)>
    decreases n, b
  {
    if n == 0 then Some((seen, k))
    else
      var key :- Ohdr(b, k);
      if key.arg == 0 then
        var a :- Ohdr(b, key.next);
        if a.major != 2 || a.next + a.arg > |b| then None
        else FieldLoop(b, a.next + a.arg, n - 1, seen.(lo := a.next, hi := a.next + a.arg))
      else
        var next :- Skip(b, key.next, 0);
        FieldLoop(b, next, n - 1, if key.arg == 1 then seen.(val := key.next) else seen)
  }

  function ReadOutput(b: Bytes, j: nat): Option<(Seen, nat)> {
    var h :- Ohdr(b, j);
    if h.major == 5 then FieldLoop(b, h.next, h.arg, Seen(0, 0, 0))
    else if h.major == 4 && h.arg >= 2 then
      var a :- Ohdr(b, h.next);
      if a.major != 2 || a.next + a.arg > |b| then None
      else
        var next :- Skip(b, j, 0);
        Some((Seen(a.next, a.next + a.arg, a.next + a.arg), next))
    else None
  }

  function Hit(b: Bytes, seen: Seen, lock: Bytes, policy: Bytes): Option<bool> {
    if seen.lo < seen.hi <= |b| && b[seen.lo..seen.hi] == lock && seen.val != 0 then ValHasPolicy(b, seen.val, policy)
    else Some(false)
  }

  function OutputLoop(b: Bytes, j: nat, n: nat, found: bool, lock: Bytes, policy: Bytes): Option<bool>
    decreases n, b
  {
    if n == 0 then Some(found)
    else
      var out :- ReadOutput(b, j);
      var hit :- Hit(b, out.0, lock, policy);
      OutputLoop(b, out.1, n - 1, found || hit, lock, policy)
  }

  function EntryLoop(b: Bytes, i: nat, n: nat, lock: Bytes, policy: Bytes): Option<bool>
    decreases n, b
  {
    if n == 0 then None
    else
      var key :- Ohdr(b, i);
      if key.major != 0 then None
      else if key.arg == 1 then
        var o :- Ohdr(b, key.next);
        if o.major != 4 then None else OutputLoop(b, o.next, o.arg, false, lock, policy)
      else
        var next :- Skip(b, key.next, 0);
        EntryLoop(b, next, n - 1, lock, policy)
  }

  function SealAtLock(b: Bytes, lock: Bytes, policy: Bytes): Option<bool> {
    var h :- Ohdr(b, 0);
    if h.major != 5 then None else EntryLoop(b, h.next, h.arg, lock, policy)
  }

  method ComputeValHasPolicy(b: Bytes, va: nat, policy: Bytes) returns (r: Option<bool>)
    ensures r == ValHasPolicy(b, va, policy)
  {
    hide Skip, Ohdr;
    var h := Ohdr(b, va);
    if h == None { return None; }
    if h.value.major == 0 { return Some(false); }
    if h.value.major != 4 || h.value.arg < 2 { return None; }
    var ca := OSkip(b, h.value.next, 0);
    if ca == None { return None; }
    var m := Ohdr(b, ca.value);
    if m == None || m.value.major != 5 { return None; }
    var p, left := m.value.next, m.value.arg;
    while left > 0
      invariant 0 <= left && 0 <= p
      invariant PolicyLoop(b, m.value.next, m.value.arg, policy) == PolicyLoop(b, p, left, policy)
    {
      var e := Ohdr(b, p);
      if e == None || e.value.major != 2 { return None; }
      var pend := e.value.next + e.value.arg;
      if pend > |b| { return None; }
      var isSeal := e.value.arg == |policy| && b[e.value.next..pend] == policy;
      var after := OSkip(b, pend, 0);
      if after == None { return None; }
      if isSeal { return Some(true); }
      p, left := after.value, left - 1;
    }
    return Some(false);
  }

  method ComputeReadOutput(b: Bytes, j: nat) returns (r: Option<(Seen, nat)>)
    ensures r == ReadOutput(b, j)
  {
    hide Skip, Ohdr;
    var h := Ohdr(b, j);
    if h == None { return None; }
    var Head(otm, oarg, oi2) := h.value;
    if otm == 5 {
      var k: nat, seen, left := oi2, Seen(0, 0, 0), oarg;
      while left > 0
        invariant 0 <= left
        invariant FieldLoop(b, oi2, oarg, Seen(0, 0, 0)) == FieldLoop(b, k, left, seen)
      {
        var key := Ohdr(b, k);
        if key == None { return None; }
        var Head(_, ek, eki) := key.value;
        if ek == 0 {
          var a := Ohdr(b, eki);
          if a == None || a.value.major != 2 { return None; }
          var e := a.value.next + a.value.arg;
          if e > |b| { return None; }
          seen := seen.(lo := a.value.next, hi := e);
          k := e;
        } else {
          var next := OSkip(b, eki, 0);
          if next == None { return None; }
          if ek == 1 { seen := seen.(val := eki); }
          k := next.value;
        }
        left := left - 1;
      }
      return Some((seen, k));
    } else if otm == 4 {
      if oarg < 2 { return None; }
      var a := Ohdr(b, oi2);
      if a == None || a.value.major != 2 { return None; }
      var e := a.value.next + a.value.arg;
      if e > |b| { return None; }
      var next := OSkip(b, j, 0);
      if next == None { return None; }
      return Some((Seen(a.value.next, e, e), next.value));
    } else {
      return None;
    }
  }

  /** `seal_at_lock`. */
  method ComputeSealAtLock(b: Bytes, lock: Bytes, policy: Bytes) returns (r: Option<bool>)
    ensures r == SealAtLock(b, lock, policy)
  {
    hide Skip, Ohdr, ReadOutput, ValHasPolicy;
    var h := Ohdr(b, 0);
    if h == None || h.value.major != 5 { return None; }
    var i: nat, left := h.value.next, h.value.arg;
    while left > 0
      invariant 0 <= left
      invariant EntryLoop(b, h.value.next, h.value.arg, lock, policy) == EntryLoop(b, i, left, lock, policy)
    {
      var key := Ohdr(b, i);
      if key == None || key.value.major != 0 { return None; }
      if key.value.arg == 1 {
        var o := Ohdr(b, key.value.next);
        if o == None || o.value.major != 4 { return None; }
        r := ComputeOutputs(b, o.value.next, o.value.arg, lock, policy);
        return;
      }
      var next := OSkip(b, key.value.next, 0);
      if next == None { return None; }
      i, left := next.value, left - 1;
    }
    return None;
  }

  method ComputeOutputs(b: Bytes, oj: nat, oc: nat, lock: Bytes, policy: Bytes) returns (r: Option<bool>)
    ensures r == OutputLoop(b, oj, oc, false, lock, policy)
  {
    hide Skip, Ohdr, ReadOutput, ValHasPolicy;
    var j: nat, found, left := oj, false, oc;
    while left > 0
      invariant 0 <= left
      invariant OutputLoop(b, oj, oc, false, lock, policy) == OutputLoop(b, j, left, found, lock, policy)
    {
      var out := ComputeReadOutput(b, j);
      if out == None { return None; }
      var seen := out.value.0;
      if seen.hi > seen.lo && seen.hi <= |b| && b[seen.lo..seen.hi] == lock && seen.val != 0 {
        var has := ComputeValHasPolicy(b, seen.val, policy);
        if has == None { return None; }
        if has.value { found := true; }
      }
      j, left := out.value.1, left - 1;
    }
    return Some(found);
  }

  // ---- what a body says, and how it is written ----

  datatype Policies = NoPolicy | Policy(w: nat, id: Bytes, assets: Item, tail: Policies)

  datatype Value =
    | Coin(w: nat, n: nat)
    | Assets(w: nat, coin: Item, mw: nat, policies: Policies, more: Items)

  datatype Field =
    | Address(kw: nat, w: nat, addr: Bytes)          // key 0
    | Amount(kw: nat, value: Value)                  // key 1
    | Other(kw: nat, key: nat, item: Item)           // any later key

  datatype Fields = NoField | MoreFields(field: Field, tail: Fields)

  datatype Output =
    | ArrayOutput(w: nat, aw: nat, addr: Bytes, value: Value, more: Items)
    | MapOutput(w: nat, fields: Fields)

  datatype Outputs = NoOutput | MoreOutputs(output: Output, tail: Outputs)

  datatype Entries = NoEntry | Entry(kw: nat, key: nat, item: Item, tail: Entries)

  /** The entries before the outputs have other keys; those after it are not looked at. */
  datatype Body = Body(w: nat, before: Entries, kw: nat, ow: nat, outputs: Outputs, after: Entries)

  function PolicyItems(p: Policies): Items {
    match p case NoPolicy => Nil case Policy(w, id, a, t) => Cons(Str(2, w, id), Cons(a, PolicyItems(t)))
  }

  function ValueItem(v: Value): Item {
    match v
    case Coin(w, n) => Scalar(0, w, n)
    case Assets(w, coin, mw, p, more) => Arr(w, Cons(coin, Cons(Map(mw, PolicyItems(p)), more)))
  }

  function FieldKey(f: Field): nat {
    match f case Address(_, _, _) => 0 case Amount(_, _) => 1 case Other(_, key, _) => key
  }

  function FieldValue(f: Field): Item {
    match f case Address(_, w, a) => Str(2, w, a) case Amount(_, v) => ValueItem(v) case Other(_, _, x) => x
  }

  function FieldItems(fs: Fields): Items {
    match fs
    case NoField => Nil
    case MoreFields(f, t) => Cons(Scalar(0, f.kw, FieldKey(f)), Cons(FieldValue(f), FieldItems(t)))
  }

  function OutputItem(o: Output): Item {
    match o
    case ArrayOutput(w, aw, a, v, more) => Arr(w, Cons(Str(2, aw, a), Cons(ValueItem(v), more)))
    case MapOutput(w, fs) => Map(w, FieldItems(fs))
  }

  function OutputItems(os: Outputs): Items {
    match os case NoOutput => Nil case MoreOutputs(o, t) => Cons(OutputItem(o), OutputItems(t))
  }

  /** The value of an inputs entry with one input, the first output of transaction `id`: [[id, 0]]. */
  function OneInput(id: Digest): Item {
    Arr(0, Cons(Arr(0, Cons(Str(2, 1, id), Cons(Scalar(0, 0, 0), Nil))), Nil))
  }

  lemma OneInputIs(id: Digest)
    ensures Wf(OneInput(id)) && Depth(OneInput(id)) == 2 && |Encode(OneInput(id))| == 37
  {
    assert Fits(1, 32) by { assert Pow256(1) == 256; }
    var s, x := Str(2, 1, id), Scalar(0, 0, 0);
    PairIs(s, x);
    assert Wf(s) && |Encode(s)| == 34 && Wf(x) && |Encode(x)| == 1 && Depth(s) == Depth(x) == 0;
    SingleIs(Arr(0, Cons(s, Cons(x, Nil))));
  }

  function EntryItems(es: Entries, rest: Items): Items {
    match es case NoEntry => rest case Entry(kw, k, x, t) => Cons(Scalar(0, kw, k), Cons(x, EntryItems(t, rest)))
  }

  function BodyItem(t: Body): Item {
    Map(t.w, EntryItems(t.before,
                        Cons(Scalar(0, t.kw, 1), Cons(Arr(t.ow, OutputItems(t.outputs)), EntryItems(t.after, Nil)))))
  }

  predicate HasPolicy(p: Policies, policy: Bytes) {
    p.Policy? && (p.id == policy || HasPolicy(p.tail, policy))
  }

  /** The last address field and the last amount field; a map without repeated keys has one of each. */
  function AddressOf(fs: Fields): Option<Bytes> {
    if fs.NoField? then None
    else if AddressOf(fs.tail) != None then AddressOf(fs.tail)
    else if fs.field.Address? then Some(fs.field.addr) else None
  }

  function AmountOf(fs: Fields): Option<Value> {
    if fs.NoField? then None
    else if AmountOf(fs.tail) != None then AmountOf(fs.tail)
    else if fs.field.Amount? then Some(fs.field.value) else None
  }

  predicate ValueHolds(v: Value, policy: Bytes) {
    v.Assets? && HasPolicy(v.policies, policy)
  }

  /** The output sits at the lock address and carries the policy. */
  predicate HoldsSeal(o: Output, lock: Bytes, policy: Bytes) {
    match o
    case ArrayOutput(_, _, a, v, _) => a == lock && ValueHolds(v, policy)
    case MapOutput(_, fs) => AddressOf(fs) == Some(lock) && AmountOf(fs).Some? && ValueHolds(AmountOf(fs).value, policy)
  }

  predicate SomeHoldsSeal(os: Outputs, lock: Bytes, policy: Bytes) {
    os.MoreOutputs? && (HoldsSeal(os.output, lock, policy) || SomeHoldsSeal(os.tail, lock, policy))
  }

  /** The nesting limits, as the walker applies them. */
  predicate FieldsLimited(fs: Fields) {
    fs.MoreFields? ==>
      && FieldsLimited(fs.tail)
      && (fs.field.Amount? ==> Depth(ValueItem(fs.field.value)) <= MAX_DEPTH)
      && (fs.field.Other? ==> fs.field.key >= 2 && Depth(fs.field.item) <= MAX_DEPTH)
  }

  predicate OutputsLimited(os: Outputs) {
    os.MoreOutputs? ==>
      && OutputsLimited(os.tail)
      && (if os.output.MapOutput? then FieldsLimited(os.output.fields) else Depth(OutputItem(os.output)) <= MAX_DEPTH)
  }

  predicate EntriesLimited(es: Entries) {
    es.Entry? ==> EntriesLimited(es.tail) && es.key != 1 && Depth(es.item) <= MAX_DEPTH
  }

  // ---- the walker is exact on encodings ----

  lemma {:induction false} PolicyLoopExact(b: Bytes, i: nat, p: Policies, policy: Bytes)
    requires WfAll(PolicyItems(p)) && At(b, i, EncodeAll(PolicyItems(p))) && DepthAll(PolicyItems(p)) <= MAX_DEPTH
    ensures Length(PolicyItems(p)) % 2 == 0
    ensures PolicyLoop(b, i, Length(PolicyItems(p)) / 2, policy) == Some(HasPolicy(p, policy))
    decreases p
  {
    hide At, Ohdr, Skip, Encode, EncodeAll, Fits;
    if p.Policy? {
      var id, rest := Str(2, p.w, p.id), PolicyItems(p.tail);
      ConsAt(b, i, id, Cons(p.assets, rest));
      StrAt(b, i, 2, p.w, p.id);
      ConsAt(b, i + |Encode(id)|, p.assets, rest);
      SkipComplete(b, i + |Encode(id)|, p.assets, 0);
      PolicyLoopExact(b, i + |Encode(id)| + |Encode(p.assets)|, p.tail, policy);
    }
  }

  lemma ValueDepth(w: nat, coin: Item, m: Item, more: Items)
    ensures Depth(Arr(w, Cons(coin, Cons(m, more)))) > Depth(coin)
    ensures Depth(Arr(w, Cons(coin, Cons(m, more)))) > Depth(m)
  {
    assert DepthAll(Cons(m, more)) >= Depth(m);
    assert DepthAll(Cons(coin, Cons(m, more))) >= DepthAll(Cons(m, more));
  }

  lemma ValueExact(b: Bytes, va: nat, v: Value, policy: Bytes)
    requires Wf(ValueItem(v)) && At(b, va, Encode(ValueItem(v))) && Depth(ValueItem(v)) <= MAX_DEPTH
    ensures ValHasPolicy(b, va, policy) == Some(ValueHolds(v, policy))
  {
    hide At, Ohdr, Skip, Encode, EncodeAll, Fits;
    match v
    case Coin(w, n) => ScalarAt(b, va, 0, w, n);
    case Assets(w, coin, mw, p, more) =>
      var m := Map(mw, PolicyItems(p));
      ValueDepth(w, coin, m, more);
      assert p.Policy? ==> DepthAll(PolicyItems(p)) < Depth(m);
      ArrAt(b, va, w, Cons(coin, Cons(m, more)));
      ConsAt(b, va + 1 + w, coin, Cons(m, more));
      SkipComplete(b, va + 1 + w, coin, 0);
      ConsAt(b, va + 1 + w + |Encode(coin)|, m, more);
      MapAt(b, va + 1 + w + |Encode(coin)|, mw, PolicyItems(p));
      PolicyLoopExact(b, va + 1 + w + |Encode(coin)| + 1 + mw, p, policy);
  }

  /** The recorded offsets stand for the fields seen: an unseen one keeps its old offset. */
  predicate Records(b: Bytes, fs: Fields, old_: Seen, new_: Seen) {
    && (match AddressOf(fs)
        case None => new_.lo == old_.lo && new_.hi == old_.hi
        case Some(a) => new_.lo + |a| == new_.hi <= |b| && b[new_.lo..new_.hi] == a)
    && (match AmountOf(fs)
        case None => new_.val == old_.val
        case Some(v) => new_.val > 0 && Wf(ValueItem(v)) && Depth(ValueItem(v)) <= MAX_DEPTH
                        && At(b, new_.val, Encode(ValueItem(v))))
  }

  lemma FieldStep(b: Bytes, k: nat, n: nat, seen: Seen, key: Head, x: nat)
    requires n > 0 && Ohdr(b, k) == Some(key)
    ensures key.arg == 0 && Ohdr(b, key.next).Some? && Ohdr(b, key.next).value.major == 2
            && Ohdr(b, key.next).value.next + Ohdr(b, key.next).value.arg == x <= |b|
            ==> FieldLoop(b, k, n, seen) == FieldLoop(b, x, n - 1, seen.(lo := Ohdr(b, key.next).value.next, hi := x))
    ensures key.arg == 1 && Skip(b, key.next, 0) == Some(x)
            ==> FieldLoop(b, k, n, seen) == FieldLoop(b, x, n - 1, seen.(val := key.next))
    ensures key.arg >= 2 && Skip(b, key.next, 0) == Some(x)
            ==> FieldLoop(b, k, n, seen) == FieldLoop(b, x, n - 1, seen)
  {
    hide Skip, Ohdr;
  }

  lemma {:induction false} FieldLoopExact(b: Bytes, k: nat, fs: Fields, seen: Seen)
    requires WfAll(FieldItems(fs)) && At(b, k, EncodeAll(FieldItems(fs))) && FieldsLimited(fs)
    ensures Length(FieldItems(fs)) % 2 == 0
    ensures var r := FieldLoop(b, k, Length(FieldItems(fs)) / 2, seen);
            r.Some? && r.value.1 == k + |EncodeAll(FieldItems(fs))| && Records(b, fs, seen, r.value.0)
    decreases fs
  {
    hide At, Ohdr, Skip, Encode, EncodeAll, Fits, FieldLoop, Depth, ValueItem;
    match fs
    case NoField =>
      EncodeAllNil();
      assert FieldLoop(b, k, 0, seen) == Some((seen, k)) by { FieldLoopNil(b, k, seen); }
    case MoreFields(f, t) =>
      var kw, key, x := f.kw, FieldKey(f), FieldValue(f);
      var at := k + 1 + kw;
      FieldAt(b, k, kw, key, x, FieldItems(t));
      var seen' := if f.Address? then seen.(lo := at + 1 + f.w, hi := at + 1 + f.w + |f.addr|)
                   else if f.Amount? then seen.(val := at) else seen;
      if f.Address? {
        StrAt(b, at, 2, f.w, f.addr);
      } else {
        SkipComplete(b, at, x, 0);
      }
      FieldLoopExact(b, at + |Encode(x)|, t, seen');
      FieldStep(b, k, Length(FieldItems(t)) / 2 + 1, seen, Head(0, key, at), at + |Encode(x)|);
  }

  lemma FieldLoopNil(b: Bytes, k: nat, seen: Seen)
    ensures FieldLoop(b, k, 0, seen) == Some((seen, k))
  {
  }

  lemma EncodeAllNil()
    ensures EncodeAll(Nil) == []
  {
  }

  lemma FieldAt(b: Bytes, k: nat, kw: nat, key: nat, x: Item, rest: Items)
    requires WfAll(Cons(Scalar(0, kw, key), Cons(x, rest)))
    requires At(b, k, EncodeAll(Cons(Scalar(0, kw, key), Cons(x, rest))))
    ensures Ohdr(b, k) == Some(Head(0, key, k + 1 + kw)) && At(b, k + 1 + kw, Encode(x))
    ensures At(b, k + 1 + kw + |Encode(x)|, EncodeAll(rest))
    ensures |EncodeAll(Cons(Scalar(0, kw, key), Cons(x, rest)))| == 1 + kw + |Encode(x)| + |EncodeAll(rest)|
  {
    hide At, Ohdr, Encode, EncodeAll, Fits;
    ConsAt(b, k, Scalar(0, kw, key), Cons(x, rest));
    ScalarAt(b, k, 0, kw, key);
    ConsAt(b, k + 1 + kw, x, rest);
  }

  /** One output: where it ends, and whether it holds the seal. */
  lemma OutputExact(b: Bytes, j: nat, o: Output, lock: Bytes, policy: Bytes)
    requires Wf(OutputItem(o)) && At(b, j, Encode(OutputItem(o))) && lock != []
    requires if o.MapOutput? then FieldsLimited(o.fields) else Depth(OutputItem(o)) <= MAX_DEPTH
    ensures var r := ReadOutput(b, j);
            r.Some? && r.value.1 == j + |Encode(OutputItem(o))|
            && Hit(b, r.value.0, lock, policy) == Some(HoldsSeal(o, lock, policy))
  {
    hide At, Ohdr, Skip, Encode, EncodeAll, Fits, ValHasPolicy, FieldLoop;
    match o
    case ArrayOutput(w, aw, a, v, more) =>
      var x, y := Str(2, aw, a), ValueItem(v);
      ValueDepth(w, x, y, more);
      ArrAt(b, j, w, Cons(x, Cons(y, more)));
      ConsAt(b, j + 1 + w, x, Cons(y, more));
      StrAt(b, j + 1 + w, 2, aw, a);
      ConsAt(b, j + 1 + w + |Encode(x)|, y, more);
      SkipComplete(b, j, OutputItem(o), 0);
      ValueExact(b, j + 1 + w + |Encode(x)|, v, policy);
    case MapOutput(w, fs) =>
      MapAt(b, j, w, FieldItems(fs));
      FieldLoopExact(b, j + 1 + w, fs, Seen(0, 0, 0));
      if AmountOf(fs).Some? {
        ValueExact(b, FieldLoop(b, j + 1 + w, Length(FieldItems(fs)) / 2, Seen(0, 0, 0)).value.0.val,
                   AmountOf(fs).value, policy);
      }
  }

  lemma {:induction false} OutputLoopExact(b: Bytes, j: nat, os: Outputs, found: bool, lock: Bytes, policy: Bytes)
    requires WfAll(OutputItems(os)) && At(b, j, EncodeAll(OutputItems(os))) && lock != [] && OutputsLimited(os)
    ensures OutputLoop(b, j, Length(OutputItems(os)), found, lock, policy)
            == Some(found || SomeHoldsSeal(os, lock, policy))
    decreases os
  {
    hide At, Ohdr, Skip, Encode, EncodeAll, Fits, ReadOutput, Hit, HoldsSeal;
    if os.MoreOutputs? {
      ConsAt(b, j, OutputItem(os.output), OutputItems(os.tail));
      OutputExact(b, j, os.output, lock, policy);
      OutputLoopExact(b, j + |Encode(OutputItem(os.output))|, os.tail, found || HoldsSeal(os.output, lock, policy),
                      lock, policy);
    }
  }

  /** The items of a body from its remaining leading entries on. */
  function FromEntries(es: Entries, t: Body): Items {
    EntryItems(es, Cons(Scalar(0, t.kw, 1), Cons(Arr(t.ow, OutputItems(t.outputs)), EntryItems(t.after, Nil))))
  }

  lemma {:induction false} EntryLoopExact(b: Bytes, i: nat, es: Entries, t: Body, lock: Bytes, policy: Bytes)
    requires WfAll(FromEntries(es, t)) && At(b, i, EncodeAll(FromEntries(es, t)))
    requires EntriesLimited(es) && OutputsLimited(t.outputs) && lock != []
    ensures Length(FromEntries(es, t)) >= 2
    ensures EntryLoop(b, i, Length(FromEntries(es, t)) / 2, lock, policy)
            == Some(SomeHoldsSeal(t.outputs, lock, policy))
    decreases es
  {
    hide At, Ohdr, Skip, Encode, EncodeAll, Fits, OutputLoop;
    match es
    case NoEntry =>
      var x := Arr(t.ow, OutputItems(t.outputs));
      FieldAt(b, i, t.kw, 1, x, EntryItems(t.after, Nil));
      ArrAt(b, i + 1 + t.kw, t.ow, OutputItems(t.outputs));
      OutputLoopExact(b, i + 1 + t.kw + 1 + t.ow, t.outputs, false, lock, policy);
    case Entry(kw, key, x, rest) =>
      FieldAt(b, i, kw, key, x, FromEntries(rest, t));
      SkipComplete(b, i + 1 + kw, x, 0);
      EntryLoopExact(b, i + 1 + kw + |Encode(x)|, rest, t, lock, policy);
  }

  /** For every body whose outputs are arrays or maps and whose nesting is within the limit, the answer is
      Some(true) exactly when some output at the lock address carries the policy, and Some(false)
      otherwise. The address comes from the script's args and is never empty. */
  lemma SealAtLockExact(t: Body, rest: Bytes, lock: Bytes, policy: Bytes)
    requires Wf(BodyItem(t)) && EntriesLimited(t.before) && OutputsLimited(t.outputs) && lock != []
    ensures SealAtLock(Encode(BodyItem(t)) + rest, lock, policy) == Some(SomeHoldsSeal(t.outputs, lock, policy))
  {
    var b := Encode(BodyItem(t)) + rest;
    hide At, Ohdr, Skip, Encode, EncodeAll, Fits, EntryLoop;
    AtPrefix(Encode(BodyItem(t)), rest);
    MapAt(b, 0, t.w, FromEntries(t.before, t));
    EntryLoopExact(b, 1 + t.w, t.before, t, lock, policy);
  }
}
