/** `mint_qty`: the signed quantity of one asset in the mint field of a Conway transaction body. */
module MintField {
  import opened Basics
  import opened Cbor
  import opened CborSkippers
  import opened SealWalk

  const I128_MAX: int := 0x7fff_ffff_ffff_ffff_ffff_ffff_ffff_ffff
  const I128_MIN: int := -0x8000_0000_0000_0000_0000_0000_0000_0000

  /** `saturating_add` on i128. */
  function SatAdd(a: int, b: int): int {
    if a + b > I128_MAX then I128_MAX else if a + b < I128_MIN then I128_MIN else a + b
  }

  /** `cbor_int`: any other item counts as zero. */
  function CborInt(b: Bytes, i: nat): Option<(int, nat)> {
    var h :- LaxHead(b, i);
    if h.major == 0 then Some((h.arg, h.next))
    else if h.major == 1 then Some((-1 - h.arg, h.next))
    else
      var e :- SkipD(b, i, 0);
      Some((0, e))
  }

  function AssetLoop(b: Bytes, a: nat, n: nat, name: Bytes, mine: bool, acc: int): Option<(int, nat)>
    decreases n, b
  {
    if n == 0 then Some((acc, a))
    else
      var h :- LaxHead(b, a);
      if h.next + h.arg > |b| then None
      else
        var q :- CborInt(b, h.next + h.arg);
        AssetLoop(b, q.1, n - 1, name, mine,
                  if mine && b[h.next..h.next + h.arg] == name then SatAdd(acc, q.0) else acc)
  }

  /** None: malformed. A policy whose value is not a map ends the whole walk with 0. */
  function PolicyWalk(b: Bytes, p: nat, n: nat, policy: Bytes, name: Bytes, acc: int): Option<int>
    decreases n, b
  {
    if n == 0 then Some(acc)
    else
      var h :- LaxHead(b, p);
      if h.next + h.arg > |b| then None
      else
        var m :- LaxHead(b, h.next + h.arg);
        if m.major != 5 then Some(0)
        else
          var r :- AssetLoop(b, m.next, m.arg, name, b[h.next..h.next + h.arg] == policy, acc);
          PolicyWalk(b, r.1, n - 1, policy, name, r.0)
  }

  function MintLoop(b: Bytes, i: nat, n: nat, policy: Bytes, name: Bytes): Option<int>
    decreases n, b
  {
    if n == 0 then Some(0)
    else
      var key :- LaxHead(b, i);
      if key.major == 0 && key.arg == 9 then
        var p :- LaxHead(b, key.next);
        if p.major != 5 then Some(0) else PolicyWalk(b, p.next, p.arg, policy, name, 0)
      else
        var next :- SkipD(b, key.next, 0);
        MintLoop(b, next, n - 1, policy, name)
  }

  function MintInner(b: Bytes, policy: Bytes, name: Bytes): Option<int> {
    var h :- LaxHead(b, 0);
    if h.major != 5 then Some(0) else MintLoop(b, h.next, h.arg, policy, name)
  }

  /** `mint_qty`: a malformed body reads as i128::MAX. */
  function MintQty(b: Bytes, policy: Bytes, name: Bytes): int {
    match MintInner(b, policy, name) case None => I128_MAX case Some(q) => q
  }

  method ComputeAssets(b: Bytes, start: nat, n: nat, name: Bytes, mine: bool, acc0: int) returns (r: Option<(int, nat)>)
    ensures r == AssetLoop(b, start, n, name, mine, acc0)
  {
    hide LaxHead, CborInt, SatAdd;
    var a: nat, left: nat, acc := start, n, acc0;
    while left > 0
      invariant AssetLoop(b, start, n, name, mine, acc0) == AssetLoop(b, a, left, name, mine, acc)
    {
      var h := LaxHead(b, a);
      if h == None { return None; }
      var ne := h.value.next + h.value.arg;
      if ne > |b| { return None; }
      var q := CborInt(b, ne);
      if q == None { return None; }
      if mine && b[h.value.next..ne] == name { acc := SatAdd(acc, q.value.0); }
      a, left := q.value.1, left - 1;
    }
    return Some((acc, a));
  }

  method ComputePolicies(b: Bytes, start: nat, n: nat, policy: Bytes, name: Bytes) returns (r: Option<int>)
    ensures r == PolicyWalk(b, start, n, policy, name, 0)
  {
    hide LaxHead, AssetLoop, PolicyWalk;
    var p: nat, left: nat, acc := start, n, 0;
    while left > 0
      invariant PolicyWalk(b, start, n, policy, name, 0) == PolicyWalk(b, p, left, policy, name, acc)
    {
      PolicyStep(b, p, left, policy, name, acc);
      var h := LaxHead(b, p);
      if h == None { return None; }
      var pe := h.value.next + h.value.arg;
      if pe > |b| { return None; }
      var m := LaxHead(b, pe);
      if m == None { return None; }
      if m.value.major != 5 { return Some(0); }
      var s := ComputeAssets(b, m.value.next, m.value.arg, name, b[h.value.next..pe] == policy, acc);
      if s == None { return None; }
      acc, p, left := s.value.0, s.value.1, left - 1;
    }
    PolicyEnd(b, p, policy, name, acc);
    return Some(acc);
  }

  lemma PolicyEnd(b: Bytes, p: nat, policy: Bytes, name: Bytes, acc: int)
    ensures PolicyWalk(b, p, 0, policy, name, acc) == Some(acc)
  {
  }

  /** One step of the walk, by where it stops. */
  lemma PolicyStep(b: Bytes, p: nat, n: nat, policy: Bytes, name: Bytes, acc: int)
    requires n > 0
    ensures var h, r := LaxHead(b, p), PolicyWalk(b, p, n, policy, name, acc);
            if h == None || h.value.next + h.value.arg > |b| then r == None
            else
              var m := LaxHead(b, h.value.next + h.value.arg);
              var mine := b[h.value.next..h.value.next + h.value.arg] == policy;
              if m == None then r == None
              else if m.value.major != 5 then r == Some(0)
              else
                var s := AssetLoop(b, m.value.next, m.value.arg, name, mine, acc);
                r == if s == None then None else PolicyWalk(b, s.value.1, n - 1, policy, name, s.value.0)
  {
    hide LaxHead, AssetLoop;
  }

  method ComputeMintQty(b: Bytes, policy: Bytes, name: Bytes) returns (qty: int)
    ensures qty == MintQty(b, policy, name)
  {
    hide LaxHead, PolicyWalk, SkipD;
    var h := LaxHead(b, 0);
    if h == None { return I128_MAX; }
    if h.value.major != 5 { return 0; }
    var i: nat, left: nat := h.value.next, h.value.arg;
    while left > 0
      invariant MintLoop(b, h.value.next, h.value.arg, policy, name) == MintLoop(b, i, left, policy, name)
    {
      var key := LaxHead(b, i);
      if key == None { return I128_MAX; }
      if key.value.major == 0 && key.value.arg == 9 {
        var p := LaxHead(b, key.value.next);
        if p == None { return I128_MAX; }
        if p.value.major != 5 { return 0; }
        var r := ComputePolicies(b, p.value.next, p.value.arg, policy, name);
        return if r == None then I128_MAX else r.value;
      }
      var next := OSkipD(b, key.value.next, 0);
      if next == None { return I128_MAX; }
      i, left := next.value, left - 1;
    }
    return 0;
  }

  // ---- what a mint field says, and how it is written ----

  /** A quantity is a CBOR integer of either sign. */
  datatype AssetList = NoAsset | Asset(nw: nat, name: Bytes, qw: nat, burn: bool, mag: nat, tail: AssetList)

  datatype MintList = NoMint | Mint(w: nat, policy: Bytes, aw: nat, assets: AssetList, tail: MintList)

  /** A mint field: the first entry with key 9, and what follows it. */
  datatype MintEntry = NoMintField | MintEntry(kw: nat, mw: nat, mint: MintList, after: Entries)

  /** `before` are the entries with other keys: all of them when the body has no mint field. */
  datatype MintBody = MintBody(w: nat, before: Entries, field: MintEntry)

  function Quantity(a: AssetList): int
    requires a.Asset?
  {
    if a.burn then -1 - a.mag else a.mag
  }

  function AssetSum(a: AssetList, name: Bytes): int {
    if a.NoAsset? then 0 else (if a.name == name then Quantity(a) else 0) + AssetSum(a.tail, name)
  }

  /** The sum of all matching quantities, whether or not policies and names repeat. */
  function MintSum(m: MintList, policy: Bytes, name: Bytes): int {
    if m.NoMint? then 0
    else (if m.policy == policy then AssetSum(m.assets, name) else 0) + MintSum(m.tail, policy, name)
  }

  /** The quantity of one asset that the body mints; a body without a mint field mints nothing. */
  function BodySum(t: MintBody, policy: Bytes, name: Bytes): int {
    if t.field.NoMintField? then 0 else MintSum(t.field.mint, policy, name)
  }

  function AssetItems(a: AssetList): Items {
    match a
    case NoAsset => Nil
    case Asset(nw, name, qw, burn, mag, t) =>
      Cons(Str(2, nw, name), Cons(Scalar(if burn then 1 else 0, qw, mag), AssetItems(t)))
  }

  function MintItems(m: MintList): Items {
    match m
    case NoMint => Nil
    case Mint(w, policy, aw, assets, t) => Cons(Str(2, w, policy), Cons(Map(aw, AssetItems(assets)), MintItems(t)))
  }

  function FieldTail(f: MintEntry): Items {
    match f
    case NoMintField => Nil
    case MintEntry(kw, mw, mint, after) =>
      Cons(Scalar(0, kw, 9), Cons(Map(mw, MintItems(mint)), EntryItems(after, Nil)))
  }

  function MintBodyItem(t: MintBody): Item {
    Map(t.w, EntryItems(t.before, FieldTail(t.field)))
  }

  predicate KeysAreNot9(es: Entries) {
    es.Entry? ==> KeysAreNot9(es.tail) && es.key != 9 && Depth(es.item) <= MAX_DEPTH
  }

  // ---- the walker is exact on encodings ----

  const LIMIT: nat := 0x4000_0000_0000_0000   // 2^62

  /** After reading i bytes the accumulator is at most i * 2^64: far from saturating below 2^62 bytes. */
  ghost predicate Bounded(acc: int, i: nat) {
    -(i * U64) <= acc <= i * U64
  }

  lemma FitsU64(w: nat, n: nat)
    requires Fits(w, n)
    ensures n < U64
  {
    assert Pow256(1) == 256 && Pow256(2) == 0x10000;
    assert Pow256(4) == 0x1_0000_0000;
    assert Pow256(8) == U64;
  }

  /** A quantity that is not an integer counts as nothing. */
  lemma OtherQuantity(b: Bytes, i: nat, it: Item)
    requires Wf(it) && At(b, i, Encode(it)) && Depth(it) <= MAX_DEPTH && |b| < U64
    requires it.Scalar? ==> it.major == 7
    ensures CborInt(b, i) == Some((0, i + |Encode(it)|))
  {
    hide SkipD, Skip, Depth;
    SkipComplete(b, i, it, 0);
    SkippersAgree(b, i, 0, MAX_DEPTH + 1);
    OtherHead(b, i, it);
  }

  lemma OtherHead(b: Bytes, i: nat, it: Item)
    requires Wf(it) && At(b, i, Encode(it)) && (it.Scalar? ==> it.major == 7)
    ensures LaxHead(b, i).Some? && LaxHead(b, i).value.major >= 2
  {
    hide At, Ohdr, Encode, EncodeAll, Fits, LaxHead;
    match it
    case Scalar(m, w, n) => ScalarAt(b, i, m, w, n);
    case Str(m, w, s) => StrAt(b, i, m, w, s);
    case Arr(w, xs) => ArrAt(b, i, w, xs);
    case Map(w, xs) => MapAt(b, i, w, xs);
    case Tagged(w, n, x) => TaggedAt(b, i, w, n, x);
  }

  lemma NoSaturation(acc: int, q: int, i: nat, len: nat)
    requires Bounded(acc, i) && -U64 <= q < U64 && len > 0 && i + len < LIMIT
    ensures SatAdd(acc, q) == acc + q && Bounded(acc + q, i + len) && Bounded(acc, i + len)
  {
    assert U64 <= len * U64;
    assert (i + len) * U64 == i * U64 + len * U64;
    assert (i + len) * U64 <= LIMIT * U64;
  }

  lemma QuantityAt(b: Bytes, i: nat, a: AssetList)
    requires |b| < LIMIT && a.Asset? && Wf(Scalar(if a.burn then 1 else 0, a.qw, a.mag))
    requires At(b, i, Encode(Scalar(if a.burn then 1 else 0, a.qw, a.mag)))
    ensures CborInt(b, i) == Some((Quantity(a), i + |Encode(Scalar(if a.burn then 1 else 0, a.qw, a.mag))|))
    ensures -U64 <= Quantity(a) < U64
  {
    hide At, Ohdr, Encode, Fits;
    ScalarAt(b, i, if a.burn then 1 else 0, a.qw, a.mag);
    FitsU64(a.qw, a.mag);
  }

  /** One step over an asset whose parts were read. */
  lemma AssetStep(b: Bytes, i: nat, n: nat, name: Bytes, mine: bool, acc: int, h: Head, qty: int, next: nat)
    requires n > 0 && LaxHead(b, i) == Some(h) && h.next + h.arg <= |b|
    requires CborInt(b, h.next + h.arg) == Some((qty, next))
    ensures AssetLoop(b, i, n, name, mine, acc)
            == AssetLoop(b, next, n - 1, name, mine,
                         if mine && b[h.next..h.next + h.arg] == name then SatAdd(acc, qty) else acc)
  {
    hide LaxHead, CborInt, SatAdd;
  }

  lemma AssetNil(b: Bytes, i: nat, name: Bytes, mine: bool, acc: int)
    ensures AssetLoop(b, i, 0, name, mine, acc) == Some((acc, i))
  {
  }

  lemma {:induction false} AssetLoopExact(b: Bytes, i: nat, a: AssetList, name: Bytes, mine: bool, acc: int)
    requires |b| < LIMIT && WfAll(AssetItems(a)) && At(b, i, EncodeAll(AssetItems(a))) && Bounded(acc, i)
    ensures Length(AssetItems(a)) % 2 == 0
    ensures var sum, e := acc + (if mine then AssetSum(a, name) else 0), i + |EncodeAll(AssetItems(a))|;
            AssetLoop(b, i, Length(AssetItems(a)) / 2, name, mine, acc) == Some((sum, e)) && Bounded(sum, e)
    decreases a
  {
    hide At, LaxHead, Ohdr, Encode, EncodeAll, Fits, CborInt, SatAdd, Bounded, Quantity, AssetLoop;
    if a.NoAsset? {
      EncodeAllNil();
      AssetNil(b, i, name, mine, acc);
    } else {
      var x, q := Str(2, a.nw, a.name), Scalar(if a.burn then 1 else 0, a.qw, a.mag);
      ConsAt(b, i, x, Cons(q, AssetItems(a.tail)));
      StrAt(b, i, 2, a.nw, a.name);
      ConsAt(b, i + |Encode(x)|, q, AssetItems(a.tail));
      QuantityAt(b, i + |Encode(x)|, a);
      var e := i + |Encode(x)| + |Encode(q)|;
      NoSaturation(acc, Quantity(a), i, |Encode(x)| + |Encode(q)|);
      AssetStep(b, i, Length(AssetItems(a.tail)) / 2 + 1, name, mine, acc, LaxHead(b, i).value, Quantity(a), e);
      AssetLoopExact(b, e, a.tail, name, mine, if mine && a.name == name then acc + Quantity(a) else acc);
    }
  }

  lemma {:induction false} PolicyWalkExact(b: Bytes, i: nat, m: MintList, policy: Bytes, name: Bytes, acc: int)
    requires |b| < LIMIT && WfAll(MintItems(m)) && At(b, i, EncodeAll(MintItems(m))) && Bounded(acc, i)
    ensures Length(MintItems(m)) % 2 == 0
    ensures PolicyWalk(b, i, Length(MintItems(m)) / 2, policy, name, acc) == Some(acc + MintSum(m, policy, name))
    decreases m
  {
    hide At, LaxHead, Ohdr, Encode, EncodeAll, Fits, AssetLoop, Bounded, PolicyWalk;
    if m.NoMint? {
      PolicyEnd(b, i, policy, name, acc);
    } else {
      var x, y := Str(2, m.w, m.policy), Map(m.aw, AssetItems(m.assets));
      ConsAt(b, i, x, Cons(y, MintItems(m.tail)));
      StrAt(b, i, 2, m.w, m.policy);
      ConsAt(b, i + |Encode(x)|, y, MintItems(m.tail));
      MapAt(b, i + |Encode(x)|, m.aw, AssetItems(m.assets));
      var at := i + |Encode(x)| + 1 + m.aw;
      BoundedLater(acc, i, at);
      AssetLoopExact(b, at, m.assets, name, m.policy == policy, acc);
      PolicyStep(b, i, Length(MintItems(m.tail)) / 2 + 1, policy, name, acc);
      PolicyWalkExact(b, at + |EncodeAll(AssetItems(m.assets))|, m.tail, policy, name,
                      acc + if m.policy == policy then AssetSum(m.assets, name) else 0);
    }
  }

  lemma BoundedLater(acc: int, i: nat, j: nat)
    requires Bounded(acc, i) && i <= j
    ensures Bounded(acc, j)
  {
    assert i * U64 <= j * U64;
  }

  /** From the mint field on. */
  lemma MintFieldExact(b: Bytes, i: nat, f: MintEntry, policy: Bytes, name: Bytes)
    requires |b| < LIMIT && WfAll(FieldTail(f)) && At(b, i, EncodeAll(FieldTail(f)))
    ensures MintLoop(b, i, Length(FieldTail(f)) / 2, policy, name)
            == Some(if f.NoMintField? then 0 else MintSum(f.mint, policy, name))
  {
    hide At, LaxHead, Ohdr, Encode, EncodeAll, Fits, PolicyWalk, SkipD, EntryItems, MintItems, MintSum;
    if f.MintEntry? {
      var x := Map(f.mw, MintItems(f.mint));
      FieldAt(b, i, f.kw, 9, x, EntryItems(f.after, Nil));
      MapAt(b, i + 1 + f.kw, f.mw, MintItems(f.mint));
      assert Bounded(0, i + 1 + f.kw + 1 + f.mw) by {
        assert 0 <= (i + 1 + f.kw + 1 + f.mw) * U64;
      }
      PolicyWalkExact(b, i + 1 + f.kw + 1 + f.mw, f.mint, policy, name, 0);
    }
  }

  lemma {:induction false} MintLoopExact(b: Bytes, i: nat, es: Entries, f: MintEntry, policy: Bytes, name: Bytes)
    requires |b| < LIMIT && KeysAreNot9(es)
    requires WfAll(EntryItems(es, FieldTail(f))) && At(b, i, EncodeAll(EntryItems(es, FieldTail(f))))
    ensures MintLoop(b, i, Length(EntryItems(es, FieldTail(f))) / 2, policy, name)
            == Some(if f.NoMintField? then 0 else MintSum(f.mint, policy, name))
    decreases es
  {
    hide At, LaxHead, Ohdr, Encode, EncodeAll, Fits, PolicyWalk, Skip, SkipD, RawSkip, ItemLen, FieldTail, MintLoop;
    if es.NoEntry? {
      MintFieldExact(b, i, f, policy, name);
    } else {
      var rest := EntryItems(es.tail, FieldTail(f));
      FieldAt(b, i, es.kw, es.key, es.item, rest);
      SkipComplete(b, i + 1 + es.kw, es.item, 0);
      SkippersAgree(b, i + 1 + es.kw, 0, MAX_DEPTH + 1);
      MintStep(b, i, Length(rest) / 2 + 1, Head(0, es.key, i + 1 + es.kw), policy, name,
               i + 1 + es.kw + |Encode(es.item)|);
      MintLoopExact(b, i + 1 + es.kw + |Encode(es.item)|, es.tail, f, policy, name);
    }
  }

  /** One step over an entry with another key. */
  lemma MintStep(b: Bytes, i: nat, n: nat, key: Head, policy: Bytes, name: Bytes, next: nat)
    requires n > 0 && LaxHead(b, i) == Some(key) && key.arg != 9 && SkipD(b, key.next, 0) == Some(next)
    ensures MintLoop(b, i, n, policy, name) == MintLoop(b, next, n - 1, policy, name)
  {
    hide LaxHead, SkipD, PolicyWalk;
  }

  /** For every body shorter than 2^62 bytes, with a mint field or without one, the result is the mathematical sum: the
      saturating additions never saturate. */
  lemma MintQtyExact(t: MintBody, policy: Bytes, name: Bytes)
    requires Wf(MintBodyItem(t)) && KeysAreNot9(t.before) && |Encode(MintBodyItem(t))| < LIMIT
    ensures MintQty(Encode(MintBodyItem(t)), policy, name) == BodySum(t, policy, name)
  {
    hide MintQty, MintLoop, MintSum, KeysAreNot9, SkipD, PolicyWalk;
    var b, items := Encode(MintBodyItem(t)), EntryItems(t.before, FieldTail(t.field));
    AtWhole(b);
    assert WfAll(items) && At(b, 1 + t.w, EncodeAll(items))
           && LaxHead(b, 0) == Some(Head(5, Length(items) / 2, 1 + t.w)) by {
      hide At, Ohdr, Encode, EncodeAll, Fits, EntryItems, FieldTail, Length;
      MapAt(b, 0, t.w, items);
    }
    hide At, LaxHead, Encode, EncodeAll, MintBodyItem, EntryItems, Length;
    MintLoopExact(b, 1 + t.w, t.before, t.field, policy, name);
    MintQtyUnfold(b, policy, name);
  }

  lemma MintQtyUnfold(b: Bytes, policy: Bytes, name: Bytes)
    requires LaxHead(b, 0).Some?
    ensures var h := LaxHead(b, 0).value;
            h.major == 5 && MintLoop(b, h.next, h.arg, policy, name).Some?
            ==> MintQty(b, policy, name) == MintLoop(b, h.next, h.arg, policy, name).value
  {
    hide LaxHead, MintLoop;
  }

  // ---- what the lock compares it with ----

  const HALF: int := 0x8000_0000_0000_0000_0000_0000_0000_0000   // 2^127

  /** `-(amount as i128)`: the cast and the negation both wrap. */
  function RequiredQty(amount: int): int
    requires 0 <= amount < U128
  {
    if amount <= I128_MAX then -amount else if amount == -I128_MIN then I128_MIN else U128 - amount
  }

  /** `b` is an encoding of the body within the limits. */
  predicate Encodes(b: Bytes, t: MintBody) {
    Wf(MintBodyItem(t)) && KeysAreNot9(t.before) && b == Encode(MintBodyItem(t)) && |b| < LIMIT
  }

  /** A body passes exactly when the mint sum is minus the amount, the burn that is meant, for amounts up to 2^127;
      for a larger one exactly when it mints 2^128 less the amount. */
  lemma BodyPasses(b: Bytes, t: MintBody, policy: Bytes, name: Bytes, amount: int)
    requires Encodes(b, t) && 0 <= amount < U128
    ensures MintQty(b, policy, name) == RequiredQty(amount)
            <==> BodySum(t, policy, name) == if amount <= HALF then -amount else U128 - amount
  {
    hide MintQty, BodySum;
    MintQtyExact(t, policy, name);
  }

  /** A body without a mint field passes exactly for the amount 0. */
  lemma NoMintPassesAtZero(b: Bytes, t: MintBody, policy: Bytes, name: Bytes, amount: int)
    requires Encodes(b, t) && t.field.NoMintField? && 0 <= amount < U128
    ensures MintQty(b, policy, name) == RequiredQty(amount) <==> amount == 0
  {
    hide MintQty;
    BodyPasses(b, t, policy, name, amount);
  }

  /** {0: [[id, 0]], 9: {policy: assets}} */
  function WithMint(id: Digest, policy: Bytes, assets: AssetList): MintBody {
    MintBody(0, Entry(0, 0, OneInput(id), NoEntry), MintEntry(0, 0, Mint(1, policy, 0, assets, NoMint), NoEntry))
  }

  lemma WithMintIs(id: Digest, policy: Bytes, assets: AssetList)
    requires |policy| < 256 && Wf(Map(0, AssetItems(assets))) && |Encode(Map(0, AssetItems(assets)))| < 1000
    ensures var t := WithMint(id, policy, assets);
            Wf(MintBodyItem(t)) && Encodes(Encode(MintBodyItem(t)), t) && |Encode(MintBodyItem(t))| < 2000
    ensures forall name :: BodySum(WithMint(id, policy, assets), policy, name) == AssetSum(assets, name)
  {
    assert Fits(1, |policy|) by { assert Pow256(1) == 256; }
    OneInputIs(id);
    var t, x := WithMint(id, policy, assets), Map(0, AssetItems(assets));
    PairIs(Str(2, 1, policy), x);
    var m := Map(0, Cons(Str(2, 1, policy), Cons(x, Nil)));
    assert |Encode(Str(2, 1, policy))| < 300;
    TwoEntries(0, OneInput(id), 9, m);
    hide OneInput, AssetItems, AssetSum, Wf, Encode, Depth;
    assert MintItems(NoMint) == Nil && Map(0, MintItems(t.field.mint)) == m;
    var last := Cons(Scalar(0, 0, 9), Cons(m, Nil));
    assert EntryItems(NoEntry, Nil) == Nil && EntryItems(NoEntry, last) == last;
    assert MintBodyItem(t) == Map(0, Cons(Scalar(0, 0, 0), Cons(OneInput(id), last)));
    assert KeysAreNot9(NoEntry);
    forall name
      ensures BodySum(t, policy, name) == AssetSum(assets, name)
    {
      assert MintSum(NoMint, policy, name) == 0;
    }
  }

  /** A body that mints one token passes at the largest amount. */
  lemma LargestAmountTakesAMint(id: Digest, policy: Bytes, name: Bytes)
    requires |policy| < 256 && |name| < 24
    ensures var t := WithMint(id, policy, Asset(0, name, 0, false, 1, NoAsset));
            Wf(MintBodyItem(t)) && MintQty(Encode(MintBodyItem(t)), policy, name) == RequiredQty(U128 - 1) == 1
  {
    var assets := Asset(0, name, 0, false, 1, NoAsset);
    assert AssetItems(NoAsset) == Nil && AssetSum(assets, name) == 1;
    TwoMore(Str(2, 0, name), Scalar(0, 0, 1), Nil);
    WithMintIs(id, policy, assets);
    hide MintQty, WithMint, Encode;
    MintQtyExact(WithMint(id, policy, assets), policy, name);
  }

  /** A malformed body passes the comparison at one amount only. */
  lemma MalformedPassesAtOneAmount(b: Bytes, policy: Bytes, name: Bytes, amount: int)
    requires MintInner(b, policy, name) == None && 0 <= amount < U128
    ensures MintQty(b, policy, name) == RequiredQty(amount) <==> amount == I128_MAX + 2
  {
    hide MintInner;
  }

  /** And there are such bodies. */
  lemma EmptyIsMalformed(policy: Bytes, name: Bytes)
    ensures MintInner([], policy, name) == None && MintQty([], policy, name) == RequiredQty(I128_MAX + 2)
  {
  }
}
