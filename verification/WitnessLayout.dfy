/** The proof witness: the relayer's writer and the scripts' bounds-checked reader `R`. */
module WitnessLayout {
  import opened Basics

  /** A transaction body with its two-level membership proof. */
  datatype Proof = Proof(
    body: Bytes,
    subRoot: Bytes, subPos: nat, subSize: nat, subItems: seq<Bytes>,
    rangeKey: Bytes, masterPos: nat, masterSize: nat, masterItems: seq<Bytes>)

  // ---- the reader ----

  function ReadU32(b: Bytes, i: nat): (r: (nat, nat))
    requires i <= |b|
    ensures i <= r.1 <= |b|
  {
    if i + 4 > |b| then (0, |b|) else (FromLE(b[i..i + 4]), i + 4)
  }

  function ReadU64(b: Bytes, i: nat): (r: (nat, nat))
    requires i <= |b|
    ensures i <= r.1 <= |b|
  {
    if i + 8 > |b| then (0, |b|) else (FromLE(b[i..i + 8]), i + 8)
  }

  function ReadLp(b: Bytes, i: nat): (r: (Bytes, nat))
    requires i <= |b|
    ensures i <= r.1 <= |b|
  {
    var n := ReadU32(b, i);
    if n.1 + n.0 > |b| then ([], |b|) else (b[n.1..n.1 + n.0], n.1 + n.0)
  }

  function ReadMany(b: Bytes, i: nat, n: nat): (r: (seq<Bytes>, nat))
    requires i <= |b|
    ensures i <= r.1 <= |b| && |r.0| == n
    decreases n, b
  {
    if n == 0 then ([], i)
    else
      var first := ReadLp(b, i);
      var rest := ReadMany(b, first.1, n - 1);
      ([first.0] + rest.0, rest.1)
  }

  function ReadItems(b: Bytes, i: nat): (r: (seq<Bytes>, nat))
    requires i <= |b|
    ensures i <= r.1 <= |b|
  {
    var n := ReadU32(b, i);
    if n.0 > |b| then ([], n.1) else ReadMany(b, n.1, n.0)
  }

  function Read(b: Bytes): Proof {
    var body := ReadLp(b, 0);
    var subRoot := ReadLp(b, body.1);
    var subPos := ReadU64(b, subRoot.1);
    var subSize := ReadU64(b, subPos.1);
    var subItems := ReadItems(b, subSize.1);
    var rangeKey := ReadLp(b, subItems.1);
    var masterPos := ReadU64(b, rangeKey.1);
    var masterSize := ReadU64(b, masterPos.1);
    var masterItems := ReadItems(b, masterSize.1);
    Proof(body.0, subRoot.0, subPos.0, subSize.0, subItems.0, rangeKey.0, masterPos.0, masterSize.0, masterItems.0)
  }

  /** The cursor. On any bytes it stays within them. */
  class R {
    const b: Bytes
    var i: nat

    predicate Valid()
      reads this
    {
      i <= |b|
    }

    constructor (bytes: Bytes)
      ensures Valid() && b == bytes && i == 0
    {
      b, i := bytes, 0;
    }

    method U32() returns (v: nat)
      requires Valid()
      modifies this
      ensures Valid() && (v, i) == ReadU32(b, old(i))
    {
      if i + 4 > |b| { i := |b|; return 0; }
      v := FromLE(b[i..i + 4]);
      i := i + 4;
    }

    method U64() returns (v: nat)
      requires Valid()
      modifies this
      ensures Valid() && (v, i) == ReadU64(b, old(i))
    {
      if i + 8 > |b| { i := |b|; return 0; }
      v := FromLE(b[i..i + 8]);
      i := i + 8;
    }

    method Lp() returns (s: Bytes)
      requires Valid()
      modifies this
      ensures Valid() && (s, i) == ReadLp(b, old(i))
    {
      var n := U32();
      if i + n > |b| { i := |b|; return []; }
      s := b[i..i + n];
      i := i + n;
    }

    method Items() returns (xs: seq<Bytes>)
      requires Valid()
      modifies this
      ensures Valid() && (xs, i) == ReadItems(b, old(i))
    {
      hide ReadLp;
      var n := U32();
      if n > |b| { return []; }
      xs := [];
      ghost var start := i;
      assert [] + ReadMany(b, i, n).0 == ReadMany(b, i, n).0;
      while |xs| < n
        invariant Valid() && |xs| <= n
        invariant ReadMany(b, start, n) == (xs + ReadMany(b, i, n - |xs|).0, ReadMany(b, i, n - |xs|).1)
      {
        ghost var rest := ReadMany(b, i, n - |xs|);
        var x := Lp();
        assert rest.0 == [x] + ReadMany(b, i, n - |xs| - 1).0;
        assert xs + rest.0 == (xs + [x]) + ReadMany(b, i, n - |xs| - 1).0;
        xs := xs + [x];
      }
      assert xs + [] == xs;
    }
  }

  /** The reads that every proof-checking script starts with. */
  method ReadProof(bytes: Bytes) returns (p: Proof)
    ensures p == Read(bytes)
  {
    hide ReadLp, ReadU64, ReadItems;
    var r := new R(bytes);
    var body := r.Lp();
    var subRoot := r.Lp();
    var subPos := r.U64();
    var subSize := r.U64();
    var subItems := r.Items();
    var rangeKey := r.Lp();
    var masterPos := r.U64();
    var masterSize := r.U64();
    var masterItems := r.Items();
    p := Proof(body, subRoot, subPos, subSize, subItems, rangeKey, masterPos, masterSize, masterItems);
  }

  // ---- the writer ----

  function Lp(s: Bytes): Bytes {
    LE(|s|, 4) + s
  }

  function LpAll(xs: seq<Bytes>): Bytes {
    if xs == [] then [] else Lp(xs[0]) + LpAll(xs[1..])
  }

  function ItemBytes(xs: seq<Bytes>): Bytes {
    LE(|xs|, 4) + LpAll(xs)
  }

  /** `transcode`'s witness. */
  function Transcode(p: Proof): Bytes {
    Lp(p.body) + (Lp(p.subRoot) + (LE(p.subPos, 8) + (LE(p.subSize, 8) + (ItemBytes(p.subItems)
    + (Lp(p.rangeKey) + (LE(p.masterPos, 8) + (LE(p.masterSize, 8) + ItemBytes(p.masterItems))))))))
  }

  predicate Short(s: Bytes) {
    |s| < U32
  }

  /** What the writer can pack: it raises on anything longer. */
  predicate Packable(p: Proof) {
    && Short(p.body) && Short(p.subRoot) && Short(p.rangeKey)
    && |p.subItems| < U32 && |p.masterItems| < U32
    && (forall s :: s in p.subItems ==> Short(s)) && (forall s :: s in p.masterItems ==> Short(s))
    && p.subPos < U64 && p.subSize < U64 && p.masterPos < U64 && p.masterSize < U64
  }

  lemma U32At(b: Bytes, i: nat, n: nat)
    requires At(b, i, LE(n, 4)) && n < U32
    ensures ReadU32(b, i) == (n, i + 4)
  {
    assert Pow256(4) == U32;
    FromLEOfLE(n, 4);
  }

  lemma U64At(b: Bytes, i: nat, n: nat)
    requires At(b, i, LE(n, 8)) && n < U64
    ensures ReadU64(b, i) == (n, i + 8)
  {
    assert Pow256(4) == U32;
    assert Pow256(8) == U64;
    FromLEOfLE(n, 8);
  }

  lemma LpAt(b: Bytes, i: nat, s: Bytes)
    requires At(b, i, Lp(s)) && Short(s)
    ensures ReadLp(b, i) == (s, i + |Lp(s)|)
  {
    AtSplit(b, i, LE(|s|, 4), s);
    U32At(b, i, |s|);
  }

  lemma {:induction false} ManyAt(b: Bytes, i: nat, xs: seq<Bytes>)
    requires At(b, i, LpAll(xs)) && forall s :: s in xs ==> Short(s)
    ensures ReadMany(b, i, |xs|) == (xs, i + |LpAll(xs)|)
    ensures |LpAll(xs)| >= 4 * |xs|
    decreases |xs|
  {
    hide ReadLp;
    if xs != [] {
      AtSplit(b, i, Lp(xs[0]), LpAll(xs[1..]));
      LpAt(b, i, xs[0]);
      ManyAt(b, i + |Lp(xs[0])|, xs[1..]);
      assert xs == [xs[0]] + xs[1..];
    }
  }

  lemma ItemsAt(b: Bytes, i: nat, xs: seq<Bytes>)
    requires At(b, i, ItemBytes(xs)) && |xs| < U32 && forall s :: s in xs ==> Short(s)
    ensures ReadItems(b, i) == (xs, i + |ItemBytes(xs)|)
  {
    hide ReadU32, ReadMany, LE;
    AtSplit(b, i, LE(|xs|, 4), LpAll(xs));
    U32At(b, i, |xs|);
    ManyAt(b, i + 4, xs);
  }

  /** The part of the layout from the range key on. */
  function SecondHalf(p: Proof): Bytes {
    Lp(p.rangeKey) + (LE(p.masterPos, 8) + (LE(p.masterSize, 8) + ItemBytes(p.masterItems)))
  }

  lemma SecondHalfAt(b: Bytes, i: nat, p: Proof)
    requires Packable(p) && At(b, i, SecondHalf(p))
    ensures var j := i + |Lp(p.rangeKey)|;
            && ReadLp(b, i) == (p.rangeKey, j) && ReadU64(b, j) == (p.masterPos, j + 8)
            && ReadU64(b, j + 8) == (p.masterSize, j + 16) && ReadItems(b, j + 16).0 == p.masterItems
  {
    hide At, Lp, LE, ItemBytes, ReadLp, ReadU64, ReadItems, Short;
    var j := i + |Lp(p.rangeKey)|;
    AtSplit(b, i, Lp(p.rangeKey), LE(p.masterPos, 8) + (LE(p.masterSize, 8) + ItemBytes(p.masterItems)));
    LpAt(b, i, p.rangeKey);
    AtSplit(b, j, LE(p.masterPos, 8), LE(p.masterSize, 8) + ItemBytes(p.masterItems));
    U64At(b, j, p.masterPos);
    AtSplit(b, j + 8, LE(p.masterSize, 8), ItemBytes(p.masterItems));
    U64At(b, j + 8, p.masterSize);
    ItemsAt(b, j + 16, p.masterItems);
  }

  lemma FirstHalfAt(b: Bytes, p: Proof)
    requires Packable(p) && At(b, 0, Transcode(p))
    ensures var i1 := |Lp(p.body)|;
            var i2 := i1 + |Lp(p.subRoot)|;
            && ReadLp(b, 0) == (p.body, i1) && ReadLp(b, i1) == (p.subRoot, i2)
            && ReadU64(b, i2) == (p.subPos, i2 + 8) && ReadU64(b, i2 + 8) == (p.subSize, i2 + 16)
            && ReadItems(b, i2 + 16) == (p.subItems, i2 + 16 + |ItemBytes(p.subItems)|)
            && At(b, i2 + 16 + |ItemBytes(p.subItems)|, SecondHalf(p))
  {
    hide At, Lp, LE, ItemBytes, ReadLp, ReadU64, ReadItems, Short, SecondHalf;
    var t4 := ItemBytes(p.subItems) + SecondHalf(p);
    var t3 := LE(p.subSize, 8) + t4;
    var t2 := LE(p.subPos, 8) + t3;
    assert Transcode(p) == Lp(p.body) + (Lp(p.subRoot) + t2) by { TranscodeParts(p); }
    hide Transcode;
    var i1 := |Lp(p.body)|;
    AtSplit(b, 0, Lp(p.body), Lp(p.subRoot) + t2);
    LpAt(b, 0, p.body);
    var i2 := i1 + |Lp(p.subRoot)|;
    AtSplit(b, i1, Lp(p.subRoot), t2);
    LpAt(b, i1, p.subRoot);
    AtSplit(b, i2, LE(p.subPos, 8), t3);
    U64At(b, i2, p.subPos);
    AtSplit(b, i2 + 8, LE(p.subSize, 8), t4);
    U64At(b, i2 + 8, p.subSize);
    AtSplit(b, i2 + 16, ItemBytes(p.subItems), SecondHalf(p));
    ItemsAt(b, i2 + 16, p.subItems);
  }

  lemma TranscodeParts(p: Proof)
    ensures Transcode(p) == Lp(p.body) + (Lp(p.subRoot) + (LE(p.subPos, 8) + (LE(p.subSize, 8)
                            + (ItemBytes(p.subItems) + SecondHalf(p)))))
  {
    hide Lp, LE, ItemBytes;
  }

  /** Reading what was written gives back every field, whatever follows it. */
  lemma RoundTrip(p: Proof, rest: Bytes)
    requires Packable(p)
    ensures Read(Transcode(p) + rest) == p
  {
    var b := Transcode(p) + rest;
    hide At, Lp, LE, ItemBytes, ReadLp, ReadU64, ReadItems, SecondHalf, Transcode, Packable;
    AtPrefix(Transcode(p), rest);
    FirstHalfAt(b, p);
    SecondHalfAt(b, |Lp(p.body)| + |Lp(p.subRoot)| + 16 + |ItemBytes(p.subItems)|, p);
  }
}
