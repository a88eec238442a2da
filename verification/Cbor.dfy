/** Definite-length CBOR items (RFC 8949, section 3), and the three functions that step over one. */
module Cbor {
  import opened Basics

  /** `w` is the number of argument bytes after the initial byte: 0, 1, 2, 4 or 8. Nothing forces the
      shortest one. A map lists its keys and values alternately. */
  datatype Item =
    | Scalar(major: nat, w: nat, n: nat)          // integers, negative integers, simple values and floats
    | Str(major: nat, w: nat, content: Bytes)     // byte and text strings
    | Arr(w: nat, items: Items)
    | Map(w: nat, pairs: Items)
    | Tagged(w: nat, tag: nat, item: Item)

  datatype Items = Nil | Cons(head: Item, tail: Items)

  function Length(xs: Items): nat {
    match xs case Nil => 0 case Cons(_, t) => 1 + Length(t)
  }

  predicate Fits(w: nat, n: nat) {
    (w == 0 && n < 24) || (w in {1, 2, 4, 8} && n < Pow256(w))
  }

  predicate Wf(it: Item) {
    match it
    case Scalar(m, w, n) => m in {0, 1, 7} && Fits(w, n)
    case Str(m, w, s) => m in {2, 3} && Fits(w, |s|)
    case Arr(w, xs) => Fits(w, Length(xs)) && WfAll(xs)
    case Map(w, xs) => Length(xs) % 2 == 0 && Fits(w, Length(xs) / 2) && WfAll(xs)
    case Tagged(w, n, x) => Fits(w, n) && Wf(x)
  }

  predicate WfAll(xs: Items) {
    match xs case Nil => true case Cons(x, t) => Wf(x) && WfAll(t)
  }

  function Max(a: nat, b: nat): nat {
    if a > b then a else b
  }

  /** Nesting: scalars and strings are at depth 0. */
  function Depth(it: Item): nat {
    match it
    case Arr(_, xs) => if xs.Nil? then 0 else 1 + DepthAll(xs)
    case Map(_, xs) => if xs.Nil? then 0 else 1 + DepthAll(xs)
    case Tagged(_, _, x) => 1 + Depth(x)
    case _ => 0
  }

  function DepthAll(xs: Items): nat {
    match xs case Nil => 0 case Cons(x, t) => Max(Depth(x), DepthAll(t))
  }

  /** The additional-information value that announces w argument bytes. */
  function Info(w: nat): nat {
    if w == 1 then 24 else if w == 2 then 25 else if w == 4 then 26 else 27
  }

  function HeadBytes(major: nat, w: nat, n: nat): (b: Bytes)
    requires major < 8 && Fits(w, n)
    ensures |b| == 1 + w
  {
    if w == 0 then [32 * major + n] else [32 * major + Info(w)] + BE(n, w)
  }

  function Encode(it: Item): (b: Bytes)
    requires Wf(it)
    ensures |b| > 0
  {
    match it
    case Scalar(m, w, n) => HeadBytes(m, w, n)
    case Str(m, w, s) => HeadBytes(m, w, |s|) + s
    case Arr(w, xs) => HeadBytes(4, w, Length(xs)) + EncodeAll(xs)
    case Map(w, xs) => HeadBytes(5, w, Length(xs) / 2) + EncodeAll(xs)
    case Tagged(w, n, x) => HeadBytes(6, w, n) + Encode(x)
  }

  function EncodeAll(xs: Items): Bytes
    requires WfAll(xs)
  {
    match xs case Nil => [] case Cons(x, t) => Encode(x) + EncodeAll(t)
  }

  // ---- reading a head ----

  datatype Head = Head(major: nat, arg: nat, next: nat)

  /** The number of argument bytes announced by the low five bits; None for 28 to 31. */
  function Width(lo: nat): Option<nat> {
    if lo < 24 then Some(0)
    else if lo == 24 then Some(1)
    else if lo == 25 then Some(2)
    else if lo == 26 then Some(4)
    else if lo == 27 then Some(8)
    else None
  }

  /** `ohdr`: None on a truncated head and on the indefinite and reserved forms. */
  function Ohdr(b: Bytes, i: nat): (h: Option<Head>)
    ensures h.Some? ==> h.value.major < 8 && i < h.value.next <= |b|
  {
    if i >= |b| then None
    else
      var w :- Width(b[i] % 32);
      if w == 0 then Some(Head(b[i] / 32, b[i] % 32, i + 1))
      else if i + w >= |b| then None
      else Some(Head(b[i] / 32, FromBE(b[i + 1..i + 1 + w]), i + 1 + w))
  }

  lemma HeadRead(b: Bytes, i: nat, major: nat, w: nat, n: nat)
    requires major < 8 && Fits(w, n) && At(b, i, HeadBytes(major, w, n))
    ensures Ohdr(b, i) == Some(Head(major, n, i + 1 + w))
  {
    hide BE, FromBE, Pow256;
    var s := HeadBytes(major, w, n);
    assert b[i] == b[i..i + |s|][0] == s[0];
    if w > 0 {
      assert s[0] == 32 * major + Info(w);
      assert b[i + 1..i + 1 + w] == b[i..i + |s|][1..] == s[1..] == BE(n, w);
      FromBEOfBE(n, w);
    }
  }

  /** The width of the head that was read. */
  lemma HeadShape(b: Bytes, i: nat) returns (w: nat)
    requires Ohdr(b, i).Some?
    ensures var h := Ohdr(b, i).value;
            h.major < 8 && Fits(w, h.arg) && h.next == i + 1 + w && At(b, i, HeadBytes(h.major, w, h.arg))
  {
    hide BE, FromBE, Pow256;
    var h := Ohdr(b, i).value;
    w := h.next - i - 1;
    var lo := b[i] % 32;
    assert b[i] == 32 * h.major + lo;
    SliceCons(b, i, w);
    if w > 0 {
      BEOfFromBE(b[i + 1..i + 1 + w]);
      assert lo == Info(w);
    } else {
      assert b[i..i + 1] == [b[i]] + b[i + 1..i + 1] == [b[i]];
    }
  }

  // ---- stepping over an item ----

  const MAX_DEPTH: nat := 64

  /** `oskip`. */
  function Skip(b: Bytes, i: nat, depth: nat): (e: Option<nat>)
    requires depth <= MAX_DEPTH + 1
    ensures e.Some? ==> i < e.value <= |b|
    decreases MAX_DEPTH + 1 - depth, 0, 0, b
  {
    if depth > MAX_DEPTH then None
    else
      var h :- Ohdr(b, i);
      if h.major == 2 || h.major == 3 then (if h.next + h.arg > |b| then None else Some(h.next + h.arg))
      else if h.major == 4 then SkipMany(b, h.next, h.arg, depth + 1)
      else if h.major == 5 then SkipMany(b, h.next, 2 * h.arg, depth + 1)
      else if h.major == 6 then Skip(b, h.next, depth + 1)
      else Some(h.next)
  }

  function SkipMany(b: Bytes, k: nat, n: nat, depth: nat): (e: Option<nat>)
    requires depth <= MAX_DEPTH + 1 && k <= |b|
    ensures e.Some? ==> k <= e.value <= |b|
    decreases MAX_DEPTH + 1 - depth, 1, n, b
  {
    if n == 0 then Some(k)
    else
      var e :- Skip(b, k, depth);
      SkipMany(b, e, n - 1, depth)
  }

  lemma SkipManyStep(b: Bytes, k: nat, n: nat, depth: nat)
    requires depth <= MAX_DEPTH + 1 && k <= |b|
    ensures SkipMany(b, k, 0, depth) == Some(k)
    ensures n > 0 ==> SkipMany(b, k, n, depth)
                      == match Skip(b, k, depth) case None => None case Some(e) => SkipMany(b, e, n - 1, depth)
  {
  }

  method OSkip(b: Bytes, i: nat, depth: nat) returns (e: Option<nat>)
    requires depth <= MAX_DEPTH + 1
    ensures e == Skip(b, i, depth)
    decreases MAX_DEPTH + 1 - depth, 0
  {
    hide SkipMany, Ohdr;
    if depth > MAX_DEPTH { return None; }
    var h := Ohdr(b, i);
    if h == None { return None; }
    var Head(m, a, j) := h.value;
    if m == 2 || m == 3 {
      e := if j + a > |b| then None else Some(j + a);
    } else if m == 4 || m == 5 {
      e := SkipLoop(b, j, a, m == 5, depth + 1);
    } else if m == 6 {
      e := OSkip(b, j, depth + 1);
    } else {
      e := Some(j);
    }
  }

  /** The two counted loops of `oskip`: one item a turn for an array, two for a map. */
  method SkipLoop(b: Bytes, j: nat, a: nat, pairs: bool, depth: nat) returns (e: Option<nat>)
    requires depth <= MAX_DEPTH + 1 && j <= |b|
    ensures e == SkipMany(b, j, if pairs then 2 * a else a, depth)
    decreases MAX_DEPTH + 1 - depth, 1
  {
    hide SkipMany, Skip;
    var k: nat, left: nat := j, a;
    while left > 0
      invariant k <= |b|
      invariant SkipMany(b, j, if pairs then 2 * a else a, depth)
                == SkipMany(b, k, if pairs then 2 * left else left, depth)
    {
      SkipManyStep(b, k, if pairs then 2 * left else left, depth);
      var r := OSkip(b, k, depth);
      if r == None { return None; }
      k := r.value;
      if pairs {
        SkipManyStep(b, k, 2 * left - 1, depth);
        r := OSkip(b, k, depth);
        if r == None { return None; }
        k := r.value;
      }
      left := left - 1;
    }
    SkipManyStep(b, k, 0, depth);
    e := Some(k);
  }

  /** An encoded item within the depth limit is stepped over exactly. */
  lemma {:induction false} SkipComplete(b: Bytes, i: nat, it: Item, depth: nat)
    requires Wf(it) && At(b, i, Encode(it)) && depth + Depth(it) <= MAX_DEPTH
    ensures Skip(b, i, depth) == Some(i + |Encode(it)|)
    decreases it, 0
  {
    hide At, HeadBytes, Ohdr, Fits, Pow256, BE;
    match it
    case Scalar(m, w, n) => HeadRead(b, i, m, w, n);
    case Str(m, w, s) =>
      AtSplit(b, i, HeadBytes(m, w, |s|), s);
      HeadRead(b, i, m, w, |s|);
    case Arr(w, xs) =>
      AtSplit(b, i, HeadBytes(4, w, Length(xs)), EncodeAll(xs));
      HeadRead(b, i, 4, w, Length(xs));
      SkipManyComplete(b, i + 1 + w, xs, depth + 1);
    case Map(w, xs) =>
      AtSplit(b, i, HeadBytes(5, w, Length(xs) / 2), EncodeAll(xs));
      HeadRead(b, i, 5, w, Length(xs) / 2);
      SkipManyComplete(b, i + 1 + w, xs, depth + 1);
    case Tagged(w, n, x) =>
      AtSplit(b, i, HeadBytes(6, w, n), Encode(x));
      HeadRead(b, i, 6, w, n);
      SkipComplete(b, i + 1 + w, x, depth + 1);
  }

  lemma {:induction false} SkipManyComplete(b: Bytes, i: nat, xs: Items, depth: nat)
    requires WfAll(xs) && At(b, i, EncodeAll(xs)) && depth <= MAX_DEPTH + 1
    requires xs.Cons? ==> depth + DepthAll(xs) <= MAX_DEPTH
    ensures SkipMany(b, i, Length(xs), depth) == Some(i + |EncodeAll(xs)|)
    decreases xs, 1
  {
    hide At, HeadBytes, Ohdr, Fits, Pow256, BE;
    match xs
    case Nil =>
    case Cons(x, t) =>
      AtSplit(b, i, Encode(x), EncodeAll(t));
      SkipComplete(b, i, x, depth);
      SkipManyComplete(b, i + |Encode(x)|, t, depth);
  }

  /** What was stepped over is an encoded item within the depth limit. */
  lemma {:induction false} SkipSound(b: Bytes, i: nat, depth: nat) returns (it: Item)
    requires depth <= MAX_DEPTH + 1 && Skip(b, i, depth).Some?
    ensures Wf(it) && depth + Depth(it) <= MAX_DEPTH
    ensures At(b, i, Encode(it)) && Skip(b, i, depth) == Some(i + |Encode(it)|)
    decreases MAX_DEPTH + 1 - depth, 0, 0
  {
    hide At, HeadBytes, Ohdr, Fits, Pow256, BE;
    var w := HeadShape(b, i);
    var h := Ohdr(b, i).value;
    if h.major == 2 || h.major == 3 {
      var s := b[h.next..h.next + h.arg];
      it := Str(h.major, w, s);
      AtSlice(b, h.next, s);
      AtSplit(b, i, HeadBytes(h.major, w, |s|), s);
    } else if h.major == 4 {
      var xs := SkipManySound(b, h.next, h.arg, depth + 1);
      it := Arr(w, xs);
      AtSplit(b, i, HeadBytes(4, w, h.arg), EncodeAll(xs));
    } else if h.major == 5 {
      var xs := SkipManySound(b, h.next, 2 * h.arg, depth + 1);
      it := Map(w, xs);
      AtSplit(b, i, HeadBytes(5, w, h.arg), EncodeAll(xs));
    } else if h.major == 6 {
      var x := SkipSound(b, h.next, depth + 1);
      it := Tagged(w, h.arg, x);
      AtSplit(b, i, HeadBytes(6, w, h.arg), Encode(x));
    } else {
      it := Scalar(h.major, w, h.arg);
    }
  }

  lemma {:induction false} SkipManySound(b: Bytes, k: nat, n: nat, depth: nat) returns (xs: Items)
    requires depth <= MAX_DEPTH + 1 && k <= |b| && SkipMany(b, k, n, depth).Some?
    ensures WfAll(xs) && Length(xs) == n && (n > 0 ==> depth + DepthAll(xs) <= MAX_DEPTH)
    ensures At(b, k, EncodeAll(xs)) && SkipMany(b, k, n, depth) == Some(k + |EncodeAll(xs)|)
    decreases MAX_DEPTH + 1 - depth, 1, n
  {
    hide At, HeadBytes, Ohdr, Fits, Pow256, BE;
    if n == 0 {
      xs := Nil;
      AtSlice(b, k, []);
    } else {
      var x := SkipSound(b, k, depth);
      var t := SkipManySound(b, k + |Encode(x)|, n - 1, depth);
      xs := Cons(x, t);
      AtSplit(b, k, Encode(x), EncodeAll(t));
    }
  }

  /** `oskip` recognises exactly the items of limited depth, and returns where they end. */
  lemma SkipExact(b: Bytes, i: nat, depth: nat, e: nat)
    requires depth <= MAX_DEPTH + 1
    ensures Skip(b, i, depth) == Some(e)
            <==> exists it :: Wf(it) && depth + Depth(it) <= MAX_DEPTH && At(b, i, Encode(it)) && e == i + |Encode(it)|
  {
    hide Skip, At, Encode, Depth, Wf;
    if Skip(b, i, depth) == Some(e) {
      var it := SkipSound(b, i, depth);
    }
    if it :| Wf(it) && depth + Depth(it) <= MAX_DEPTH && At(b, i, Encode(it)) && e == i + |Encode(it)| {
      SkipComplete(b, i, it, depth);
    }
  }

  // ---- reading the pieces of an encoding ----

  lemma ScalarAt(b: Bytes, i: nat, m: nat, w: nat, n: nat)
    requires Wf(Scalar(m, w, n)) && At(b, i, Encode(Scalar(m, w, n)))
    ensures Ohdr(b, i) == Some(Head(m, n, i + 1 + w)) && |Encode(Scalar(m, w, n))| == 1 + w
  {
    HeadRead(b, i, m, w, n);
  }

  lemma StrAt(b: Bytes, i: nat, m: nat, w: nat, s: Bytes)
    requires Wf(Str(m, w, s)) && At(b, i, Encode(Str(m, w, s)))
    ensures Ohdr(b, i) == Some(Head(m, |s|, i + 1 + w)) && |Encode(Str(m, w, s))| == 1 + w + |s|
    ensures i + 1 + w + |s| <= |b| && b[i + 1 + w..i + 1 + w + |s|] == s
  {
    AtSplit(b, i, HeadBytes(m, w, |s|), s);
    HeadRead(b, i, m, w, |s|);
  }

  lemma ArrAt(b: Bytes, i: nat, w: nat, xs: Items)
    requires Wf(Arr(w, xs)) && At(b, i, Encode(Arr(w, xs)))
    ensures Ohdr(b, i) == Some(Head(4, Length(xs), i + 1 + w)) && At(b, i + 1 + w, EncodeAll(xs))
    ensures |Encode(Arr(w, xs))| == 1 + w + |EncodeAll(xs)|
  {
    hide At, HeadBytes, Ohdr, Pow256, BE;
    AtSplit(b, i, HeadBytes(4, w, Length(xs)), EncodeAll(xs));
    HeadRead(b, i, 4, w, Length(xs));
  }

  lemma TaggedAt(b: Bytes, i: nat, w: nat, n: nat, x: Item)
    requires Wf(Tagged(w, n, x)) && At(b, i, Encode(Tagged(w, n, x)))
    ensures Ohdr(b, i) == Some(Head(6, n, i + 1 + w)) && At(b, i + 1 + w, Encode(x))
    ensures |Encode(Tagged(w, n, x))| == 1 + w + |Encode(x)|
  {
    AtSplit(b, i, HeadBytes(6, w, n), Encode(x));
    HeadRead(b, i, 6, w, n);
  }

  lemma MapAt(b: Bytes, i: nat, w: nat, xs: Items)
    requires Wf(Map(w, xs)) && At(b, i, Encode(Map(w, xs)))
    ensures Ohdr(b, i) == Some(Head(5, Length(xs) / 2, i + 1 + w)) && At(b, i + 1 + w, EncodeAll(xs))
    ensures |Encode(Map(w, xs))| == 1 + w + |EncodeAll(xs)|
  {
    hide At, HeadBytes, Ohdr, Pow256, BE;
    AtSplit(b, i, HeadBytes(5, w, Length(xs) / 2), EncodeAll(xs));
    HeadRead(b, i, 5, w, Length(xs) / 2);
  }

  /** Two items in front of others. */
  lemma TwoMore(x: Item, y: Item, rest: Items)
    ensures var all := Cons(x, Cons(y, rest));
            && Length(all) == 2 + Length(rest) && DepthAll(all) == Max(Depth(x), Max(Depth(y), DepthAll(rest)))
            && (WfAll(all) <==> Wf(x) && Wf(y) && WfAll(rest))
            && (WfAll(all) ==> |EncodeAll(all)| == |Encode(x)| + |Encode(y)| + |EncodeAll(rest)|)
    ensures Length(Nil) == 0 && DepthAll(Nil) == 0 && WfAll(Nil) && EncodeAll(Nil) == []
  {
    hide Encode, Depth, Wf;
    var more := Cons(y, rest);
    assert Length(more) == 1 + Length(rest) && DepthAll(more) == Max(Depth(y), DepthAll(rest));
    assert WfAll(more) <==> Wf(y) && WfAll(rest);
    if Wf(x) && WfAll(more) { assert EncodeAll(more) == Encode(y) + EncodeAll(rest); }
  }

  /** An array and a map of two items, with the shortest head. */
  lemma PairIs(x: Item, y: Item)
    ensures var xs := Cons(x, Cons(y, Nil));
            && Depth(Arr(0, xs)) == Depth(Map(0, xs)) == 1 + Max(Depth(x), Depth(y))
            && (Wf(Arr(0, xs)) <==> Wf(x) && Wf(y)) && (Wf(Map(0, xs)) <==> Wf(x) && Wf(y))
            && (Wf(x) && Wf(y) ==> |Encode(Arr(0, xs))| == |Encode(Map(0, xs))| == 1 + |Encode(x)| + |Encode(y)|)
  {
    TwoMore(x, y, Nil);
    hide Length, WfAll, EncodeAll, DepthAll;
  }

  /** An array of one item, with the shortest head. */
  lemma SingleIs(x: Item)
    requires Wf(x)
    ensures var a := Arr(0, Cons(x, Nil)); Wf(a) && Depth(a) == 1 + Depth(x) && |Encode(a)| == 1 + |Encode(x)|
  {
    assert Length(Nil) == 0 && WfAll(Nil) && DepthAll(Nil) == 0 && EncodeAll(Nil) == [];
    assert Length(Cons(x, Nil)) == 1 && WfAll(Cons(x, Nil)) && DepthAll(Cons(x, Nil)) == Depth(x);
    assert EncodeAll(Cons(x, Nil)) == Encode(x) + [];
    hide Length, WfAll, DepthAll, EncodeAll;
  }

  /** A map of two entries, with the shortest heads. */
  lemma TwoEntries(k: nat, x: Item, l: nat, y: Item)
    requires k < 24 && l < 24
    ensures var it := Map(0, Cons(Scalar(0, 0, k), Cons(x, Cons(Scalar(0, 0, l), Cons(y, Nil)))));
            && (Wf(it) <==> Wf(x) && Wf(y)) && (Wf(it) ==> |Encode(it)| == 3 + |Encode(x)| + |Encode(y)|)
  {
    var last := Cons(Scalar(0, 0, l), Cons(y, Nil));
    TwoMore(Scalar(0, 0, l), y, Nil);
    TwoMore(Scalar(0, 0, k), x, last);
    assert Wf(Scalar(0, 0, k)) && |Encode(Scalar(0, 0, k))| == 1 && Wf(Scalar(0, 0, l))
           && |Encode(Scalar(0, 0, l))| == 1;
    hide Length, WfAll, EncodeAll, Depth, DepthAll;
  }

  lemma ConsAt(b: Bytes, i: nat, x: Item, t: Items)
    requires WfAll(Cons(x, t)) && At(b, i, EncodeAll(Cons(x, t)))
    ensures At(b, i, Encode(x)) && At(b, i + |Encode(x)|, EncodeAll(t))
    ensures |EncodeAll(Cons(x, t))| == |Encode(x)| + |EncodeAll(t)|
  {
    AtSplit(b, i, Encode(x), EncodeAll(t));
  }
}
