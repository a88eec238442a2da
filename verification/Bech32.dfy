/** The relayer's bech32 writer (BIP-173 and BIP-350) and the reader that drops the checksum. */
module Bech32 {
  import opened Basics

  // ---- bits ----

  type Bit = b: int | 0 <= b < 2

  /** The n low bits of a, most significant first. */
  function Low(a: int, n: nat): (bs: seq<Bit>)
    ensures |bs| == n
    decreases n
  {
    if n == 0 then [] else Low(a / 2, n - 1) + [a % 2]
  }

  function Val(bs: seq<Bit>): (v: nat)
    ensures v < Pow2(|bs|)
  {
    if bs == [] then 0 else 2 * Val(bs[..|bs| - 1]) + bs[|bs| - 1]
  }

  /** The bits of a sequence of w-bit numbers. */
  function Bin(ds: seq<nat>, w: nat): (bs: seq<Bit>)
    ensures |bs| == w * |ds|
  {
    if ds == [] then [] else Bin(ds[..|ds| - 1], w) + Low(ds[|ds| - 1], w)
  }

  /** The w-bit numbers of a bit string; bits that do not fill a number are dropped. */
  function Chunk(bs: seq<Bit>, w: nat): seq<nat>
    requires w > 0
  {
    if |bs| < w then [] else [Val(bs[..w])] + Chunk(bs[w..], w)
  }

  function Padding(n: nat): (z: seq<Bit>)
    ensures |z| == n && forall k :: 0 <= k < n ==> z[k] == 0
  {
    seq(n, i => 0)
  }

  predicate Small(ds: seq<nat>, w: nat) {
    forall k :: 0 <= k < |ds| ==> ds[k] < Pow2(w)
  }

  lemma {:induction false} LowZero(n: nat)
    ensures Low(0, n) == Padding(n)
  {
    if n > 0 {
      LowZero(n - 1);
      assert 0 / 2 == 0 && 0 % 2 == 0;
      assert Low(0, n) == Low(0, n - 1) + [0];
    }
  }

  lemma {:induction false} ValOfLow(a: nat, n: nat)
    requires a < Pow2(n)
    ensures Val(Low(a, n)) == a
    decreases n
  {
    if n > 0 {
      ValOfLow(a / 2, n - 1);
      assert Low(a, n)[..n - 1] == Low(a / 2, n - 1);
    }
  }

  lemma {:induction false} LowOfVal(bs: seq<Bit>)
    ensures Low(Val(bs), |bs|) == bs
  {
    if bs != [] {
      var init, last := bs[..|bs| - 1], bs[|bs| - 1];
      LowOfVal(init);
      var v := Val(init);
      assert (2 * v + last) / 2 == v && (2 * v + last) % 2 == last;
      assert bs == init + [last];
    }
  }

  /** `a >> n`. */
  function Shr(a: int, n: nat): int
    decreases n
  {
    if n == 0 then a else Shr(a / 2, n - 1)
  }

  /** `a << n`. */
  function Shl(a: int, n: nat): int
    decreases n
  {
    if n == 0 then a else 2 * Shl(a, n - 1)
  }

  /** `a & ((1 << n) - 1)`. */
  function Mask(a: int, n: nat): (r: nat)
    ensures r < Pow2(n)
  {
    Val(Low(a, n))
  }

  lemma LowOfMask(a: int, n: nat)
    ensures Low(Mask(a, n), n) == Low(a, n)
  {
    LowOfVal(Low(a, n));
  }

  /** The low m + n bits are the m bits above the n low ones, and those. */
  lemma {:induction false} LowSplit(a: int, m: nat, n: nat)
    ensures Low(a, m + n) == Low(Shr(a, n), m) + Low(a, n)
    decreases n
  {
    if n > 0 {
      LowSplit(a / 2, m, n - 1);
    } else {
      assert Low(a, 0) == [];
    }
  }

  /** Shifting in a digit: `(a << f) | b`. */
  lemma {:induction false} AddDigit(a: int, n: nat, b: nat, f: nat)
    requires b < Pow2(f)
    ensures Low(Shl(a, f) + b, n + f) == Low(a, n) + Low(b, f)
    decreases f
  {
    if f > 0 {
      AddDigit(a, n, b / 2, f - 1);
      var x := Shl(a, f - 1);
      assert (2 * x + b) / 2 == x + b / 2 && (2 * x + b) % 2 == b % 2;
    } else {
      assert Low(b, 0) == [];
    }
  }

  lemma BinSnoc(ds: seq<nat>, d: nat, w: nat)
    ensures Bin(ds + [d], w) == Bin(ds, w) + Low(d, w)
  {
    assert (ds + [d])[..|ds|] == ds;
  }

  lemma {:induction false} BinCons(d: nat, ds: seq<nat>, w: nat)
    ensures Bin([d] + ds, w) == Low(d, w) + Bin(ds, w)
  {
    if ds == [] {
      BinSnoc([], d, w);
      assert [d] + ds == [] + [d];
    } else {
      var init, last := ds[..|ds| - 1], ds[|ds| - 1];
      BinCons(d, init, w);
      assert [d] + ds == ([d] + init) + [last] && ds == init + [last];
      BinSnoc([d] + init, last, w);
    }
  }

  /** Cutting the bits of w-bit numbers back into w-bit numbers, whatever short rest follows them. */
  lemma {:induction false} ChunkOfBin(ds: seq<nat>, w: nat, rest: seq<Bit>)
    requires w > 0 && Small(ds, w) && |rest| < w
    ensures Chunk(Bin(ds, w) + rest, w) == ds
  {
    if ds == [] {
      assert Bin(ds, w) + rest == rest;
    } else {
      assert ds == [ds[0]] + ds[1..];
      BinCons(ds[0], ds[1..], w);
      var bs := Bin(ds, w) + rest;
      assert bs == Low(ds[0], w) + (Bin(ds[1..], w) + rest);
      assert bs[..w] == Low(ds[0], w) && bs[w..] == Bin(ds[1..], w) + rest;
      ValOfLow(ds[0], w);
      ChunkOfBin(ds[1..], w, rest);
    }
  }

  /** The bits of the numbers cut out are the bits, when none is left over. */
  lemma {:induction false} BinOfChunk(bs: seq<Bit>, w: nat)
    requires w > 0 && |bs| % w == 0
    ensures Bin(Chunk(bs, w), w) == bs
    ensures Small(Chunk(bs, w), w)
  {
    hide Low, Val, Pow2;
    if |bs| >= w {
      assert (|bs| - w) % w == |bs| % w by {
        var q, r := (|bs| - w) / w, (|bs| - w) % w;
        assert |bs| == (q + 1) * w + r;
        Quotient(q + 1, w, r);
      }
      BinOfChunk(bs[w..], w);
      BinCons(Val(bs[..w]), Chunk(bs[w..], w), w);
      LowOfVal(bs[..w]);
      assert bs == bs[..w] + bs[w..];
    } else {
      ModSmall(|bs|, w);
    }
  }

  lemma ModSmall(n: nat, w: nat)
    requires n < w
    ensures n % w == n
  {
  }

  // ---- regrouping ----

  /** `bits`: f-bit numbers as t-bit numbers, padded with zeros at the end. */
  function Regroup(d: seq<nat>, f: nat, t: nat): seq<nat>
    requires t > 0
  {
    var bs := Bin(d, f);
    Chunk(bs + Padding((t - |bs| % t) % t), t)
  }

  method Bits(d: seq<nat>, f: nat, t: nat) returns (r: seq<nat>)
    requires t > 0 && Small(d, f)
    ensures r == Regroup(d, f, t)
  {
    hide Low, Bin, Chunk, Pow2, Shl, Shr, Mask;
    var a: int, n: nat := 0, 0;
    r := [];
    var i := 0;
    BinNil(f);
    BinNil(t);
    LowNil(0);
    assert d[..0] == [];
    while i < |d|
      invariant 0 <= i <= |d| && n < t && Small(r, t)
      invariant Bin(r, t) + Low(a, n) == Bin(d[..i], f)
    {
      AddDigit(a, n, d[i], f);
      assert d[..i + 1] == d[..i] + [d[i]];
      BinSnoc(d[..i], d[i], f);
      a, n := Shl(a, f) + d[i], n + f;
      while n >= t
        invariant Small(r, t) && Bin(r, t) + Low(a, n) == Bin(d[..i + 1], f)
      {
        n := n - t;
        LowSplit(a, t, n);
        LowOfMask(Shr(a, n), t);
        BinSnoc(r, Mask(Shr(a, n), t), t);
        r := r + [Mask(Shr(a, n), t)];
      }
      i := i + 1;
    }
    assert d[..i] == d;
    PadLength(|Bin(d, f)|, |r|, t, n);
    if n > 0 {
      ShiftZeros(a, n, t - n);
      LowOfMask(Shl(a, t - n), t);
      BinSnoc(r, Mask(Shl(a, t - n), t), t);
      r := r + [Mask(Shl(a, t - n), t)];
    } else {
      LowNil(a);
    }
    assert Bin(r, t) == Bin(d, f) + Padding((t - |Bin(d, f)| % t) % t);
    assert Bin(r, t) + [] == Bin(r, t);
    ChunkOfBin(r, t, []);
  }

  lemma PadLength(len: nat, q: nat, t: nat, n: nat)
    requires n < t && len == t * q + n
    ensures (t - len % t) % t == if n == 0 then 0 else t - n
  {
    assert len == q * t + n;
    Quotient(q, t, n);
    if n > 0 { ModSmall(t - n, t); }
  }

  lemma BinNil(w: nat)
    ensures Bin([], w) == []
  {
  }

  lemma LowNil(a: int)
    ensures Low(a, 0) == []
  {
  }

  /** The padding digit: `(a << k) & mask`. */
  lemma ShiftZeros(a: int, n: nat, k: nat)
    ensures Low(Shl(a, k), n + k) == Low(a, n) + Padding(k)
  {
    hide Low;
    AddDigit(a, n, 0, k);
    LowZero(k);
  }

  /** The reader's regrouping: 5-bit to 8-bit, with the rest dropped. */
  function Unpack(data: seq<nat>): seq<nat> {
    Chunk(Bin(data, 5), 8)
  }

  lemma RegroupRoundTrip(d: seq<nat>)
    requires Small(d, 8)
    ensures Unpack(Regroup(d, 8, 5)) == d && Small(Regroup(d, 8, 5), 5)
  {
    hide Bin, Chunk, Small;
    var bs := Bin(d, 8);
    var k := (5 - |bs| % 5) % 5;
    assert (|bs| + (5 - |bs| % 5) % 5) % 5 == 0;
    BinOfChunk(bs + Padding(k), 5);
    ChunkOfBin(d, 8, Padding(k));
  }

  // ---- the checksum ----

  const G: seq<bv32> := [0x3b6a57b2, 0x26508e6d, 0x1ea119fa, 0x3d4233dd, 0x2a1462b3]
  const BITS: seq<bv32> := [1, 2, 4, 8, 16]
  const LIMIT: bv32 := 0x4000_0000   // 2^30

  /** Twice an element of GF(32), by the polynomial x^5 + x^3 + 1 of BIP-173. */
  function Double(a: bv32): bv32 {
    if a & 16 != 0 then (a << 1) ^ 0x29 else a << 1
  }

  /** The constants are the multiples by 1, 2, 4, 8 and 16 of one polynomial over GF(32), digit by digit, whose
      coefficients are 29, 22, 20, 21, 29, 18: the generator of BIP-173. */
  lemma GeneratorIs(i: nat, j: nat)
    requires i < 4 && j < 6
    ensures Digits(G[0]) == [29, 22, 20, 21, 29, 18]
    ensures Digits(G[i + 1])[j] == Double(Digits(G[i])[j])
  {
  }

  function Xor(a: bv32, b: bv32): bv32 {
    a ^ b
  }

  /** `G[i] if ((b>>i)&1) else 0`. */
  function Pick(b: bv32, i: nat): bv32
    requires i < 5
  {
    Choose(b, BITS[i], G[i])
  }

  function Choose(b: bv32, bit: bv32, g: bv32): bv32 {
    if b & bit != 0 then g else 0
  }

  /** The state after the first i generators. */
  function Feed(c: bv32, b: bv32, i: nat): bv32
    requires i <= 5
    decreases i, c
  {
    if i == 0 then c else Xor(Feed(c, b, i - 1), Pick(b, i - 1))
  }

  function Top(c: bv32): bv32 {
    c >> 25
  }

  function Lift(c: bv32): bv32 {
    (c & 0x1ffffff) << 5
  }

  /** One round of `_pm`. The state stays below 2^30 (PolymodBound), so 32 bits lose nothing. */
  function Round(c: bv32, x: bv32): bv32 {
    Feed(Xor(Lift(c), x), Top(c), 5)
  }

  function PolymodFrom(c: bv32, v: seq<bv32>): bv32
    decreases |v|
  {
    if v == [] then c else PolymodFrom(Round(c, v[0]), v[1..])
  }

  method Pm(v: seq<bv32>) returns (c: bv32)
    ensures c == PolymodFrom(1, v)
  {
    hide Xor, Pick, Top, Lift;
    c := 1;
    var k := 0;
    while k < |v|
      invariant 0 <= k <= |v| && PolymodFrom(c, v[k..]) == PolymodFrom(1, v)
    {
      var b := Top(c);
      ghost var start := Xor(Lift(c), v[k]);
      c := Xor(Lift(c), v[k]);
      var i := 0;
      while i < 5
        invariant 0 <= i <= 5 && c == Feed(start, b, i)
      {
        c := Xor(c, Pick(b, i));
        i := i + 1;
      }
      k := k + 1;
    }
  }

  predicate Below(v: seq<bv32>) {
    forall i :: 0 <= i < |v| ==> v[i] < LIMIT
  }

  lemma XorBound(a: bv32, b: bv32)
    requires a < LIMIT && b < LIMIT
    ensures Xor(a, b) < LIMIT
  {
  }

  lemma PickBound(b: bv32, i: nat)
    requires i < 5
    ensures Pick(b, i) < LIMIT
  {
  }

  lemma LiftBound(c: bv32)
    ensures Lift(c) < LIMIT
  {
  }

  lemma {:induction false} FeedBound(c: bv32, b: bv32, i: nat)
    requires i <= 5 && c < LIMIT
    ensures Feed(c, b, i) < LIMIT
    decreases i
  {
    hide Xor, Pick;
    if i > 0 {
      FeedBound(c, b, i - 1);
      PickBound(b, i - 1);
      XorBound(Feed(c, b, i - 1), Pick(b, i - 1));
    }
  }

  lemma {:induction false} PolymodBound(c: bv32, v: seq<bv32>)
    requires c < LIMIT && Below(v)
    ensures PolymodFrom(c, v) < LIMIT
    decreases |v|
  {
    hide Xor, Lift, Feed;
    if v != [] {
      LiftBound(c);
      XorBound(Lift(c), v[0]);
      FeedBound(Xor(Lift(c), v[0]), Top(c), 5);
      PolymodBound(Round(c, v[0]), v[1..]);
    }
  }

  // ---- linearity over exclusive or ----

  lemma Assoc(a: bv32, b: bv32, c: bv32)
    ensures Xor(Xor(a, b), c) == Xor(a, Xor(b, c))
  {
  }

  lemma Comm(a: bv32, b: bv32)
    ensures Xor(a, b) == Xor(b, a)
  {
  }

  lemma Medial(a: bv32, b: bv32, c: bv32, d: bv32)
    ensures Xor(Xor(a, b), Xor(c, d)) == Xor(Xor(a, c), Xor(b, d))
  {
    hide Xor;
    Assoc(a, b, Xor(c, d));
    Assoc(b, c, d);
    Comm(b, c);
    Assoc(c, b, d);
    Assoc(a, c, Xor(b, d));
  }

  lemma XorSelf(g: bv32)
    ensures g ^ g == 0 && g ^ 0 == g && 0 ^ g == g
  {
  }

  lemma ChooseLinear(b: bv32, d: bv32, bit: bv32, g: bv32)
    requires bit == 1 || bit == 2 || bit == 4 || bit == 8 || bit == 16
    ensures Choose(Xor(b, d), bit, g) == Xor(Choose(b, bit, g), Choose(d, bit, g))
  {
    assert (b ^ d) & bit != 0 <==> ((b & bit != 0) != (d & bit != 0));
    XorSelf(g);
    XorSelf(0);
  }

  lemma PickLinear(b: bv32, d: bv32, i: nat)
    requires i < 5
    ensures Pick(Xor(b, d), i) == Xor(Pick(b, i), Pick(d, i))
  {
    hide Xor, Choose;
    ChooseLinear(b, d, BITS[i], G[i]);
  }

  lemma ShiftLinear(c: bv32, d: bv32)
    ensures Top(Xor(c, d)) == Xor(Top(c), Top(d)) && Lift(Xor(c, d)) == Xor(Lift(c), Lift(d))
  {
  }

  lemma {:induction false} FeedLinear(u: bv32, v: bv32, b: bv32, d: bv32, i: nat)
    requires i <= 5
    ensures Feed(Xor(u, v), Xor(b, d), i) == Xor(Feed(u, b, i), Feed(v, d, i))
    decreases i
  {
    hide Xor, Pick;
    if i > 0 {
      FeedLinear(u, v, b, d, i - 1);
      PickLinear(b, d, i - 1);
      Medial(Feed(u, b, i - 1), Feed(v, d, i - 1), Pick(b, i - 1), Pick(d, i - 1));
    }
  }

  lemma RoundLinear(c: bv32, d: bv32, x: bv32, y: bv32)
    ensures Round(Xor(c, d), Xor(x, y)) == Xor(Round(c, x), Round(d, y))
  {
    hide Xor, Feed, Top, Lift;
    ShiftLinear(c, d);
    Medial(Lift(c), Lift(d), x, y);
    FeedLinear(Xor(Lift(c), x), Xor(Lift(d), y), Top(c), Top(d), 5);
  }

  function XorAll(u: seq<bv32>, v: seq<bv32>): (w: seq<bv32>)
    requires |u| == |v|
    ensures |w| == |u| && forall k :: 0 <= k < |w| ==> w[k] == Xor(u[k], v[k])
  {
    seq(|u|, k requires 0 <= k < |u| => Xor(u[k], v[k]))
  }

  /** `_pm` is linear in the state and the digits. */
  lemma {:induction false} PolymodLinear(c: bv32, d: bv32, u: seq<bv32>, v: seq<bv32>)
    requires |u| == |v|
    ensures PolymodFrom(Xor(c, d), XorAll(u, v)) == Xor(PolymodFrom(c, u), PolymodFrom(d, v))
    decreases |u|
  {
    hide Xor, Round;
    if u != [] {
      RoundLinear(c, d, u[0], v[0]);
      PolymodLinear(Round(c, u[0]), Round(d, v[0]), u[1..], v[1..]);
      assert XorAll(u, v)[1..] == XorAll(u[1..], v[1..]);
    }
  }

  lemma {:induction false} PolymodAppend(c: bv32, u: seq<bv32>, v: seq<bv32>)
    ensures PolymodFrom(c, u + v) == PolymodFrom(PolymodFrom(c, u), v)
    decreases |u|
  {
    hide Round;
    if u == [] {
      assert u + v == v;
    } else {
      assert (u + v)[1..] == u[1..] + v;
      PolymodAppend(Round(c, u[0]), u[1..], v);
    }
  }

  // ---- the six checksum digits ----

  /** `(pm >> 5*(5-i)) & 31`. */
  function Digits(p: bv32): (v: seq<bv32>)
    ensures |v| == 6 && forall k :: 0 <= k < 6 ==> v[k] < 32
  {
    [(p >> 25) & 31, (p >> 20) & 31, (p >> 15) & 31, (p >> 10) & 31, (p >> 5) & 31, p & 31]
  }

  const SIX_ZEROS: seq<bv32> := [0, 0, 0, 0, 0, 0]

  function Push(c: bv32, x: bv32): bv32 {
    (c << 5) ^ x
  }

  /** A state below 2^25 has nothing to feed back: the digit is shifted in. */
  lemma RoundPushes(c: bv32, x: bv32, bound: bv32, next: bv32)
    requires bound in [1, 0x20, 0x400, 0x8000, 0x10_0000, 0x200_0000] && next == bound << 5 && c < bound && x < 32
    ensures Round(c, x) == Push(c, x) < next
  {
    hide Pick;
    assert Top(c) == 0 && Lift(c) == c << 5;
    NoFeed(Xor(Lift(c), x), 5);
    hide Feed;
    PushBound(c, x, bound, next);
  }

  lemma PushBound(c: bv32, x: bv32, bound: bv32, next: bv32)
    requires bound in [1, 0x20, 0x400, 0x8000, 0x10_0000, 0x200_0000] && next == bound << 5 && c < bound && x < 32
    ensures Push(c, x) < next
  {
  }

  lemma {:induction false} NoFeed(c: bv32, i: nat)
    requires i <= 5
    ensures Feed(c, 0, i) == c
    decreases i
  {
    if i > 0 {
      NoFeed(c, i - 1);
      XorSelf(c);
    }
  }

  lemma Unfold6(c: bv32, v: seq<bv32>)
    requires |v| == 6
    ensures PolymodFrom(c, v) == Round(Round(Round(Round(Round(Round(c, v[0]), v[1]), v[2]), v[3]), v[4]), v[5])
  {
    hide Round;
    assert PolymodFrom(c, v) == PolymodFrom(Round(c, v[0]), v[1..]);
    var v1 := v[1..];
    assert PolymodFrom(Round(c, v[0]), v1) == PolymodFrom(Round(Round(c, v[0]), v1[0]), v1[1..]);
    var v2 := v1[1..];
    var c2 := Round(Round(c, v[0]), v1[0]);
    assert PolymodFrom(c2, v2) == PolymodFrom(Round(c2, v2[0]), v2[1..]);
    var v3 := v2[1..];
    var c3 := Round(c2, v2[0]);
    assert PolymodFrom(c3, v3) == PolymodFrom(Round(c3, v3[0]), v3[1..]);
    var v4 := v3[1..];
    var c4 := Round(c3, v3[0]);
    assert PolymodFrom(c4, v4) == PolymodFrom(Round(c4, v4[0]), v4[1..]);
    var v5 := v4[1..];
    var c5 := Round(c4, v4[0]);
    assert PolymodFrom(c5, v5) == PolymodFrom(Round(c5, v5[0]), v5[1..]) && v5[1..] == [];
  }

  lemma Rejoin(p: bv32)
    requires p < LIMIT
    ensures var v := Digits(p); Push(Push(Push(Push(Push(v[0], v[1]), v[2]), v[3]), v[4]), v[5]) == p
  {
  }

  lemma FirstPush(x: bv32)
    ensures Push(0, x) == x
  {
  }

  /** From the zero state, the six digits of p are shifted together to p. */
  lemma DigitsShiftIn(p: bv32)
    requires p < LIMIT
    ensures PolymodFrom(0, Digits(p)) == p
  {
    var v := Digits(p);
    Unfold6(0, v);
    Rejoin(p);
    hide Round, PolymodFrom, Push, Digits;
    FirstPush(v[0]);
    RoundPushes(0, v[0], 1, 0x20);
    var c := v[0];
    RoundPushes(c, v[1], 0x20, 0x400);
    c := Push(c, v[1]);
    RoundPushes(c, v[2], 0x400, 0x8000);
    c := Push(c, v[2]);
    RoundPushes(c, v[3], 0x8000, 0x10_0000);
    c := Push(c, v[3]);
    RoundPushes(c, v[4], 0x10_0000, 0x200_0000);
    c := Push(c, v[4]);
    RoundPushes(c, v[5], 0x200_0000, LIMIT);
  }

  lemma PmBound(u: seq<bv32>, k: bv32)
    requires Below(u) && k < LIMIT
    ensures Xor(PolymodFrom(1, u + SIX_ZEROS), k) < LIMIT
  {
    hide Xor;
    assert Below(SIX_ZEROS);
    PolymodBound(1, u + SIX_ZEROS);
    XorBound(PolymodFrom(1, u + SIX_ZEROS), k);
  }

  /** With the six digits of `pm` in place of the zeros, the polynomial comes out as the constant. */
  lemma ChecksumCloses(u: seq<bv32>, k: bv32)
    requires Below(u) && k < LIMIT
    ensures PolymodFrom(1, u + Digits(Xor(PolymodFrom(1, u + SIX_ZEROS), k))) == k
  {
    hide Xor, XorAll, PolymodFrom, Digits, Below;
    var s, zeros := PolymodFrom(1, u), PolymodFrom(1, u + SIX_ZEROS);
    var pm := Xor(zeros, k);
    var v := Digits(pm);
    PmBound(u, k);
    PolymodAppend(1, u, SIX_ZEROS);
    PolymodAppend(1, u, v);
    PolymodLinear(s, 0, SIX_ZEROS, v);
    XorZero(s);
    XorZeros(v);
    DigitsShiftIn(pm);
    XorCancel(zeros, k);
  }

  lemma XorZero(s: bv32)
    ensures Xor(s, 0) == s && Xor(0, s) == s
  {
  }

  lemma XorZeros(v: seq<bv32>)
    requires |v| == 6
    ensures XorAll(SIX_ZEROS, v) == v
  {
    forall k | 0 <= k < 6
      ensures XorAll(SIX_ZEROS, v)[k] == v[k]
    {
      XorZero(v[k]);
    }
  }

  lemma XorCancel(a: bv32, k: bv32)
    ensures Xor(a, Xor(a, k)) == k
  {
  }

  // ---- strings ----

  const CH: string := "qpzry9x8gf2tvdw0s3jn54khce6mua7l"

  /** `_CHARSET.find(c)` from position i. */
  function FindFrom(c: char, i: nat): (r: int)
    requires i <= |CH|
    ensures -1 <= r < |CH| && (r >= 0 ==> CH[r] == c)
    decreases |CH| - i
  {
    if i == |CH| then -1 else if CH[i] == c then i else FindFrom(c, i + 1)
  }

  function Find(c: char): int {
    FindFrom(c, 0)
  }

  predicate Narrow(ds: seq<nat>) {
    forall k :: 0 <= k < |ds| ==> ds[k] < 0x1_0000
  }

  /** The human-readable part as digits. */
  function Expand(hrp: string): (ds: seq<nat>)
    ensures Narrow(ds)
  {
    seq(|hrp|, i requires 0 <= i < |hrp| => hrp[i] as int / 32) + [0]
    + seq(|hrp|, i requires 0 <= i < |hrp| => hrp[i] as int % 32)
  }

  function Extend(n: nat): bv32
    requires n < 0x1_0000
  {
    (n as bv16) as bv32
  }

  function Vectors(ds: seq<nat>): (v: seq<bv32>)
    requires Narrow(ds)
    ensures |v| == |ds| && forall k :: 0 <= k < |v| ==> v[k] == Extend(ds[k])
  {
    seq(|ds|, k requires 0 <= k < |ds| => Extend(ds[k]))
  }

  function Numbers(v: seq<bv32>): (ds: seq<nat>)
    ensures |ds| == |v| && forall k :: 0 <= k < |ds| ==> ds[k] == v[k] as nat
  {
    seq(|v|, k requires 0 <= k < |v| => v[k] as nat)
  }

  /** `_pm` over numbers. */
  function Polymod(ds: seq<nat>): bv32
    requires Narrow(ds)
  {
    PolymodFrom(1, Vectors(ds))
  }

  function Checksum(hrp: string, data: seq<nat>, k: bv32): (ds: seq<nat>)
    requires Narrow(data)
    ensures |ds| == 6
  {
    Numbers(Digits(Xor(Polymod(Expand(hrp) + data + [0, 0, 0, 0, 0, 0]), k)))
  }

  function Chars(ds: seq<nat>): (s: string)
    requires Small(ds, 5)
    ensures |s| == |ds|
  {
    Pow2Five();
    seq(|ds|, i requires 0 <= i < |ds| => CH[ds[i]])
  }

  lemma Pow2Five()
    ensures Pow2(5) == 32 && Pow2(8) == 256
  {
    assert Pow2(4) == 16;
    assert Pow2(8) == 2 * (2 * (2 * (2 * Pow2(4))));
  }

  /** `enc`. */
  function Enc(hrp: string, data: seq<nat>, k: bv32): string
    requires Small(data, 5)
  {
    NarrowIsSmall(data);
    ChecksumSmall(hrp, data, k);
    hrp + "1" + Chars(data + Checksum(hrp, data, k))
  }

  lemma NarrowIsSmall(data: seq<nat>)
    requires Small(data, 5)
    ensures Narrow(data)
  {
    Pow2Five();
  }

  lemma ChecksumSmall(hrp: string, data: seq<nat>, k: bv32)
    requires Narrow(data)
    ensures Small(Checksum(hrp, data, k), 5) && Narrow(Checksum(hrp, data, k))
  {
    Pow2Five();
    var v := Digits(Xor(Polymod(Expand(hrp) + data + [0, 0, 0, 0, 0, 0]), k));
    hide Digits;
    forall i | 0 <= i < 6
      ensures Numbers(v)[i] < 32
    {
      SmallVector(v[i]);
    }
  }

  lemma SmallVector(x: bv32)
    requires x < 32
    ensures x as nat < 32 && Extend(x as nat) == x
  {
  }

  /** The shortest test strings of BIP-173 and BIP-350, in lower case. */
  lemma KnownStrings()
    ensures Enc("a", [], 1) == "a12uel5l"
    ensures Enc("a", [], 0x2bc830a3) == "a1lqfn3a"
  {
    hide Checksum, Chars;
    KnownChecksums();
    KnownChars();
    var c, d := Checksum("a", [], 1), Checksum("a", [], 0x2bc830a3);
    assert [] + c == c && [] + d == d;
  }

  lemma KnownChars()
    ensures Small([10, 28, 25, 31, 20, 31], 5) && Chars([10, 28, 25, 31, 20, 31]) == "2uel5l"
    ensures Small([31, 0, 9, 19, 17, 29], 5) && Chars([31, 0, 9, 19, 17, 29]) == "lqfn3a"
  {
    Pow2Five();
  }

  lemma KnownChecksums()
    ensures Narrow([])
    ensures Checksum("a", [], 1) == [10, 28, 25, 31, 20, 31]
    ensures Checksum("a", [], 0x2bc830a3) == [31, 0, 9, 19, 17, 29]
  {
    var v: seq<bv32> := [3, 0, 1, 0, 0, 0, 0, 0, 0];
    var ds: seq<nat> := Expand("a") + [] + [0, 0, 0, 0, 0, 0];
    hide PolymodFrom, Digits;
    assert ds == [3, 0, 1, 0, 0, 0, 0, 0, 0];
    assert Vectors(ds) == v by { ThreeVectors(); }
    KnownState(v);
    hide Expand, Vectors;
    KnownDigits();
  }

  lemma KnownDigits()
    ensures Numbers(Digits(Xor(0x15ccfe9e, 1))) == [10, 28, 25, 31, 20, 31]
    ensures Numbers(Digits(Xor(0x15ccfe9e, 0x2bc830a3))) == [31, 0, 9, 19, 17, 29]
  {
    assert Digits(Xor(0x15ccfe9e, 1)) == [10, 28, 25, 31, 20, 31];
    assert Digits(Xor(0x15ccfe9e, 0x2bc830a3)) == [31, 0, 9, 19, 17, 29];
  }

  lemma ThreeVectors()
    ensures Extend(3) == 3 && Extend(0) == 0 && Extend(1) == 1
  {
  }

  /** The nine rounds. */
  lemma KnownState(v: seq<bv32>)
    requires v == [3, 0, 1, 0, 0, 0, 0, 0, 0]
    ensures PolymodFrom(1, v) == 0x15ccfe9e
  {
    hide PolymodFrom;
    OneRound(1, v, 0x23);
    OneRound(0x23, v[1..], 0x460);
    OneRound(0x460, v[2..], 0x8c01);
    OneRound(0x8c01, v[3..], 0x118020);
    OneRound(0x118020, v[4..], 0x2300400);
    OneRound(0x2300400, v[5..], 0x3d6ad7b2);
    OneRound(0x3d6ad7b2, v[6..], 0x2fd30b9);
    OneRound(0x2fd30b9, v[7..], 0x24cc4092);
    OneRound(0x24cc4092, v[8..], 0x15ccfe9e);
    assert PolymodFrom(0x15ccfe9e, []) == 0x15ccfe9e by { NoRound(0x15ccfe9e); }
  }

  lemma OneRound(c: bv32, v: seq<bv32>, d: bv32)
    requires v != [] && d == Fed(Xor(Lift(c), v[0]), c >> 25)
    ensures PolymodFrom(c, v) == PolymodFrom(d, v[1..])
  {
    FeedIs(Xor(Lift(c), v[0]), c >> 25);
    hide Fed, Feed, Xor, Lift;
  }

  /** What five generators add, written out. */
  function Fed(x: bv32, b: bv32): bv32 {
    Xor(Xor(Xor(Xor(Xor(x, Choose(b, 1, 0x3b6a57b2)), Choose(b, 2, 0x26508e6d)), Choose(b, 4, 0x1ea119fa)),
            Choose(b, 8, 0x3d4233dd)), Choose(b, 16, 0x2a1462b3))
  }

  lemma FeedIs(x: bv32, b: bv32)
    ensures Feed(x, b, 5) == Fed(x, b)
  {
    hide Choose, Xor;
    assert Feed(x, b, 1) == Xor(Feed(x, b, 0), Pick(b, 0));
    assert Feed(x, b, 2) == Xor(Feed(x, b, 1), Pick(b, 1));
    assert Feed(x, b, 3) == Xor(Feed(x, b, 2), Pick(b, 2));
    assert Feed(x, b, 4) == Xor(Feed(x, b, 3), Pick(b, 3));
  }

  lemma NoRound(c: bv32)
    ensures PolymodFrom(c, []) == c
  {
  }

  /** A written string's digits and its prefix make the polynomial come out as the constant. */
  lemma ChecksumValid(hrp: string, data: seq<nat>, k: bv32)
    requires Small(data, 5) && k < LIMIT
    ensures Narrow(data) && Narrow(Checksum(hrp, data, k))
    ensures Polymod(Expand(hrp) + data + Checksum(hrp, data, k)) == k
  {
    NarrowIsSmall(data);
    ChecksumSmall(hrp, data, k);
    hide PolymodFrom, Digits, Expand, Small, Extend, Xor;
    var head := Expand(hrp) + data;
    var u := Vectors(head);
    var v := Digits(Xor(PolymodFrom(1, u + SIX_ZEROS), k));
    assert Vectors([0, 0, 0, 0, 0, 0]) == SIX_ZEROS by {
      assert Extend(0) == 0;
    }
    VectorsAppend(head, [0, 0, 0, 0, 0, 0]);
    assert Checksum(hrp, data, k) == Numbers(v);
    VectorsOfNumbers(v);
    VectorsAppend(head, Numbers(v));
    VectorsSmall(head);
    ChecksumCloses(u, k);
  }

  lemma VectorsSmall(ds: seq<nat>)
    requires Narrow(ds)
    ensures Below(Vectors(ds))
  {
    hide Extend;
    forall i | 0 <= i < |ds|
      ensures Vectors(ds)[i] < LIMIT
    {
      SmallNumber(ds[i]);
    }
  }

  lemma VectorsAppend(a: seq<nat>, b: seq<nat>)
    requires Narrow(a) && Narrow(b)
    ensures Narrow(a + b) && Vectors(a + b) == Vectors(a) + Vectors(b)
  {
    hide Extend;
  }

  lemma SmallNumber(n: nat)
    requires n < 0x1_0000
    ensures Extend(n) < LIMIT
  {
  }

  lemma VectorsOfNumbers(v: seq<bv32>)
    requires forall i :: 0 <= i < |v| ==> v[i] < 32
    ensures Narrow(Numbers(v)) && Vectors(Numbers(v)) == v
  {
    forall i | 0 <= i < |v|
      ensures Numbers(v)[i] < 32 && Extend(Numbers(v)[i]) == v[i]
    {
      SmallVector(v[i]);
    }
  }

  // ---- the reader ----

  /** White space for `strip`. */
  predicate IsSpace(c: char) {
    9 <= c as int <= 13 || 28 <= c as int <= 32 || c as int == 0x85 || c as int == 0xa0 || c as int == 0x1680
    || 0x2000 <= c as int <= 0x200a || c as int == 0x2028 || c as int == 0x2029 || c as int == 0x202f
    || c as int == 0x205f || c as int == 0x3000
  }

  function StripLeft(s: string): string {
    if s != [] && IsSpace(s[0]) then StripLeft(s[1..]) else s
  }

  function StripRight(s: string): string {
    if s != [] && IsSpace(s[|s| - 1]) then StripRight(s[..|s| - 1]) else s
  }

  function LowerChar(c: char): char {
    if 'A' <= c <= 'Z' then (c as int + 32) as char else c
  }

  function Lower(s: string): (t: string)
    ensures |t| == |s| && forall i :: 0 <= i < |t| ==> t[i] == LowerChar(s[i])
  {
    seq(|s|, i requires 0 <= i < |s| => LowerChar(s[i]))
  }

  /** `rfind("1")`: the last position, or -1. */
  function LastOne(s: string): (p: int)
    ensures -1 <= p < |s|
    ensures p >= 0 ==> s[p] == '1'
    ensures forall i :: p < i < |s| ==> s[i] != '1'
  {
    if s == [] then -1 else if s[|s| - 1] == '1' then |s| - 1 else LastOne(s[..|s| - 1])
  }

  /** `(acc << 5) | v`, where an unknown character is v = -1. */
  function Or5(acc: int, v: int): int {
    if v == -1 then -1 else Shl(acc, 5) + v
  }

  /** The accumulator loop. */
  function Gather(data: seq<int>, acc: int, bits: nat): seq<nat>
    decreases |data|, bits
  {
    if data == [] then []
    else
      var next := Or5(acc, data[0]);
      if bits + 5 >= 8 then [Mask(Shr(next, bits + 5 - 8), 8)] + Gather(data[1..], next, bits + 5 - 8)
      else Gather(data[1..], next, bits + 5)
  }

  function DropSix(data: seq<int>): seq<int> {
    if |data| < 6 then [] else data[..|data| - 6]
  }

  /** The data part of a string, as digits. */
  function DataPart(s: string): (data: seq<int>)
  {
    var t := Lower(StripRight(StripLeft(s)));
    var tail := t[LastOne(t) + 1..];
    seq(|tail|, i requires 0 <= i < |tail| => Find(tail[i]))
  }

  /** `_bech32_decode`. */
  function Decode(s: string): seq<nat> {
    Gather(DropSix(DataPart(s)), 0, 0)
  }

  method Bech32Decode(s: string) returns (out: seq<nat>)
    ensures out == Decode(s)
  {
    hide DataPart, Or5, Mask, Shr;
    var data := DropSix(DataPart(s));
    var acc: int, bits: nat := 0, 0;
    out := [];
    var i := 0;
    while i < |data|
      invariant 0 <= i <= |data|
      invariant out + Gather(data[i..], acc, bits) == Gather(data, 0, 0)
    {
      acc := Or5(acc, data[i]);
      bits := bits + 5;
      if bits >= 8 {
        bits := bits - 8;
        out := out + [Mask(Shr(acc, bits), 8)];
      }
      i := i + 1;
    }
  }

  /** The reader's loop cuts the bits of the digits into bytes and drops the rest. */
  lemma {:induction false} GatherUnpacks(data: seq<nat>, done: seq<nat>, acc: int, bits: nat)
    requires Small(data, 5) && Small(done, 8) && bits < 8
    ensures Chunk(Bin(done, 8) + Low(acc, bits) + Bin(data, 5), 8) == done + Gather(data, acc, bits)
    decreases |data|
  {
    hide Low, Bin, Chunk, Mask, Shl, Shr;
    if data == [] {
      BinNil(5);
      assert Bin(done, 8) + Low(acc, bits) + [] == Bin(done, 8) + Low(acc, bits);
      ChunkOfBin(done, 8, Low(acc, bits));
    } else {
      Pow2Five();
      var v, rest := data[0], data[1..];
      var next := Or5(acc, v);
      assert data == [v] + rest;
      BinCons(v, rest, 5);
      AddDigit(acc, bits, v, 5);
      var bs := Bin(done, 8) + Low(next, bits + 5) + Bin(rest, 5);
      assert Bin(done, 8) + Low(acc, bits) + Bin(data, 5) == bs;
      if bits + 5 >= 8 {
        var n := bits + 5 - 8;
        var d := Mask(Shr(next, n), 8);
        LowSplit(next, 8, n);
        LowOfMask(Shr(next, n), 8);
        BinSnoc(done, d, 8);
        assert bs == Bin(done + [d], 8) + Low(next, n) + Bin(rest, 5);
        GatherUnpacks(rest, done + [d], next, n);
      } else {
        GatherUnpacks(rest, done, next, bits + 5);
      }
    }
  }

  lemma ReaderUnpacks(data: seq<nat>)
    requires Small(data, 5)
    ensures Gather(data, 0, 0) == Unpack(data)
  {
    BinNil(8);
    LowNil(0);
    GatherUnpacks(data, [], 0, 0);
    assert [] + [] + Bin(data, 5) == Bin(data, 5);
  }

  // ---- the round trip ----

  /** The characters BIP-173 allows in the human-readable part. */
  predicate Printable(hrp: string) {
    forall i :: 0 <= i < |hrp| ==> 33 <= hrp[i] as int <= 126
  }

  lemma CharsetFacts(i: nat)
    requires i < 32
    ensures |CH| == 32 && CH[i] != '1' && LowerChar(CH[i]) == CH[i] && !IsSpace(CH[i])
  {
  }

  lemma CharsetDistinct(i: nat, j: nat)
    requires i < j < 32
    ensures |CH| == 32 && CH[i] != CH[j]
  {
  }

  lemma {:induction false} FindOfChar(d: nat, i: nat)
    requires i <= d < 32
    ensures |CH| == 32 && FindFrom(CH[d], i) == d
    decreases d - i
  {
    CharsetFacts(d);
    if i < d {
      CharsetDistinct(i, d);
      FindOfChar(d, i + 1);
    }
  }

  /** What the reader makes of a written string: the digits after the separator. */
  lemma WrittenDigits(hrp: string, ds: seq<nat>)
    requires Printable(hrp) && Small(ds, 5) && ds != []
    ensures DataPart(hrp + "1" + Chars(ds)) == ds
  {
    hide Lower, Find, Small, StripLeft, StripRight, Printable, LastOne, Chars;
    WrittenIsPlain(hrp, ds);
    var s := hrp + "1" + Chars(ds);
    var t := Lower(s);
    TailOfWritten(hrp, ds);
    SplitAtLast(t, |hrp|);
    forall i | 0 <= i < |ds|
      ensures Find(Chars(ds)[i]) == ds[i]
    {
      DigitOfChar(ds, i);
    }
  }

  lemma SplitAtLast(t: string, k: nat)
    requires k < |t| && t[k] == '1' && forall i :: k < i < |t| ==> t[i] != '1'
    ensures LastOne(t) == k
  {
  }

  lemma DigitOfChar(ds: seq<nat>, i: nat)
    requires Small(ds, 5) && i < |ds|
    ensures Find(Chars(ds)[i]) == ds[i] && Chars(ds)[i] != '1' && LowerChar(Chars(ds)[i]) == Chars(ds)[i]
  {
    hide Find, LowerChar, IsSpace;
    Pow2Five();
    CharsetFacts(ds[i]);
    FoundChar(ds[i]);
  }

  /** Lower-casing keeps the separator and the data characters, which are no separators. */
  lemma TailOfWritten(hrp: string, ds: seq<nat>)
    requires Small(ds, 5)
    ensures var t := Lower(hrp + "1" + Chars(ds));
            && |t| == |hrp| + 1 + |ds| && t[|hrp|] == '1' && t[|hrp| + 1..] == Chars(ds)
            && forall i :: |hrp| < i < |t| ==> t[i] != '1'
  {
    hide LowerChar, Small, Chars;
    var s := hrp + "1" + Chars(ds);
    var t := Lower(s);
    SeparatorStays();
    assert s[|hrp|] == '1';
    forall i | |hrp| < i < |t|
      ensures t[i] != '1' && t[i] == Chars(ds)[i - |hrp| - 1]
    {
      assert s[i] == Chars(ds)[i - |hrp| - 1];
      DigitOfChar(ds, i - |hrp| - 1);
    }
  }

  lemma SeparatorStays()
    ensures LowerChar('1') == '1'
  {
  }

  lemma FoundChar(d: nat)
    requires d < 32
    ensures |CH| == 32 && Find(CH[d]) == d
  {
    FindOfChar(d, 0);
  }

  lemma WrittenIsPlain(hrp: string, ds: seq<nat>)
    requires Printable(hrp) && Small(ds, 5) && ds != []
    ensures var s := hrp + "1" + Chars(ds); StripRight(StripLeft(s)) == s
  {
    LastDigit(ds);
    hide Small, Pow2, IsSpace;
    var s := hrp + "1" + Chars(ds);
    FirstIsPlain(hrp, Chars(ds));
    assert s[|s| - 1] == Chars(ds)[|ds| - 1];
    assert StripRight(StripLeft(s)) == s by {
      hide IsSpace;
    }
  }

  lemma LastDigit(ds: seq<nat>)
    requires Small(ds, 5) && ds != []
    ensures !IsSpace(Chars(ds)[|ds| - 1])
  {
    Pow2Five();
    CharsetFacts(ds[|ds| - 1]);
  }

  lemma FirstIsPlain(hrp: string, tail: string)
    requires Printable(hrp)
    ensures !IsSpace((hrp + "1" + tail)[0])
  {
    var s := hrp + "1" + tail;
    assert s[0] == if hrp != [] then hrp[0] else '1';
  }

  /** Reading back what was written gives the bytes, for either checksum constant. */
  lemma RoundTrip(hrp: string, d: seq<nat>, k: bv32)
    requires Printable(hrp) && Small(d, 8)
    ensures Small(Regroup(d, 8, 5), 5) && Decode(Enc(hrp, Regroup(d, 8, 5), k)) == d
  {
    hide Regroup, Checksum, Chars, DataPart, Gather, Small;
    RegroupRoundTrip(d);
    var data := Regroup(d, 8, 5);
    NarrowIsSmall(data);
    ChecksumSmall(hrp, data, k);
    var ds := data + Checksum(hrp, data, k);
    SmallAppend(data, Checksum(hrp, data, k));
    WrittenDigits(hrp, ds);
    assert DropSix(ds) == data;
    ReaderUnpacks(data);
  }

  lemma SmallAppend(a: seq<nat>, b: seq<nat>)
    requires Small(a, 5) && Small(b, 5)
    ensures Small(a + b, 5)
  {
  }
}
