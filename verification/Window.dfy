/** The header-window follower: a ring buffer of block hashes, its Merkle root and the cumulative difficulty. */
module Window {
  import opened Basics

  // ---- the window root ----

  function Merge(ckb: Hash, l: Digest, r: Digest): Digest {
    ckb(l + r)
  }

  function Pairs(ckb: Hash, level: seq<Digest>): (up: seq<Digest>)
    ensures |up| == |level| / 2
    ensures forall i :: 0 <= i < |up| ==> up[i] == Merge(ckb, level[2 * i], level[2 * i + 1])
  {
    seq(|level| / 2, i requires 0 <= i < |level| / 2 => Merge(ckb, level[2 * i], level[2 * i + 1]))
  }

  /** The root of the leaves; the source has 2^n of them, so every level but the last is even. */
  function RootOf(ckb: Hash, level: seq<Digest>): Digest
    requires level != []
    decreases |level|
  {
    if |level| == 1 then level[0] else RootOf(ckb, Pairs(ckb, level))
  }

  method LevelUp(ckb: Hash, level: seq<Digest>) returns (up: seq<Digest>)
    requires |level| % 2 == 0
    ensures up == Pairs(ckb, level)
  {
    up := [];
    var i := 0;
    while i < |level|
      invariant 0 <= i <= |level| && i % 2 == 0 && up == Pairs(ckb, level)[..i / 2]
    {
      assert Pairs(ckb, level)[i / 2] == Merge(ckb, level[i], level[i + 1]);
      up := up + [Merge(ckb, level[i], level[i + 1])];
      i := i + 2;
    }
  }

  method WindowRoot(ckb: Hash, n: nat, leaves: seq<Digest>) returns (root: Digest)
    requires |leaves| == Pow2(n)
    ensures root == RootOf(ckb, leaves)
  {
    hide Pairs;
    var level := leaves;
    ghost var k: nat := n;
    while |level| > 1
      invariant |level| == Pow2(k) && RootOf(ckb, level) == RootOf(ckb, leaves)
      decreases |level|
    {
      level := LevelUp(ckb, level);
      k := k - 1;
    }
    return level[0];
  }

  /** The inputs that the root hashes. */
  ghost function RootInputs(ckb: Hash, level: seq<Digest>): set<Bytes>
    decreases |level|
  {
    if |level| <= 1 then {} else LevelInputs(level) + RootInputs(ckb, Pairs(ckb, level))
  }

  /** Windows with the same root are the same window, or two nodes collide. */
  lemma {:induction false} RootInjective(ckb: Hash, n: nat, a: seq<Digest>, b: seq<Digest>, all: set<Bytes>)
    requires |a| == Pow2(n) == |b| && RootOf(ckb, a) == RootOf(ckb, b)
    requires RootInputs(ckb, a) <= all && RootInputs(ckb, b) <= all
    ensures a == b || Collides(ckb, all)
    decreases n
  {
    hide Pairs, LevelInputs, Collides;
    if n > 0 {
      RootInjective(ckb, n - 1, Pairs(ckb, a), Pairs(ckb, b), all);
      if !Collides(ckb, all) {
        SamePairs(ckb, a, b, all);
      }
    } else {
      assert a == [a[0]] && b == [b[0]];
    }
  }

  ghost function LevelInputs(level: seq<Digest>): set<Bytes> {
    set i | 0 <= i < |level| / 2 :: Cat(level[2 * i], level[2 * i + 1])
  }

  lemma SamePairs(ckb: Hash, a: seq<Digest>, b: seq<Digest>, all: set<Bytes>)
    requires |a| == |b| && |a| % 2 == 0 && Pairs(ckb, a) == Pairs(ckb, b) && !Collides(ckb, all)
    requires LevelInputs(a) <= all && LevelInputs(b) <= all
    ensures a == b
  {
    forall i | 0 <= i < |a| / 2
      ensures a[2 * i] == b[2 * i] && a[2 * i + 1] == b[2 * i + 1]
    {
      assert Pairs(ckb, a)[i] == Pairs(ckb, b)[i];
      assert Cat(a[2 * i], a[2 * i + 1]) in LevelInputs(a) && Cat(b[2 * i], b[2 * i + 1]) in LevelInputs(b);
      SameParts(ckb, a[2 * i], a[2 * i + 1], b[2 * i], b[2 * i + 1], all);
    }
    EvenOdd(a, b);
  }

  lemma EvenOdd(a: seq<Digest>, b: seq<Digest>)
    requires |a| == |b| && |a| % 2 == 0
    requires forall i :: 0 <= i < |a| / 2 ==> a[2 * i] == b[2 * i] && a[2 * i + 1] == b[2 * i + 1]
    ensures a == b
  {
    forall k | 0 <= k < |a|
      ensures a[k] == b[k]
    {
      assert k == 2 * (k / 2) || k == 2 * (k / 2) + 1;
    }
  }

  // ---- difficulty ----

  const MASK: nat := 0x80_0000   // the mantissa is the low 23 bits

  function Exponent(compact: nat): nat {
    compact / 0x100_0000 % 256
  }

  function Mantissa(compact: nat): nat {
    compact % MASK
  }

  /** The byte that `target_from_compact` leaves at position p. */
  function TargetByte(compact: nat, p: nat): Byte
    requires p < 32
  {
    var k := p - (32 - Exponent(compact));
    if 0 <= k < 3 then BE(Mantissa(compact), 4)[1 + k] else 0
  }

  method TargetFromCompact(compact: nat) returns (t: array<Byte>)
    ensures fresh(t) && t.Length == 32 && forall p :: 0 <= p < 32 ==> t[p] == TargetByte(compact, p)
  {
    hide BE;
    var e: int, m := Exponent(compact), Mantissa(compact);
    t := new Byte[32](_ => 0);
    var mb := BE(m, 4);
    var k := 0;
    while k < 3
      invariant 0 <= k <= 3
      invariant forall p :: 0 <= p < 32 ==> t[p] == if p < 32 - e + k then TargetByte(compact, p) else 0
    {
      var p := 32 - e + k;
      if 0 <= p < 32 {
        t[p] := mb[1 + k];
      }
      k := k + 1;
    }
  }

  function TargetBytes(compact: nat): Bytes {
    seq(32, p requires 0 <= p < 32 => TargetByte(compact, p))
  }

  function Target(compact: nat): nat {
    FromBE(TargetBytes(compact))
  }

  /** `native_difficulty`. */
  function Difficulty(compact: nat): (d: nat)
    ensures d < Pow256(32)
  {
    var tg := Target(compact);
    if tg == 0 then 0 else DivideMax(tg)
  }

  function DivideMax(tg: nat): (d: nat)
    requires tg > 0
    ensures d < Pow256(32)
  {
    assert 0 <= (Pow256(32) - 1) / tg <= Pow256(32) - 1 by {
      BoundedQuotient((Pow256(32) - 1) / tg, tg, (Pow256(32) - 1) % tg, Pow256(32) - 1);
    }
    (Pow256(32) - 1) / tg
  }

  lemma BoundedQuotient(q: int, d: nat, r: nat, x: nat)
    requires d > 0 && x == d * q + r && r < d
    ensures 0 <= q <= x
  {
    if q < 0 { Gap(d, q, 0); }
    if q > 0 { assert d * q == q + q * (d - 1) && q * (d - 1) >= 0; }
  }

  /** A header counts for the largest work that its target allows: 2^256 - 1 by the target, and nothing for no
      target. */
  lemma DifficultyIs(compact: nat)
    ensures Target(compact) == 0 ==> Difficulty(compact) == 0
    ensures Target(compact) > 0 ==>
              && Difficulty(compact) * Target(compact) <= Pow256(32) - 1
              && Pow256(32) - 1 < (Difficulty(compact) + 1) * Target(compact)
  {
    hide Target, Pow256;
    if Target(compact) > 0 {
      QuotientBounds(Pow256(32) - 1, Target(compact));
    }
  }

  lemma QuotientBounds(x: int, d: nat)
    requires 0 <= x && d > 0
    ensures x / d * d <= x < (x / d + 1) * d
  {
    assert x == d * (x / d) + x % d;
  }

  /** So a smaller target never counts for less. */
  lemma HarderCountsMore(a: nat, b: nat)
    requires 0 < Target(a) <= Target(b)
    ensures Difficulty(a) >= Difficulty(b)
  {
    hide Target, Difficulty, Pow256;
    DifficultyIs(a);
    DifficultyIs(b);
    if Difficulty(a) < Difficulty(b) {
      MoreIsMore(Difficulty(a) + 1, Difficulty(b), Target(a), Target(b));
    }
  }

  lemma MoreIsMore(p: nat, q: nat, s: nat, t: nat)
    requires p <= q && s <= t
    ensures p * s <= q * t
  {
    assert q * t == p * s + (q - p) * s + q * (t - s);
    assert (q - p) * s >= 0 && q * (t - s) >= 0;
  }

  function Zeros(n: nat): (z: Bytes)
    ensures |z| == n
  {
    seq(n, i => 0)
  }

  /** The mantissa with 32 zero bytes before it and e after it. */
  function Line(compact: nat): Bytes {
    Zeros(32) + BE(Mantissa(compact), 4)[1..] + Zeros(Exponent(compact))
  }

  lemma {:induction false} FromBEZeros(n: nat)
    ensures FromBE(Zeros(n)) == 0
  {
    if n > 0 {
      FromBEZeros(n - 1);
      assert Zeros(n)[..n - 1] == Zeros(n - 1);
    }
  }

  /** The mantissa's three bytes hold it. */
  lemma MantissaBytes(compact: nat)
    ensures FromBE(BE(Mantissa(compact), 4)[1..]) == Mantissa(compact)
  {
    var m := Mantissa(compact);
    assert Pow256(4) == 0x1_0000_0000 && Pow256(3) == 0x100_0000;
    FromBEOfBE(m, 4);
    var b := BE(m, 4);
    assert b == b[..1] + b[1..];
    FromBEAppend(b[..1], b[1..]);
    assert FromBE(b[..1]) == b[0];
    assert |b[1..]| == 3;
    assert FromBE(b[1..]) == m;
  }

  lemma LineValue(compact: nat)
    ensures FromBE(Line(compact)) == Mantissa(compact) * Pow256(Exponent(compact))
  {
    var mb, e := BE(Mantissa(compact), 4)[1..], Exponent(compact);
    hide BE, FromBE, Pow256, Mantissa, Exponent;
    FromBEAppend(Zeros(32) + mb, Zeros(e));
    FromBEAppend(Zeros(32), mb);
    FromBEZeros(32);
    FromBEZeros(e);
    MantissaBytes(compact);
    ShiftedAlone(FromBE(Zeros(32)), Pow256(|mb|), FromBE(mb), Pow256(e), FromBE(Zeros(e)), FromBE(Line(compact)));
  }

  lemma ShiftedAlone(z: nat, p: nat, m: nat, q: nat, y: nat, v: nat)
    requires z == 0 && y == 0 && v == (z * p + m) * q + y
    ensures v == m * q
  {
  }

  /** `v >> 24`, cut to 256 bits. */
  function Cut256(v: nat): nat {
    v / Pow256(3) % Pow256(32)
  }

  lemma MiddleBytes(line: Bytes, e: nat)
    requires |line| == e + 35
    ensures FromBE(line[e..e + 32]) == Cut256(FromBE(line))
  {
    hide FromBE, Pow256;
    var x, y, z := line[..e], line[e..e + 32], line[e + 32..];
    assert line == x + y + z;
    FromBEAppend(x + y, z);
    FromBEAppend(x, y);
    assert |z| == 3 && |y| == 32;
    assert FromBE(line) / Pow256(3) % Pow256(32) == FromBE(y) by {
      Quotient(FromBE(x) * Pow256(32) + FromBE(y), Pow256(3), FromBE(z));
      Quotient(FromBE(x), Pow256(32), FromBE(y));
    }
  }

  /** The target is the low 23 bits shifted by e - 3 bytes, cut to an integer and to 256 bits; e is byte 3. */
  lemma TargetIsShift(compact: nat)
    ensures Target(compact)
            == compact % 0x80_0000 * Pow256(compact / 0x100_0000 % 256) / Pow256(3) % Pow256(32)
  {
    hide FromBE, Line, TargetBytes, Cut256;
    TargetInLine(compact);
    LineValue(compact);
    MiddleBytes(Line(compact), Exponent(compact));
    CutIs(FromBE(Line(compact)));
  }

  lemma CutIs(v: nat)
    ensures Cut256(v) == v / Pow256(3) % Pow256(32)
  {
  }

  lemma TargetInLine(compact: nat)
    ensures |Line(compact)| == Exponent(compact) + 35
    ensures Line(compact)[Exponent(compact)..Exponent(compact) + 32] == TargetBytes(compact)
  {
    hide BE, Mantissa;
    var e, mb := Exponent(compact), BE(Mantissa(compact), 4);
    forall p | 0 <= p < 32
      ensures Line(compact)[e + p] == TargetByte(compact, p)
    {
      var k := p - (32 - e);
      if 0 <= k < 3 {
        assert Line(compact)[32 + k] == mb[1..][k];
      }
    }
  }

  // ---- the follower ----

  /** What the node answers for a height. */
  datatype Header = Header(hash: Digest, parent: Digest, number: nat, compact: nat)

  type Chain = nat -> Header

  datatype Follower = Follower(chainRoot: Digest, total: nat, windowRoot: Digest, tip: nat, leaves: seq<Digest>)

  /** The slots hold the hashes of the last |leaves| heights up to `tip`. */
  ghost predicate Holds(leaves: seq<Digest>, chain: Chain, tip: nat) {
    forall h: nat :: tip - |leaves| < h <= tip ==> 0 <= h % |leaves| < |leaves| && leaves[h % |leaves|] == chain(h).hash
  }

  /** Every slot of a full window belongs to exactly one of these heights. */
  lemma SlotHeight(w: nat, tip: nat, slot: nat) returns (h: nat)
    requires w > 0 && slot < w && tip >= w - 1
    ensures tip - w < h <= tip && h % w == slot
  {
    var q, r := tip / w, tip % w;
    assert tip == q * w + r;
    if slot <= r {
      h := q * w + slot;
      Quotient(q, w, slot);
    } else {
      assert q >= 1 by { if q <= 0 { assert tip == r + q * w; WholeWindow(q, w, r, tip); } }
      assert q * w == (q - 1) * w + w;
      h := (q - 1) * w + slot;
      Quotient(q - 1, w, slot);
    }
  }

  lemma WholeWindow(q: int, w: nat, r: nat, tip: nat)
    requires q <= 0 && r < w - 1 && tip == q * w + r
    ensures tip < w - 1
  {
    assert q * w <= 0;
  }

  lemma SameSlot(w: nat, g: nat, h: nat)
    requires w > 0 && g % w == h % w && g <= h < g + w
    ensures g == h
  {
    var p, q, r := g / w, h / w, g % w;
    assert g == p * w + r && h == q * w + r;
    if p < q { Gap(w, p, q); }
    if q < p { Gap(w, q, p); }
  }

  /** So the window of a tip is one sequence, whoever fetched it. */
  lemma WindowUnique(a: seq<Digest>, b: seq<Digest>, chain: Chain, tip: nat)
    requires |a| == |b| > 0 && tip >= |a| - 1 && Holds(a, chain, tip) && Holds(b, chain, tip)
    ensures a == b
  {
    forall i | 0 <= i < |a|
      ensures a[i] == b[i]
    {
      var h := SlotHeight(|a|, tip, i);
      assert a[h % |a|] == chain(h).hash == b[h % |a|];
    }
  }

  /** The loop shared by `init` and `relayer_window`: None is a failed request or assertion. */
  method FetchWindow(chain: Chain, w: nat, tip: nat) returns (r: Option<seq<Digest>>)
    requires w > 0
    ensures r.Some? <==> tip >= w - 1
    ensures r.Some? ==> |r.value| == w && Holds(r.value, chain, tip)
  {
    if tip < w - 1 { return None; }
    var leaves := new Option<Digest>[w](_ => None);
    var lo := tip - w + 1;
    var h := lo;
    while h < tip + 1
      invariant lo <= h <= tip + 1
      invariant forall g: nat :: lo <= g < h ==> leaves[g % w] == Some(chain(g).hash)
    {
      forall g: nat | lo <= g < h
        ensures g % w != h % w
      {
        if g % w == h % w { SameSlot(w, g, h); }
      }
      leaves[h % w] := Some(chain(h).hash);
      h := h + 1;
    }
    forall i | 0 <= i < w
      ensures leaves[i].Some?
    {
      var g := SlotHeight(w, tip, i);
      assert leaves[g % w].Some?;
    }
    var out: seq<Digest> := seq(w, i requires 0 <= i < w && leaves[i].Some? reads leaves => leaves[i].value);
    forall g: nat | tip - w < g <= tip
      ensures 0 <= g % w < w && out[g % w] == chain(g).hash
    {
      assert leaves[g % w] == Some(chain(g).hash);
    }
    return Some(out);
  }

  /** `init` at height `start`. */
  method Init(ckb: Hash, depth: nat, chain: Chain, start: nat) returns (r: Option<Follower>)
    ensures r.Some? <==> start >= Pow2(depth) - 1
    ensures r.Some? ==> Tracks(ckb, depth, chain, start, 0, r.value)
  {
    var leaves := FetchWindow(chain, Pow2(depth), start);
    if leaves == None { return None; }
    var root := WindowRoot(ckb, depth, leaves.value);
    return Some(Follower(chain(start).hash, 0, root, start, leaves.value));
  }

  /** `native_next`. */
  method NativeNext(ckb: Hash, depth: nat, st: Follower, h: Header) returns (r: Option<Follower>)
    requires |st.leaves| == Pow2(depth)
    ensures r == Next(ckb, depth, st, h)
  {
    hide RootOf, Difficulty;
    var total := st.total + Difficulty(h.compact);
    if total >= Pow256(32) { return None; }
    var leaves := st.leaves[h.number % Pow2(depth) := h.hash];
    var root := WindowRoot(ckb, depth, leaves);
    return Some(Follower(h.hash, total, root, h.number, leaves));
  }

  function Next(ckb: Hash, depth: nat, st: Follower, h: Header): (r: Option<Follower>)
    requires |st.leaves| == Pow2(depth)
    ensures r.Some? ==> |r.value.leaves| == Pow2(depth)
  {
    if st.total + Difficulty(h.compact) >= Pow256(32) then None
    else
      var leaves := st.leaves[h.number % Pow2(depth) := h.hash];
      Some(Follower(h.hash, st.total + Difficulty(h.compact), RootOf(ckb, leaves), h.number, leaves))
  }

  /** `step` and `apply`: the header after the tip, if it links to the tip. */
  function Advance(ckb: Hash, depth: nat, chain: Chain, st: Follower): (r: Option<Follower>)
    requires |st.leaves| == Pow2(depth)
    ensures r.Some? ==> |r.value.leaves| == Pow2(depth)
  {
    var h := chain(st.tip + 1);
    if h.parent != st.chainRoot then None else Next(ckb, depth, st, h)
  }

  /** n steps. */
  function Run(ckb: Hash, depth: nat, chain: Chain, st: Follower, n: nat): (r: Option<Follower>)
    requires |st.leaves| == Pow2(depth)
    ensures r.Some? ==> |r.value.leaves| == Pow2(depth)
    decreases n, st
  {
    if n == 0 then Some(st)
    else
      var before :- Run(ckb, depth, chain, st, n - 1);
      Advance(ckb, depth, chain, before)
  }

  // ---- what the follower keeps ----

  ghost function Work(chain: Chain, start: nat, n: nat): nat
    decreases n, start
  {
    if n == 0 then 0 else Work(chain, start, n - 1) + Difficulty(chain(start + n).compact)
  }

  /** n steps after the anchor: the tip, its hash, the work since, and the window with its root. */
  ghost predicate Tracks(ckb: Hash, depth: nat, chain: Chain, start: nat, n: nat, st: Follower) {
    && st.tip == start + n
    && st.chainRoot == chain(st.tip).hash
    && st.total == Work(chain, start, n)
    && |st.leaves| == Pow2(depth) && Holds(st.leaves, chain, st.tip)
    && st.windowRoot == RootOf(ckb, st.leaves)
  }

  predicate Links(chain: Chain, h: nat) {
    chain(h + 1).parent == chain(h).hash
  }

  /** The n headers after the anchor are linked, and their work fits 32 bytes. */
  ghost predicate Linked(chain: Chain, start: nat, n: nat) {
    && (forall h: nat :: start <= h < start + n ==> Links(chain, h))
    && Work(chain, start, n) < Pow256(32)
  }

  lemma LinkedStep(chain: Chain, start: nat, n: nat)
    ensures n == 0 ==> Linked(chain, start, n)
    ensures n > 0 ==> (Linked(chain, start, n) <==>
                         Linked(chain, start, n - 1) && Links(chain, start + n - 1)
                             && Work(chain, start, n) < Pow256(32))
  {
    hide Links, Pow256;
    if n > 0 {
      assert Work(chain, start, n - 1) <= Work(chain, start, n);
    }
  }

  lemma WindowMoves(leaves: seq<Digest>, chain: Chain, tip: nat)
    requires |leaves| > 0 && Holds(leaves, chain, tip)
    ensures Holds(leaves[(tip + 1) % |leaves| := chain(tip + 1).hash], chain, tip + 1)
  {
    var w, next := |leaves|, leaves[(tip + 1) % |leaves| := chain(tip + 1).hash];
    forall h: nat | tip + 1 - w < h <= tip + 1
      ensures 0 <= h % w < w && next[h % w] == chain(h).hash
    {
      if h <= tip && h % w == (tip + 1) % w {
        SameSlot(w, h, tip + 1);
      }
    }
  }

  /** A step succeeds exactly on a linked header whose work still fits, and keeps everything. */
  lemma AdvanceTracks(ckb: Hash, depth: nat, chain: Chain, start: nat, n: nat, st: Follower)
    requires Tracks(ckb, depth, chain, start, n, st) && chain(st.tip + 1).number == st.tip + 1
    ensures Advance(ckb, depth, chain, st).Some? <==>
              Links(chain, start + n) && Work(chain, start, n + 1) < Pow256(32)
    ensures Advance(ckb, depth, chain, st).Some? ==>
              Tracks(ckb, depth, chain, start, n + 1, Advance(ckb, depth, chain, st).value)
  {
    hide RootOf, Difficulty, Holds, Pow256, Pow2;
    assert Work(chain, start, n + 1) == Work(chain, start, n) + Difficulty(chain(start + (n + 1)).compact);
    WindowMoves(st.leaves, chain, st.tip);
  }

  /** Anchored at a full window, the follower gets through n steps exactly when the headers are linked and their
      work fits, and then holds the window of its tip, the tip's hash and the work since the anchor. */
  lemma {:induction false} FollowerInvariant(ckb: Hash, depth: nat, chain: Chain, start: nat, n: nat, st: Follower)
    requires Tracks(ckb, depth, chain, start, 0, st) && forall h: nat :: chain(h).number == h
    ensures Run(ckb, depth, chain, st, n).Some? <==> Linked(chain, start, n)
    ensures Run(ckb, depth, chain, st, n).Some?
            ==> Tracks(ckb, depth, chain, start, n, Run(ckb, depth, chain, st, n).value)
    decreases n
  {
    hide Advance, Difficulty, Tracks, Links, Linked, Work, Pow2, Pow256;
    TipAt(ckb, depth, chain, start, 0, st);
    LinkedStep(chain, start, n);
    if n > 0 {
      FollowerInvariant(ckb, depth, chain, start, n - 1, st);
      var before := Run(ckb, depth, chain, st, n - 1);
      if before.Some? {
        TipAt(ckb, depth, chain, start, n - 1, before.value);
        AdvanceTracks(ckb, depth, chain, start, n - 1, before.value);
      }
    }
  }

  lemma TipAt(ckb: Hash, depth: nat, chain: Chain, start: nat, n: nat, st: Follower)
    requires Tracks(ckb, depth, chain, start, n, st)
    ensures st.tip == start + n && |st.leaves| == Pow2(depth)
  {
  }

  /** The follower's window and root are those that the per-leap relayer fetches for the same tip. */
  lemma SameAsFetched(ckb: Hash, depth: nat, chain: Chain, start: nat, n: nat, st: Follower, fetched: seq<Digest>)
    requires Tracks(ckb, depth, chain, start, n, st) && st.tip >= Pow2(depth) - 1
    requires |fetched| == Pow2(depth) && Holds(fetched, chain, st.tip)
    ensures st.leaves == fetched && st.windowRoot == RootOf(ckb, fetched)
  {
    WindowUnique(st.leaves, fetched, chain, st.tip);
  }
}
