/** The stake lottery: the exact rational Taylor comparison, the fixed-point target that replaces it,
    and how far they agree. */
module Lottery {
  import opened Basics
  import opened ExpSeries

  /** -ln(1 - phi_f) = X_NUM / C_DEN with phi_f = 0.2; the source's C_NUM is -X_NUM. */
  const X_NUM: int := 251237303637201
  const C_NUM: int := -251237303637201
  const C_DEN: int := 1125899906842624
  const TWO256: int := 0x1_0000000000000000000000000000000000000000000000000000000000000000
  const TWO512: int := TWO256 * TWO256
  const TWO768: int := TWO512 * TWO256

  /** The exponent stake/total * X_NUM/C_DEN. */
  function Exponent(stake: int, total: int): real
    requires total > 0
  {
    (stake * X_NUM) as real / (total * C_DEN) as real
  }

  // ---- the exact comparison ----

  ghost predicate SurelyAbove(cmp: real, x: real, n: nat) {
    cmp > Phi(x, n) + 3.0 * Abs(Term(x, n + 1))
  }

  ghost predicate SurelyBelow(cmp: real, x: real, n: nat) {
    cmp < Phi(x, n) - 3.0 * Abs(Term(x, n + 1))
  }

  /** The first of the partial sums 1..bound that decides says that `cmp` is below. */
  ghost predicate DecidesBelow(bound: nat, cmp: real, x: real) {
    exists n: nat :: 1 <= n <= bound && SurelyBelow(cmp, x, n)
                     && forall k: nat :: 1 <= k < n ==> !SurelyAbove(cmp, x, k)
  }

  lemma NotBoth(cmp: real, x: real, n: nat)
    ensures !(SurelyAbove(cmp, x, n) && SurelyBelow(cmp, x, n))
  {
  }

  /** `taylor_comparison`. */
  method TaylorComparison(bound: nat, cmp: real, x: real) returns (below: bool)
    ensures below <==> DecidesBelow(bound, cmp, x)
  {
    hide Term, Phi, NextTerm;
    var newX, phi, divisor, i := x, 1.0, 1, 0;
    assert Phi(x, 0) == 1.0 by { PhiUnfold(x, 0); }
    TermOne(x);
    while i < bound
      invariant 0 <= i <= bound && divisor == i + 1
      invariant phi == Phi(x, i) && newX == Term(x, i + 1)
      invariant forall k: nat :: 1 <= k <= i ==> !SurelyAbove(cmp, x, k) && !SurelyBelow(cmp, x, k)
    {
      PhiUnfold(x, i + 1);
      TermUnfold(x, i + 2);
      phi := phi + newX;
      divisor := divisor + 1;
      newX := NextTerm(newX, x, divisor);
      i := i + 1;
      var err := (if newX < 0.0 then -newX else newX) * 3.0;
      if cmp > phi + err {
        assert SurelyAbove(cmp, x, i);
        NotBoth(cmp, x, i);
        return false;
      } else if cmp < phi - err {
        assert SurelyBelow(cmp, x, i);
        return true;
      }
      assert !SurelyAbove(cmp, x, i) && !SurelyBelow(cmp, x, i);
    }
    return false;
  }

  lemma TermUnfold(y: real, k: nat)
    requires k > 0
    ensures Term(y, k) == NextTerm(Term(y, k - 1), y, k)
  {
  }

  /** `is_lottery_won` compares 1/(1-p), p = ev/2^512, with exp(stake/total * -c). */
  function Odds(ev: int): real
    requires 0 <= ev < TWO512
  {
    TWO512 as real / (TWO512 - ev) as real
  }

  ghost predicate Won(ev: int, stake: int, total: int)
    requires 0 <= ev < TWO512 && total > 0
  {
    DecidesBelow(1000, Odds(ev), Exponent(stake, total))
  }

  method IsLotteryWon(ev: int, stake: int, total: int) returns (won: bool)
    requires 0 <= ev < TWO512 && 0 <= stake < U64 && 0 < total < U64
    ensures won <==> Won(ev, stake, total)
  {
    won := TaylorComparison(1000, Odds(ev), Exponent(stake, total));
  }

  // ---- the fixed-point target ----

  /** Division of the source's big integers: towards zero. The divisors here are positive. */
  function TruncDiv(a: int, b: int): int
    requires b > 0
  {
    if a >= 0 then a / b else -((-a) / b)
  }

  /** The n-th term as the loop computes it, at scale 2^768. */
  function FixedTerm(stake: int, total: int, n: nat): int
    requires total > 0
    decreases n, stake
  {
    if n == 0 then TWO768
    else TruncDiv(TruncDiv(FixedTerm(stake, total, n - 1) * (stake * C_NUM), total * C_DEN), n)
  }

  function Acc(stake: int, total: int, n: nat): int
    requires total > 0
    decreases n, stake
  {
    if n == 0 then TWO768 else Acc(stake, total, n - 1) + FixedTerm(stake, total, n)
  }

  /** 2^512 minus the floor of the accumulated sum at scale 2^512. */
  function Target(stake: int, total: int): int
    requires total > 0
  {
    TWO512 - Acc(stake, total, 401) / TWO256
  }

  /** `compute_target`: returns the target and the number of the term at which the loop stopped. For a
      stake within the total the stop is always the first zero term, never the cap on the terms. */
  method ComputeTarget(stake: int, total: int) returns (target: int, terms: nat)
    requires 0 <= stake < U64 && 0 < total < U64
    ensures target == Target(stake, total)
    ensures 1 <= terms <= 401
    ensures stake <= total ==>
              && terms <= 385 && FixedTerm(stake, total, terms) == 0
              && forall k :: 0 <= k < terms ==> FixedTerm(stake, total, k) != 0
  {
    hide FixedTerm, Acc;
    var xa, xb := stake * C_NUM, total * C_DEN;
    var t, acc, n := TWO768, TWO768, 0;
    FixedTermUnfold(stake, total, 0);
    while true
      invariant 0 <= n <= 400
      invariant t == FixedTerm(stake, total, n) && acc == Acc(stake, total, n)
      invariant forall k :: 0 <= k <= n ==> FixedTerm(stake, total, k) != 0
      decreases 401 - n
    {
      n := n + 1;
      FixedTermUnfold(stake, total, n);
      t := t * xa;
      t := TruncDiv(t, xb);
      t := TruncDiv(t, n);
      if t == 0 { break; }
      acc := acc + t;
      if n > 400 { break; }
    }
    if t == 0 {
      StaysZero(stake, total, n, 401);
    }
    if stake <= total {
      forall k | 385 <= k <= n
        ensures FixedTerm(stake, total, k) == 0
      {
        VanishesBy385(stake, total, k);
      }
    }
    target := TWO512 - acc / TWO256;
    terms := n;
  }

  lemma FixedTermUnfold(stake: int, total: int, n: nat)
    requires total > 0
    ensures FixedTerm(stake, total, 0) == Acc(stake, total, 0) == TWO768
    ensures n > 0 ==> FixedTerm(stake, total, n)
                      == TruncDiv(TruncDiv(FixedTerm(stake, total, n - 1) * (stake * C_NUM), total * C_DEN), n)
    ensures n > 0 ==> Acc(stake, total, n) == Acc(stake, total, n - 1) + FixedTerm(stake, total, n)
  {
  }

  /** Once a term is zero so are all later ones: the sum to 401 is the sum to the exit. */
  lemma {:induction false} StaysZero(stake: int, total: int, n: nat, m: nat)
    requires total > 0 && 0 < n <= m && FixedTerm(stake, total, n) == 0
    ensures FixedTerm(stake, total, m) == 0
    ensures Acc(stake, total, m) == Acc(stake, total, n - 1)
    decreases m
  {
    hide FixedTerm, Acc;
    FixedTermUnfold(stake, total, m);
    if n < m {
      StaysZero(stake, total, n, m - 1);
      assert 0 * (stake * C_NUM) == 0;
    }
  }

  /** The magnitude of the n-th term: floors only. */
  function Magnitude(stake: int, total: int, n: nat): int
    requires total > 0
    decreases n, stake
  {
    if n == 0 then TWO768
    else Magnitude(stake, total, n - 1) * (stake * X_NUM) / (total * C_DEN) / n
  }

  lemma MagnitudeUnfold(stake: int, total: int, n: nat)
    requires total > 0
    ensures Magnitude(stake, total, 0) == TWO768
    ensures n > 0 ==> Magnitude(stake, total, n)
                      == Magnitude(stake, total, n - 1) * (stake * X_NUM) / (total * C_DEN) / n
  {
  }

  lemma {:induction false} MagnitudeNonNegative(stake: int, total: int, n: nat)
    requires 0 <= stake && 0 < total
    ensures 0 <= Magnitude(stake, total, n)
  {
    hide Magnitude;
    MagnitudeUnfold(stake, total, n);
    if n > 0 {
      MagnitudeNonNegative(stake, total, n - 1);
      NestedFloor(Magnitude(stake, total, n - 1), stake * X_NUM, total * C_DEN, n);
    }
  }

  /** Two floors in a row are one floor by the product. */
  lemma NestedFloor(m: int, x: int, b: int, n: int)
    requires 0 <= m && 0 <= x && 0 < b && 0 < n
    ensures var r := m * x / b / n; 0 <= r && r * (b * n) <= m * x < (r + 1) * (b * n)
  {
    IntMulNonNegative(m, x);
    FloorBounds(m * x, b);
    var v := m * x / b;
    FloorBounds(v, n);
    var r := v / n;
    IntMulMono(r * n, v, b);
    IntMulMono(v + 1, (r + 1) * n, b);
    assert (r * n) * b == r * (b * n) && ((r + 1) * n) * b == (r + 1) * (b * n);
  }

  lemma FloorBounds(p: int, b: int)
    requires 0 <= p && 0 < b
    ensures 0 <= p / b && (p / b) * b <= p < (p / b + 1) * b
  {
  }

  lemma IntMulNonNegative(a: int, b: int)
    requires 0 <= a && 0 <= b
    ensures 0 <= a * b
  {
  }

  lemma IntMulMono(a: int, b: int, c: int)
    requires a <= b && 0 <= c
    ensures a * c <= b * c
  {
    IntMulNonNegative(b - a, c);
  }

  lemma IntMulCancel(a: int, b: int, c: int)
    requires a * c <= b * c && 0 < c
    ensures a <= b
  {
    if a > b {
      IntMulMono(b + 1, a, c);
    }
  }

  function IntSign(n: nat): int {
    if n % 2 == 0 then 1 else -1
  }

  /** The signs alternate and truncation only shortens: a term is plus or minus its magnitude. */
  lemma {:induction false} FixedTermIsSigned(stake: int, total: int, n: nat)
    requires 0 <= stake && 0 < total
    ensures FixedTerm(stake, total, n) == IntSign(n) * Magnitude(stake, total, n)
  {
    hide FixedTerm, Magnitude, Acc;
    FixedTermUnfold(stake, total, n);
    MagnitudeUnfold(stake, total, n);
    if n > 0 {
      FixedTermIsSigned(stake, total, n - 1);
      MagnitudeNonNegative(stake, total, n - 1);
      SignedStep(Magnitude(stake, total, n - 1), IntSign(n - 1), stake * X_NUM, total * C_DEN, n);
      assert stake * C_NUM == -(stake * X_NUM);
    }
  }

  lemma SignedStep(m: int, s: int, x: int, b: int, n: int)
    requires 0 <= m && 0 <= x && 0 < b && 0 < n && (s == 1 || s == -1)
    ensures TruncDiv(TruncDiv(s * m * -x, b), n) == -s * (m * x / b / n)
  {
    assert 0 <= m * x;
    assert s * m * -x == -s * (m * x);
    SignedDiv(-s, m * x, b);
    SignedDiv(-s, m * x / b, n);
  }

  /** Truncated division keeps a sign apart. */
  lemma SignedDiv(s: int, q: int, d: int)
    requires 0 <= q && 0 < d && (s == 1 || s == -1)
    ensures 0 <= q / d && TruncDiv(s * q, d) == s * (q / d)
  {
  }

  // ---- the loop ends early ----

  lemma Pow4At384()
    ensures Pow4(384) == TWO768
  {
    assert Pow4(4) == 0x100;
    hide Pow4;
    Pow4Sum(4, 4, 0x100, 0x100);
    Pow4Sum(8, 8, 0x10000, 0x10000);
    Pow4Sum(16, 16, 0x1_0000_0000, 0x1_0000_0000);
    Pow4Sum(32, 32, U64, U64);
    Pow4Sum(64, 64, U64 * U64, U64 * U64);
    Pow4Sum(128, 128, TWO256, TWO256);
    Pow4Sum(128, 256, TWO256, TWO512);
  }

  lemma Pow4Sum(a: nat, b: nat, pa: int, pb: int)
    requires Pow4(a) == pa && Pow4(b) == pb
    ensures Pow4(a + b) == pa * pb
  {
    Pow4Add(a, b);
  }

  lemma QuarterBound(stake: int, total: int)
    requires 0 <= stake <= total
    ensures 4 * (stake * X_NUM) <= total * C_DEN
  {
    assert stake * X_NUM <= total * X_NUM;
  }

  /** What falls to a quarter with every step. */
  lemma {:induction false} Quartered(m: nat -> int, s: int, n: nat)
    requires m(0) <= s && forall k: nat :: k < n ==> 0 <= m(k) && 4 * m(k + 1) <= m(k)
    ensures m(n) * Pow4(n) <= s
  {
    if n > 0 {
      Quartered(m, s, n - 1);
      FourTimes(m(n - 1), m(n), Pow4(n - 1), s);
    }
  }

  lemma FourTimes(m: int, r: int, p: int, s: int)
    requires 4 * r <= m && 0 <= p && m * p <= s
    ensures r * (4 * p) <= s
  {
    IntMulMono(4 * r, m, p);
    assert r * (4 * p) == (4 * r) * p;
  }

  lemma QuarterStep(stake: int, total: int, n: nat)
    requires 0 <= stake <= total && 0 < total && n > 0
    ensures 4 * Magnitude(stake, total, n) <= Magnitude(stake, total, n - 1)
  {
    hide Magnitude;
    MagnitudeNonNegative(stake, total, n - 1);
    MagnitudeUnfold(stake, total, n);
    QuarterBound(stake, total);
    NestedFloor(Magnitude(stake, total, n - 1), stake * X_NUM, total * C_DEN, n);
    Quarter(Magnitude(stake, total, n - 1), stake * X_NUM, total * C_DEN, n, Magnitude(stake, total, n));
  }

  lemma Quarter(m: int, x: int, b: int, n: int, r: int)
    requires 0 <= m && 0 <= 4 * x <= b && 0 < b && 0 < n && 0 <= r && r * (b * n) <= m * x
    ensures 4 * r <= m
  {
    IntMulNonNegative(r, b);
    IntMulMono(1, n, r * b);
    assert (r * b) * n == r * (b * n);
    IntMulMono(4 * x, b, m);
    assert (4 * x) * m == 4 * (m * x);
    IntMulCancel(4 * r, m, b);
  }

  /** The 385th term is zero for every stake, so the exit after 400 terms is never taken. */
  lemma VanishesBy385(stake: int, total: int, n: nat)
    requires 0 <= stake <= total && 0 < total
    ensures n >= 385 ==> FixedTerm(stake, total, n) == 0
  {
    hide FixedTerm, Magnitude;
    if n >= 385 {
      var m := (k: nat) => Magnitude(stake, total, k);
      forall k: nat | k < n
        ensures 0 <= m(k) && 4 * m(k + 1) <= m(k)
      {
        MagnitudeNonNegative(stake, total, k);
        QuarterStep(stake, total, k + 1);
      }
      MagnitudeUnfold(stake, total, 0);
      Quartered(m, TWO768, n);
      MagnitudeNonNegative(stake, total, n);
      FixedTermIsSigned(stake, total, n);
      Pow4At384();
      Pow4Past(384, n, TWO768);
      SmallFactor(Magnitude(stake, total, n), Pow4(n), TWO768);
    }
  }

  lemma {:induction false} Pow4Past(k: nat, n: nat, p: int)
    requires k < n && Pow4(k) == p
    ensures Pow4(n) >= 4 * p
    decreases n
  {
    if k + 1 < n {
      Pow4Past(k, n - 1, p);
    }
  }

  lemma SmallFactor(m: int, p: int, s: int)
    requires 0 <= m && m * p <= s < p && 0 < s
    ensures m == 0
  {
    if m >= 1 {
      IntMulMono(1, m, p);
    }
  }

  // ---- how far the fixed-point sum is from the series ----

  const SCALE: real := TWO768 as real

  lemma ExponentSmall(stake: int, total: int)
    requires 0 <= stake <= total && 0 < total
    ensures Small(Exponent(stake, total))
  {
    QuarterBound(stake, total);
    FractionBound((stake * X_NUM) as real, (total * C_DEN) as real);
  }

  lemma FractionBound(a: real, b: real)
    requires 0.0 <= 4.0 * a <= b && 0.0 < b
    ensures 0.0 <= a / b <= 0.25
  {
    var q := a / b;
    assert b * q == a;
    MulCancel(b, 0.0, q);
    MulCancel(b, q, 0.25);
  }

  lemma StrictCancel(c: real, a: real, b: real)
    requires 0.0 < c && c * a < c * b
    ensures a < b
  {
    if b <= a {
      MulMono(b, a, c);
    }
  }

  /** One fixed-point step is the floor of the exact step. */
  lemma FloorOfNext(m: int, r: int, x: int, b: int, n: nat, y: real)
    requires 0 < b && 0 < n && y == x as real / b as real
    requires r * (b * n) <= m * x < (r + 1) * (b * n)
    ensures r as real <= NextTerm(m as real, y, n) < (r + 1) as real
  {
    var q, c := NextTerm(m as real, y, n), (b * n) as real;
    assert (b * n) as real == b as real * n as real;
    assert c * q == (m * x) as real by {
      assert n as real * q == m as real * y;
      assert b as real * y == x as real;
      assert c * q == b as real * (n as real * q);
      assert b as real * (m as real * y) == m as real * (b as real * y);
    }
    assert (r * (b * n)) as real == c * r as real;
    assert ((r + 1) * (b * n)) as real == c * (r + 1) as real;
    MulCancel(c, r as real, q);
    StrictCancel(c, q, (r + 1) as real);
  }

  /** The exact term at the scale of the fixed-point one. */
  ghost function ScaledTerm(y: real, n: nat): real {
    SCALE * Term(y, n)
  }

  ghost function ScaledAlt(y: real, n: nat): real {
    SCALE * Alt(y, n)
  }

  lemma NextTermLinear(s: real, t: real, y: real, n: nat)
    requires n > 0
    ensures s * NextTerm(t, y, n) == NextTerm(s * t, y, n)
  {
    var c := n as real;
    assert c * NextTerm(t, y, n) == t * y;
    assert c * (s * NextTerm(t, y, n)) == s * (t * y);
    assert s * (t * y) == (s * t) * y;
  }

  lemma NextTermSplit(a: real, b: real, y: real, n: nat)
    requires n > 0 && Small(y) && 0.0 <= b
    ensures 0.0 <= NextTerm(a + b, y, n) - NextTerm(a, y, n) <= b / 4.0
  {
    NextTermAdds(a, b, y, n);
    NextTermBound(b, y, n);
  }

  lemma NextTermAdds(a: real, b: real, y: real, n: nat)
    requires n > 0
    ensures NextTerm(a + b, y, n) == NextTerm(a, y, n) + NextTerm(b, y, n)
  {
    var c := n as real;
    assert (a + b) * y == a * y + b * y;
    assert c * NextTerm(a + b, y, n) == (a + b) * y;
    assert c * NextTerm(a, y, n) == a * y && c * NextTerm(b, y, n) == b * y;
    MulCancel(c, NextTerm(a + b, y, n), NextTerm(a, y, n) + NextTerm(b, y, n));
    MulCancel(c, NextTerm(a, y, n) + NextTerm(b, y, n), NextTerm(a + b, y, n));
  }

  lemma NextTermBound(b: real, y: real, n: nat)
    requires n > 0 && Small(y) && 0.0 <= b
    ensures 0.0 <= NextTerm(b, y, n) <= b / 4.0
  {
    assert n as real * NextTerm(b, y, n) == b * y;
    DividedBound(n as real, NextTerm(b, y, n), b, y);
  }

  lemma DividedBound(c: real, q: real, b: real, y: real)
    requires 1.0 <= c && 0.0 <= b && 0.0 <= y <= 0.25 && c * q == b * y
    ensures 0.0 <= q <= b / 4.0
  {
    MulNonNegative(b, y);
    MulCancel(c, 0.0, q);
    var w := b * y;
    assert w <= b / 4.0 by {
      MulMono(y, 0.25, b);
      assert w == y * b;
    }
    assert q <= w by {
      MulMono(1.0, c, q);
    }
  }

  lemma ScaledTermUnfold(y: real, n: nat)
    ensures ScaledTerm(y, 0) == SCALE
    ensures n > 0 ==> ScaledTerm(y, n) == NextTerm(ScaledTerm(y, n - 1), y, n)
  {
    hide NextTerm;
    if n > 0 {
      NextTermLinear(SCALE, Term(y, n - 1), y, n);
    }
  }

  /** What truncation has cut from a term. */
  ghost function TermGap(stake: int, total: int, n: nat): real
    requires total > 0
  {
    ScaledTerm(Exponent(stake, total), n) - Magnitude(stake, total, n) as real
  }

  /** Each fixed-point term is the exact one cut by at most 4/3 of a unit. */
  lemma {:induction false} TermError(stake: int, total: int, n: nat)
    requires 0 <= stake <= total && 0 < total
    ensures 0.0 <= 3.0 * TermGap(stake, total, n) <= 4.0
  {
    hide Magnitude, ScaledTerm, NextTerm;
    var y := Exponent(stake, total);
    ExponentSmall(stake, total);
    hide Exponent, Small;
    ScaledTermUnfold(y, n);
    MagnitudeUnfold(stake, total, n);
    if n > 0 {
      var m, r := Magnitude(stake, total, n - 1), Magnitude(stake, total, n);
      TermError(stake, total, n - 1);
      MagnitudeNonNegative(stake, total, n - 1);
      NestedFloor(m, stake * X_NUM, total * C_DEN, n);
      FloorOfExponent(stake, total, m, r, n);
      NextTermSplit(m as real, ScaledTerm(y, n - 1) - m as real, y, n);
    }
  }

  lemma FloorOfExponent(stake: int, total: int, m: int, r: int, n: nat)
    requires 0 < total && 0 < n
    requires r * (total * C_DEN * n) <= m * (stake * X_NUM) < (r + 1) * (total * C_DEN * n)
    ensures r as real <= NextTerm(m as real, Exponent(stake, total), n) < (r + 1) as real
  {
    FloorOfNext(m, r, stake * X_NUM, total * C_DEN, n, Exponent(stake, total));
  }

  lemma ScaledAltUnfold(y: real, n: nat)
    ensures ScaledAlt(y, 0) == SCALE
    ensures n > 0 ==> ScaledAlt(y, n) == ScaledAlt(y, n - 1) + Sign(n) * ScaledTerm(y, n)
  {
    hide Term, Sign;
    assert Alt(y, 0) == 1.0;
    if n > 0 {
      ScaleStep(SCALE, Alt(y, n - 1), Sign(n), Term(y, n), Alt(y, n));
    }
  }

  lemma ScaleStep(s: real, a: real, sign: real, t: real, next: real)
    requires next == a + sign * t
    ensures s * next == s * a + sign * (s * t)
  {
  }

  /** The accumulated sum is within 4/3 of a unit per term of the exact alternating sum. */
  lemma {:induction false} AccError(stake: int, total: int, n: nat)
    requires 0 <= stake <= total && 0 < total
    ensures 3.0 * Abs(Acc(stake, total, n) as real - ScaledAlt(Exponent(stake, total), n)) <= 4.0 * n as real
  {
    hide Magnitude, ScaledTerm, ScaledAlt, FixedTerm, Acc, Exponent;
    var y := Exponent(stake, total);
    ScaledAltUnfold(y, n);
    FixedTermUnfold(stake, total, n);
    if n > 0 {
      AccError(stake, total, n - 1);
      TermError(stake, total, n);
      FixedTermIsSigned(stake, total, n);
    }
  }

  // ---- the comparison with the exact lottery ----

  lemma TermBelowUnit(y: real, k: nat)
    requires Small(y) && k > 384
    ensures 0.0 <= ScaledTerm(y, k) <= 1.0
  {
    hide Term, Pow4;
    TermNonNegative(y, k);
    TermTiny(y, k);
    Pow4At384();
    Pow4Past(384, k, TWO768);
    MulNonNegative(SCALE, Term(y, k));
    MulMono(SCALE, Pow4(k) as real, Term(y, k));
  }

  /** At 1000 and 401 terms the product of the two sums is 1 within 5 units. */
  lemma ProductAtScale(y: real)
    requires Small(y)
    ensures SCALE - 5.0 <= SCALE * Product(y, 1000, 401) <= SCALE + 5.0
  {
    hide Term, Product;
    ProductNearOne(y, 1000, 401);
    TermBelowUnit(y, 402);
    TermBelowUnit(y, 600);
    ScaleNear(SCALE, Product(y, 1000, 401), Term(y, 402), Term(y, 600));
  }

  lemma ScaleNear(s: real, p: real, a: real, b: real)
    requires 0.0 < s && s * a <= 1.0 && s * b <= 1.0 && Abs(p - 1.0) <= 2.0 * a + 3.0 * b
    ensures s - 5.0 <= s * p <= s + 5.0
  {
    MulMono(p - 1.0, 2.0 * a + 3.0 * b, s);
    MulMono(1.0 - p, 2.0 * a + 3.0 * b, s);
    assert (2.0 * a + 3.0 * b) * s == 2.0 * (s * a) + 3.0 * (s * b);
    assert (p - 1.0) * s == s * p - s && (1.0 - p) * s == s - s * p;
  }

  /** The distance from the odds to 2^512, at scale 2^768. */
  function Remaining(ev: int): int {
    (TWO512 - ev) * TWO256
  }

  /** Strictly above the sum by 489 units: the last partial sum decides below. */
  lemma WinMargin(s: real, phi: real, alt: real, u: real, rho: real)
    requires 1.0 <= phi && 0.0 <= u && s * u <= 1.0 && rho <= s && 0.0 <= rho
    requires s - 5.0 <= s * (phi * alt)
    requires s * alt + 489.0 <= rho
    ensures s < (phi - 3.0 * u) * rho
  {
    MulMono(s * alt + 489.0, rho, phi);
    assert (s * alt + 489.0) * phi == s * (phi * alt) + 489.0 * phi;
    MulMono(rho, s, u);
    assert (phi - 3.0 * u) * rho == rho * phi - 3.0 * (rho * u);
  }

  /** Below it by 489 units: the odds are above every partial sum. */
  lemma LossMargin(s: real, phi: real, alt: real, rho: real)
    requires 1.0 <= phi && s * (phi * alt) <= s + 5.0 && rho <= s * alt - 489.0
    ensures phi * rho < s
  {
    MulMono(rho, s * alt - 489.0, phi);
    assert (s * alt - 489.0) * phi == s * (phi * alt) - 489.0 * phi;
    assert rho * phi == phi * rho;
  }

  lemma OddsBelow(ev: int, bound: real)
    requires 0 <= ev < TWO512
    ensures SCALE < bound * Remaining(ev) as real ==> Odds(ev) < bound
    ensures bound * Remaining(ev) as real < SCALE ==> bound < Odds(ev)
  {
    var r, q, w := (TWO512 - ev) as real, Odds(ev), TWO256 as real;
    assert r * q == TWO512 as real;
    assert Remaining(ev) as real == r * w;
    assert SCALE == w * (r * q);
    OddsScaled(r, q, w, bound);
  }

  lemma OddsScaled(r: real, q: real, w: real, bound: real)
    requires 0.0 < r && 0.0 < w
    ensures w * (r * q) < bound * (r * w) ==> q < bound
    ensures bound * (r * w) < w * (r * q) ==> bound < q
  {
    var c := r * w;
    assert 0.0 < c;
    assert w * (r * q) == c * q && bound * (r * w) == c * bound;
    if c * q < c * bound { StrictCancel(c, q, bound); }
    if c * bound < c * q { StrictCancel(c, bound, q); }
  }

  lemma SumAtExit(stake: int, total: int)
    requires 0 <= stake <= total && 0 < total
    ensures Abs(Acc(stake, total, 401) as real - ScaledAlt(Exponent(stake, total), 401)) <= 535.0
  {
    hide Acc, ScaledAlt, Exponent;
    AccError(stake, total, 401);
  }

  /** 1024 units above the fixed-point sum the exact lottery is won. */
  lemma WonAbove(ev: int, stake: int, total: int)
    requires 0 <= ev < TWO512 && 0 <= stake <= total && 0 < total
    requires Acc(stake, total, 401) + 1024 <= Remaining(ev)
    ensures Won(ev, stake, total)
  {
    hide Term, Phi, Alt, Acc, Exponent;
    var y, rho := Exponent(stake, total), Remaining(ev) as real;
    ExponentSmall(stake, total);
    SumAtExit(stake, total);
    ProductAtScale(y);
    PhiBounds(y, 1000);
    TermBelowUnit(y, 1001);
    TermNonNegative(y, 1001);
    WinMargin(SCALE, Phi(y, 1000), Alt(y, 401), Term(y, 1001), rho);
    OddsBelow(ev, Phi(y, 1000) - 3.0 * Term(y, 1001));
    assert SurelyBelow(Odds(ev), y, 1000);
    forall k: nat | 1 <= k < 1000
      ensures !SurelyAbove(Odds(ev), y, k)
    {
      Tail(y, k, 1000);
      TermNonNegative(y, 1000);
      TermNonNegative(y, k + 1);
    }
  }

  /** 1024 units below it the exact lottery is lost. */
  lemma LostBelow(ev: int, stake: int, total: int)
    requires 0 <= ev < TWO512 && 0 <= stake <= total && 0 < total
    requires Remaining(ev) + 1024 <= Acc(stake, total, 401)
    ensures !Won(ev, stake, total)
  {
    hide Term, Phi, Alt, Acc, Exponent;
    var y, rho := Exponent(stake, total), Remaining(ev) as real;
    ExponentSmall(stake, total);
    SumAtExit(stake, total);
    ProductAtScale(y);
    PhiBounds(y, 1000);
    LossMargin(SCALE, Phi(y, 1000), Alt(y, 401), rho);
    OddsBelow(ev, Phi(y, 1000));
    forall n: nat | 1 <= n <= 1000
      ensures !SurelyBelow(Odds(ev), y, n)
    {
      PhiGrows(y, n, 1000);
      TermNonNegative(y, n + 1);
    }
  }

  /** The fast comparison `ev < Target` and the exact lottery agree for every ev, except perhaps at
      Target - 1 and Target, */
  lemma FastRefinesExact(ev: int, stake: int, total: int)
    requires 0 <= ev < TWO512 && 0 <= stake <= total && 0 < total
    ensures ev <= Target(stake, total) - 2 ==> Won(ev, stake, total)
    ensures ev >= Target(stake, total) + 1 ==> !Won(ev, stake, total)
  {
    hide Acc, Won;
    var acc := Acc(stake, total, 401);
    if ev <= Target(stake, total) - 2 {
      assert acc + 1024 <= Remaining(ev);
      WonAbove(ev, stake, total);
    } else if ev >= Target(stake, total) + 1 {
      assert Remaining(ev) + 1024 <= acc;
      LostBelow(ev, stake, total);
    }
  }

  /** and there too whenever the low 256 bits of the sum are not within 1024 of a carry. */
  lemma FastIsExact(ev: int, stake: int, total: int)
    requires 0 <= ev < TWO512 && 0 <= stake <= total && 0 < total
    requires 1024 <= Acc(stake, total, 401) % TWO256 <= TWO256 - 1024
    ensures ev < Target(stake, total) <==> Won(ev, stake, total)
  {
    hide Acc, Won;
    var acc := Acc(stake, total, 401);
    if ev < Target(stake, total) {
      assert acc + 1024 <= Remaining(ev);
      WonAbove(ev, stake, total);
    } else {
      assert Remaining(ev) + 1024 <= acc;
      LostBelow(ev, stake, total);
    }
  }

  /** The target of a positive stake is positive and at most a quarter of the range. */
  lemma TargetRange(stake: int, total: int)
    requires 0 < stake <= total < U64
    ensures 1 <= Target(stake, total) <= TWO512 / 4
  {
    hide Acc, Magnitude;
    AccRange(stake, total, 401);
    FirstTerm(stake, total);
  }

  lemma FirstTerm(stake: int, total: int)
    requires 0 < stake <= total < U64
    ensures 1 <= Magnitude(stake, total, 1) <= TWO768 / 4
  {
    hide Magnitude;
    MagnitudeUnfold(stake, total, 0);
    MagnitudeUnfold(stake, total, 1);
    QuarterStep(stake, total, 1);
    var p, b := TWO768 * (stake * X_NUM), total * C_DEN;
    assert b <= U64 * C_DEN;
    assert p >= TWO768 * X_NUM;
    FloorBounds(p, b);
    FloorAtLeastOne(p, b);
  }

  lemma FloorAtLeastOne(p: int, b: int)
    requires 0 < b <= p
    ensures 1 <= p / b
  {
  }

  /** The partial sums stay between those of the first two terms. */
  lemma {:induction false} AccRange(stake: int, total: int, n: nat)
    requires 0 <= stake <= total && 0 < total && n >= 1
    ensures var m1 := Magnitude(stake, total, 1);
            && TWO768 - m1 <= Acc(stake, total, n) <= TWO768 - m1 + m1 / 4
            && if n % 2 == 1 then Acc(stake, total, n) + Magnitude(stake, total, n + 1) <= TWO768 - m1 + m1 / 4
               else TWO768 - m1 <= Acc(stake, total, n) - Magnitude(stake, total, n + 1)
  {
    hide Acc, Magnitude, FixedTerm;
    FixedTermUnfold(stake, total, n);
    FixedTermIsSigned(stake, total, n);
    QuarterStep(stake, total, n);
    QuarterStep(stake, total, n + 1);
    MagnitudeNonNegative(stake, total, n);
    MagnitudeNonNegative(stake, total, n + 1);
    MagnitudeUnfold(stake, total, 0);
    if n == 1 {
      FixedTermUnfold(stake, total, 0);
    } else {
      AccRange(stake, total, n - 1);
    }
  }

  // ---- the quorum ----

  const STM_K: nat := 1944
  const STM_M: int := 16948

  /** What the lottery check reads of a signer. */
  datatype Ticket = Ticket(stake: int, indices: seq<int>)

  ghost predicate StrictlyIncreasing(s: seq<int>) {
    forall i, j :: 0 <= i < j < |s| ==> s[i] < s[j]
  }

  /** All indices of one signer are in range, in order, and below the signer's target. `ev(n, i)` is
      the 512-bit hash value of index i of signer n. */
  ghost predicate Winning(ev: (int, int) -> int, total: int, n: nat, t: Ticket)
    requires total > 0
  {
    && StrictlyIncreasing(t.indices)
    && forall i :: i in t.indices ==> 0 <= i < STM_M && ev(n, i) < Target(t.stake, total)
  }

  ghost function Count(tickets: seq<Ticket>, n: nat): nat
    requires n <= |tickets|
  {
    if n == 0 then 0 else Count(tickets, n - 1) + |tickets[n - 1].indices|
  }

  /** `check_lottery`. None is the panic of a division by a zero total stake. */
  method CheckLottery(ev: (int, int) -> int, k: nat, total: int, tickets: seq<Ticket>) returns (r: Option<bool>)
    requires 0 <= total < U64
    requires forall t :: t in tickets ==> 0 <= t.stake < U64 && forall i :: i in t.indices ==> 0 <= i
    ensures r == None <==> k == 1944 && total == 0 && tickets != []
    ensures r == Some(true) <==>
              && k == 1944 && Count(tickets, |tickets|) >= 1944
              && total > 0 && forall n :: 0 <= n < |tickets| ==> Winning(ev, total, n, tickets[n])
  {
    hide Target;
    if k != STM_K { return Some(false); }
    var count, n := 0, 0;
    while n < |tickets|
      invariant 0 <= n <= |tickets| && count == Count(tickets, n)
      invariant n > 0 ==> total > 0
      invariant total > 0 ==> forall j :: 0 <= j < n ==> Winning(ev, total, j, tickets[j])
    {
      if total == 0 { return None; }
      var s := tickets[n];
      assert s in tickets;
      var target, _ := ComputeTarget(s.stake, total);
      var prev, j := -1, 0;
      while j < |s.indices|
        invariant 0 <= j <= |s.indices| && count == Count(tickets, n) + j
        invariant prev == if j == 0 then -1 else s.indices[j - 1]
        invariant forall i :: 0 <= i < j ==> s.indices[i] <= prev
        invariant StrictlyIncreasing(s.indices[..j])
        invariant forall i :: i in s.indices[..j] ==> 0 <= i < STM_M && ev(n, i) < target
      {
        var i := s.indices[j];
        assert i in s.indices;
        if i <= prev {
          assert j > 0 ==> s.indices[j - 1] >= s.indices[j];
          assert !StrictlyIncreasing(s.indices);
          return Some(false);
        }
        if i >= STM_M { assert !Winning(ev, total, n, s); return Some(false); }
        if ev(n, i) >= target { assert !Winning(ev, total, n, s); return Some(false); }
        assert s.indices[..j + 1] == s.indices[..j] + [i];
        prev, j, count := i, j + 1, count + 1;
      }
      assert s.indices[..j] == s.indices;
      n := n + 1;
    }
    return Some(count >= STM_K);
  }

  ghost function Row(indices: seq<int>, n: int): set<(int, int)> {
    set i | i in indices :: (n, i)
  }

  /** The winning (signer, index) pairs. */
  ghost function Pairs(tickets: seq<Ticket>, n: nat): set<(int, int)>
    requires n <= |tickets|
  {
    if n == 0 then {} else Pairs(tickets, n - 1) + Row(tickets[n - 1].indices, n - 1)
  }

  lemma RowMembers(indices: seq<int>, n: int)
    ensures forall p :: p in Row(indices, n) <==> p.0 == n && p.1 in indices
  {
    forall p: (int, int) | p.0 == n && p.1 in indices
      ensures p in Row(indices, n)
    {
      var i := p.1;
      assert i in indices;
      assert (n, i) in Row(indices, n);
      assert p == (n, i);
    }
  }

  lemma {:induction false} PairsMembers(tickets: seq<Ticket>, n: nat)
    requires n <= |tickets|
    ensures forall p :: p in Pairs(tickets, n) <==> 0 <= p.0 < n && p.1 in tickets[p.0].indices
  {
    hide Row;
    if n > 0 {
      PairsMembers(tickets, n - 1);
      RowMembers(tickets[n - 1].indices, n - 1);
    }
  }

  lemma {:induction false} PairsCount(tickets: seq<Ticket>, n: nat)
    requires n <= |tickets|
    requires forall j :: 0 <= j < n ==> StrictlyIncreasing(tickets[j].indices)
    ensures |Pairs(tickets, n)| == Count(tickets, n)
  {
    hide Row, StrictlyIncreasing;
    if n > 0 {
      var before, row := Pairs(tickets, n - 1), Row(tickets[n - 1].indices, n - 1);
      PairsCount(tickets, n - 1);
      RowCount(tickets[n - 1].indices, n - 1);
      RowsDisjoint(tickets, n - 1);
      assert |before + row| == |before| + |row|;
    }
  }

  lemma RowsDisjoint(tickets: seq<Ticket>, n: nat)
    requires n < |tickets|
    ensures Pairs(tickets, n) !! Row(tickets[n].indices, n)
  {
    hide Row, Pairs;
    PairsMembers(tickets, n);
    RowMembers(tickets[n].indices, n);
  }

  lemma {:induction false} RowCount(s: seq<int>, n: int)
    requires StrictlyIncreasing(s)
    ensures |Row(s, n)| == |s|
  {
    if s == [] {
      assert Row(s, n) == {};
    } else {
      var init, last := s[..|s| - 1], s[|s| - 1];
      RowCount(init, n);
      assert forall i :: i in s <==> i in init || i == last;
      assert Row(s, n) == Row(init, n) + {(n, last)};
      assert (n, last) !in Row(init, n);
    }
  }

  /** What an accepted lottery shows of its first n signers: their count is the number of different (signer, index)
      pairs, and each pair whose stake is within the total wins the exact lottery, or sits at the one value just
      below the target where the fixed-point sum may be off by one. */
  lemma QuorumIsExact(ev: (int, int) -> int, total: int, tickets: seq<Ticket>, n: nat)
    requires 0 < total && n <= |tickets|
    requires forall j :: 0 <= j < |tickets| ==> Winning(ev, total, j, tickets[j]) && 0 <= tickets[j].stake
    requires forall j, i :: 0 <= ev(j, i) < TWO512
    ensures |Pairs(tickets, n)| == Count(tickets, n)
    ensures forall p :: p in Pairs(tickets, n) ==>
              && 0 <= p.0 < n && 0 <= p.1 < STM_M
              && (tickets[p.0].stake <= total ==>
                    || Won(ev(p.0, p.1), tickets[p.0].stake, total)
                    || ev(p.0, p.1) == Target(tickets[p.0].stake, total) - 1)
  {
    hide Target, Won;
    PairsCount(tickets, n);
    PairsMembers(tickets, n);
    forall p | p in Pairs(tickets, n) && tickets[p.0].stake <= total
      ensures Won(ev(p.0, p.1), tickets[p.0].stake, total)
              || ev(p.0, p.1) == Target(tickets[p.0].stake, total) - 1
    {
      FastRefinesExact(ev(p.0, p.1), tickets[p.0].stake, total);
    }
  }

  // ---- one index, several signers ----

  /** The different lottery indices. */
  ghost function IndexSet(tickets: seq<Ticket>, n: nat): set<int>
    requires n <= |tickets|
  {
    if n == 0 then {} else IndexSet(tickets, n - 1) + Elements(tickets[n - 1].indices)
  }

  ghost predicate Shared(tickets: seq<Ticket>, n: nat)
    requires n <= |tickets|
  {
    exists a, b, i :: 0 <= a < b < n && i in tickets[a].indices && i in tickets[b].indices
  }

  lemma {:induction false} IndexMember(tickets: seq<Ticket>, n: nat, i: int)
    requires n <= |tickets|
    ensures i in IndexSet(tickets, n) <==> exists a :: 0 <= a < n && i in tickets[a].indices
  {
    if n > 0 { IndexMember(tickets, n - 1, i); }
  }

  lemma {:induction false} DistinctSize(s: seq<int>)
    ensures |Elements(s)| <= |s| && (|Elements(s)| == |s| <==> Distinct(s))
  {
    if s == [] {
      assert Elements(s) == {};
    } else {
      var init, last := s[..|s| - 1], s[|s| - 1];
      DistinctSize(init);
      assert Elements(s) == Elements(init) + {last};
      assert Distinct(s) <==> Distinct(init) && last !in init;
    }
  }

  /** No index occurs twice, within one list or across two. */
  ghost predicate NoRepeat(tickets: seq<Ticket>, n: nat)
    requires n <= |tickets|
  {
    (forall j :: 0 <= j < n ==> Distinct(tickets[j].indices)) && !Shared(tickets, n)
  }

  /** The count is over the positions in the lists: it is the number of different indices exactly when no index
      occurs twice. */
  lemma {:induction false} CountIsUnique(tickets: seq<Ticket>, n: nat)
    requires n <= |tickets|
    ensures |IndexSet(tickets, n)| <= Count(tickets, n)
    ensures |IndexSet(tickets, n)| == Count(tickets, n) <==> NoRepeat(tickets, n)
  {
    if n > 0 {
      hide Distinct, Shared, Elements;
      var before, row := IndexSet(tickets, n - 1), Elements(tickets[n - 1].indices);
      CountIsUnique(tickets, n - 1);
      DistinctSize(tickets[n - 1].indices);
      NewIsShared(tickets, n);
      assert NoRepeat(tickets, n) <==> NoRepeat(tickets, n - 1) && Distinct(tickets[n - 1].indices) && before !! row;
      hide NoRepeat;
      assert |before + row| == |before| + |row| - |before * row|;
      if !(before !! row) {
        var i := Common(before, row);
        assert i in before * row;
      }
    }
  }

  /** Where the order is checked, exactly when no two signers share one. */
  lemma CheckedCountIsUnique(ev: (int, int) -> int, total: int, tickets: seq<Ticket>)
    requires total > 0 && forall n :: 0 <= n < |tickets| ==> Winning(ev, total, n, tickets[n])
    ensures |IndexSet(tickets, |tickets|)| == Count(tickets, |tickets|) <==> !Shared(tickets, |tickets|)
  {
    hide Target, IndexSet, Count, Shared;
    CountIsUnique(tickets, |tickets|);
  }

  lemma NewIsShared(tickets: seq<Ticket>, n: nat)
    requires 0 < n <= |tickets|
    ensures Shared(tickets, n)
            <==> Shared(tickets, n - 1) || !(IndexSet(tickets, n - 1) !! Elements(tickets[n - 1].indices))
  {
    var before, row := IndexSet(tickets, n - 1), Elements(tickets[n - 1].indices);
    hide IndexSet;
    if !(before !! row) {
      var i := Common(before, row);
      IndexMember(tickets, n - 1, i);
    }
    if Shared(tickets, n) && !Shared(tickets, n - 1) {
      var a, b, i :| 0 <= a < b < n && i in tickets[a].indices && i in tickets[b].indices;
      assert b == n - 1;
      IndexMember(tickets, n - 1, i);
      assert i in before && i in row;
    }
  }

  /** Two signers who win the same half of a quorum of indices make a quorum. */
  lemma SharedIndicesReachQuorum(ev: (int, int) -> int, total: int, one: Ticket, other: Ticket)
    requires total > 0 && Winning(ev, total, 0, one) && Winning(ev, total, 1, other)
    requires one.indices == other.indices && |one.indices| == STM_K / 2
    ensures Count([one, other], 2) == STM_K && |IndexSet([one, other], 2)| == STM_K / 2
  {
    hide Target;
    var tickets := [one, other];
    assert Count(tickets, 0) == 0 && Count(tickets, 1) == |one.indices|;
    assert IndexSet(tickets, 0) == {} && IndexSet(tickets, 1) == Elements(one.indices) == IndexSet(tickets, 2);
    DistinctSize(one.indices);
  }

  /** There are such signers: with half of the stake each, at the hash value 0. */
  lemma HalfQuorumExists() returns (half: Ticket)
    ensures |half.indices| == STM_K / 2 && Winning((n, i) => 0, 2, 0, half) && Winning((n, i) => 0, 2, 1, half)
  {
    hide Target;
    var n: nat := STM_K / 2;
    var s: seq<int> := seq(n, i requires 0 <= i => i);
    half := Ticket(1, s);
    assert forall i :: i in s ==> 0 <= i < STM_M;
    assert 0 < Target(1, 2) by { TargetRange(1, 2); }
  }

  // ---- the check without the order ----

  /** What `lottery_quorum` asks for: it looks at the order and the range of the indices nowhere. */
  ghost predicate Quorum(ev: (int, int) -> int, k: nat, total: int, tickets: seq<Ticket>)
    requires total > 0
  {
    && Count(tickets, |tickets|) >= k
    && forall n, i :: 0 <= n < |tickets| && i in tickets[n].indices ==> ev(n, i) < Target(tickets[n].stake, total)
  }

  /** `lottery_quorum`. None is the panic of a division by a zero total stake. */
  method LotteryQuorum(ev: (int, int) -> int, k: nat, total: int, tickets: seq<Ticket>) returns (r: Option<bool>)
    requires 0 <= total < U64 && forall t :: t in tickets ==> 0 <= t.stake < U64
    ensures r == None <==> total == 0 && tickets != []
    ensures r == Some(true) <==> if tickets == [] then k == 0 else total > 0 && Quorum(ev, k, total, tickets)
  {
    hide Target;
    var count, n := 0, 0;
    while n < |tickets|
      invariant 0 <= n <= |tickets| && count == Count(tickets, n)
      invariant n > 0 ==> total > 0
      invariant total > 0 ==>
                  forall j, i :: 0 <= j < n && i in tickets[j].indices ==> ev(j, i) < Target(tickets[j].stake, total)
    {
      if total == 0 { return None; }
      var s := tickets[n];
      assert s in tickets;
      var target, _ := ComputeTarget(s.stake, total);
      var j := 0;
      while j < |s.indices|
        invariant 0 <= j <= |s.indices| && count == Count(tickets, n) + j
        invariant forall i :: i in s.indices[..j] ==> ev(n, i) < target
      {
        var i := s.indices[j];
        assert i in s.indices;
        if ev(n, i) >= target { return Some(false); }
        assert s.indices[..j + 1] == s.indices[..j] + [i];
        j, count := j + 1, count + 1;
      }
      assert s.indices[..j] == s.indices;
      n := n + 1;
    }
    return Some(count >= k);
  }

  /** The script's check is this one at the fixed quorum, on lists that are in order and in range. */
  lemma CheckedIsOrdered(ev: (int, int) -> int, total: int, tickets: seq<Ticket>)
    requires total > 0
    ensures (Count(tickets, |tickets|) >= 1944 && forall n :: 0 <= n < |tickets| ==> Winning(ev, total, n, tickets[n]))
            <==> && Quorum(ev, 1944, total, tickets)
                 && forall n :: 0 <= n < |tickets| ==>
                      StrictlyIncreasing(tickets[n].indices) && forall i :: i in tickets[n].indices ==> 0 <= i < 16948
  {
    hide Target, StrictlyIncreasing;
  }

  /** So one winning index, written k times, is a quorum there, although no two signers share an index. */
  lemma RepeatedIndexIsQuorum(ev: (int, int) -> int, k: nat, total: int, stake: int, i: int)
    requires total > 0 && k > 1 && ev(0, i) < Target(stake, total)
    ensures var tickets := [Ticket(stake, seq(k, j => i))];
            && Quorum(ev, k, total, tickets) && Count(tickets, 1) == k && IndexSet(tickets, 1) == {i}
            && !Shared(tickets, 1) && !NoRepeat(tickets, 1)
  {
    hide Target;
    var s := seq(k, j => i);
    var tickets := [Ticket(stake, s)];
    assert Count(tickets, 0) == 0 && IndexSet(tickets, 0) == {} && s[0] == s[1] == i;
    assert IndexSet(tickets, 1) == Elements(s) == {i};
  }
}
