/** The constant of the lottery: the whole stake wins an index with probability phi_f = 1/5. */
module LotteryOdds {
  import opened Basics
  import opened ExpSeries
  import opened Lottery

  /** The exponent of the whole stake. */
  const WHOLE: real := (X_NUM as real) / (C_DEN as real)

  /** One unit of the decimals below. */
  const UNIT: real := 0.00000000000000000001

  /** `t` and `a` are the k-th term and the alternating sum up to it, within a unit a term. */
  ghost predicate Near(k: nat, t: real, a: real) {
    Abs(Term(WHOLE, k) - t) <= UNIT && Abs(Alt(WHOLE, k) - a) <= k as real * UNIT
  }

  /** The next decimals: `t` times the exponent by k, rounded, and the sum. */
  lemma NearStep(k: nat, t: real, a: real, t2: real, a2: real)
    requires k > 0 && Near(k - 1, t, a) && a2 == a + Sign(k) * t2
    requires Abs(t * WHOLE - k as real * t2) <= 0.6 * (k as real * UNIT)
    ensures Near(k, t2, a2)
  {
    hide Term, Alt;
    var c, w := k as real, Term(WHOLE, k);
    AltUnfold(WHOLE, k);
    TermStep(WHOLE, k - 1);
    Rounded(c, WHOLE, UNIT, Term(WHOLE, k - 1), w, t, t2);
  }

  lemma AltUnfold(y: real, k: nat)
    requires k > 0
    ensures Alt(y, k) == Alt(y, k - 1) + Sign(k) * Term(y, k)
  {
    hide Term;
  }

  lemma Rounded(c: real, y: real, u: real, v: real, w: real, t: real, t2: real)
    requires c >= 1.0 && 0.0 <= y <= 0.25 && 0.0 < u && c * w == y * v && Abs(v - t) <= u
    requires Abs(t * y - c * t2) <= 0.6 * (c * u)
    ensures Abs(w - t2) <= u
  {
    Within(y, u, v, t);
    MulMono(1.0, c, u);
    Divide(c, w, t2, u, c * w, t * y, c * t2, c * u);
  }

  lemma Within(y: real, u: real, v: real, t: real)
    requires 0.0 <= y <= 0.25 && 0.0 < u && Abs(v - t) <= u
    ensures Abs(y * v - t * y) <= 0.25 * u
  {
    Quartered(y, u, v - t, y * v - t * y);
    Quartered(y, u, t - v, t * y - y * v);
  }

  lemma Quartered(y: real, u: real, gap: real, product: real)
    requires 0.0 <= y <= 0.25 && 0.0 < u && gap <= u && product == gap * y
    ensures product <= 0.25 * u
  {
    MulMono(gap, u, y);
    MulMono(y, 0.25, u);
    assert u * y == y * u;
  }

  lemma Divide(c: real, w: real, t2: real, u: real, p: real, r: real, q: real, z: real)
    requires c >= 1.0 && 0.0 < u <= z && p == c * w && q == c * t2 && z == c * u
    requires Abs(p - r) <= 0.25 * u && Abs(r - q) <= 0.6 * z
    ensures Abs(w - t2) <= u
  {
    var d, e := p - q, q - p;
    assert d <= z && e <= z;
    assert c * (w - t2) == d && c * (t2 - w) == e;
    MulCancel(c, w - t2, u);
    MulCancel(c, t2 - w, u);
  }

  /** Fourteen terms. */
  lemma FourteenTerms()
    ensures Near(13, 0.00000000000000000055, 0.80000000000000003711)
    ensures Near(14, 0.00000000000000000001, 0.80000000000000003712)
  {
    hide Near;
    assert Near(0, 1.0, 1.0) by { NearStart(); }
    NearStep(1, 1.0, 1.0, 0.22314355131420970935, 0.77685644868579029065);
    NearStep(2, 0.22314355131420970935, 0.77685644868579029065, 0.02489652224655867085, 0.80175297093234896150);
    NearStep(3, 0.02489652224655867085, 0.80175297093234896150, 0.00185183279649010945, 0.79990113813585885205);
    NearStep(4, 0.00185183279649010945, 0.79990113813585885205, 0.00010330613666223180, 0.80000444427252108385);
    NearStep(5, 0.00010330613666223180, 0.80000444427252108385, 0.00000461041964147230, 0.79999983385287961155);
    NearStep(6, 0.00000461041964147230, 0.79999983385287961155, 0.00000017146423530782, 0.80000000531711491937);
    NearStep(7, 0.00000017146423530782, 0.80000000531711491937, 0.00000000546587691285, 0.79999999985123800652);
    NearStep(8, 0.00000000546587691285, 0.79999999985123800652, 0.00000000015245939817, 0.80000000000369740469);
    NearStep(9, 0.00000000015245939817, 0.80000000000369740469, 0.00000000000378003684, 0.79999999999991736785);
    NearStep(10, 0.00000000000378003684, 0.79999999999991736785, 0.00000000000008434908, 0.80000000000000171693);
    NearStep(11, 0.00000000000008434908, 0.80000000000000171693, 0.00000000000000171109, 0.80000000000000000584);
    NearStep(12, 0.00000000000000171109, 0.80000000000000000584, 0.00000000000000003182, 0.80000000000000003766);
    NearStep(13, 0.00000000000000003182, 0.80000000000000003766, 0.00000000000000000055, 0.80000000000000003711);
    NearStep(14, 0.00000000000000000055, 0.80000000000000003711, 0.00000000000000000001, 0.80000000000000003712);
  }

  lemma NearStart()
    ensures Near(0, 1.0, 1.0)
  {
  }

  // ---- the target of the whole stake ----

  lemma {:induction false} AltTail(y: real, k: nat, n: nat)
    requires Small(y) && k <= n
    ensures Abs(Alt(y, n) - Alt(y, k)) <= Phi(y, n) - Phi(y, k)
    decreases n
  {
    hide Term, Alt, Phi;
    if k < n {
      AltTail(y, k, n - 1);
      AltUnfold(y, n);
      PhiUnfold(y, n);
      TermNonNegative(y, n);
    }
  }

  /** The exponential sum of the whole stake is 1 - phi_f within 4 units of 10^-17. */
  lemma WholeSum()
    ensures Abs(Alt(WHOLE, 401) - 0.8) <= 0.00000000000000004
  {
    FourteenTerms();
    hide Term, Alt, Phi;
    AltTail(WHOLE, 13, 401);
    Tail(WHOLE, 13, 401);
    TermNonNegative(WHOLE, 401);
  }

  lemma WholeExponent(s: int)
    requires 0 < s
    ensures Exponent(s, s) == WHOLE
  {
    var c, x, d := s as real, X_NUM as real, C_DEN as real;
    assert (s * X_NUM) as real == c * x && (s * C_DEN) as real == c * d;
    SameRatio(c, x, d);
  }

  lemma SameRatio(c: real, x: real, d: real)
    requires 0.0 < c && 0.0 < d
    ensures c * d != 0.0 && c * x / (c * d) == x / d
  {
    var q, r := x / d, c * x / (c * d);
    assert c * d * r == c * x && d * q == x;
    assert c * d * q == c * x;
    MulCancel(c * d, q, r);
    MulCancel(c * d, r, q);
  }

  const TWO50: int := 0x4_0000_0000_0000

  lemma WholeAcc(s: int)
    requires 0 < s
    ensures Abs((5 * Acc(s, s, 401) - 4 * TWO768) as real) <= 0.0000000000000002 * SCALE + 2675.0
  {
    hide Acc, Alt, Exponent;
    SumAtExit(s, s);
    WholeExponent(s);
    WholeSum();
    Scaled(SCALE, Alt(WHOLE, 401), Acc(s, s, 401) as real);
  }

  lemma Scaled(scale: real, alt: real, acc: real)
    requires 0.0 < scale && Abs(alt - 0.8) <= 0.00000000000000004 && Abs(acc - scale * alt) <= 535.0
    ensures Abs(5.0 * acc - 4.0 * scale) <= 0.0000000000000002 * scale + 2675.0
  {
    var m := scale * alt;
    ScaledGap(scale, alt - 0.8, m - 0.8 * scale);
    ScaledGap(scale, 0.8 - alt, 0.8 * scale - m);
  }

  lemma ScaledGap(scale: real, gap: real, product: real)
    requires 0.0 < scale && gap <= 0.00000000000000004 && product == gap * scale
    ensures product <= 0.00000000000000004 * scale
  {
    MulMono(gap, 0.00000000000000004, scale);
  }

  /** A signer with the whole stake wins an index with probability phi_f = 1/5, up to 2^-50 of it: the target is that
      part of all hash values, */
  lemma WholeStakeTarget(s: int)
    requires 0 < s
    ensures -TWO512 <= (5 * Target(s, s) - TWO512) * TWO50 <= TWO512
  {
    hide Acc;
    WholeAcc(s);
    Rounding(Acc(s, s, 401), Acc(s, s, 401) / TWO256);
  }

  lemma Rounding(a: int, f: int)
    requires Abs((5 * a - 4 * TWO768) as real) <= 0.0000000000000002 * SCALE + 2675.0
    requires f * TWO256 <= a < (f + 1) * TWO256
    ensures -TWO512 <= (5 * (TWO512 - f) - TWO512) * TWO50 <= TWO512
  {
  }

  /** and the exact lottery is won below it and lost above it. */
  lemma WholeStakeWins(ev: int, s: int)
    requires 0 <= ev < TWO512 && 0 < s
    ensures 5 * (ev + 2) * TWO50 <= (TWO50 - 1) * TWO512 ==> Won(ev, s, s)
    ensures 5 * (ev - 1) * TWO50 >= (TWO50 + 1) * TWO512 ==> !Won(ev, s, s)
  {
    hide Target, Won;
    WholeStakeTarget(s);
    FastRefinesExact(ev, s, s);
  }
}
