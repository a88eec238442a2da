/** Partial sums of the exponential series at y and at -y, for 0 <= y <= 1/4, and how close their
    product is to 1. No limit is taken: every statement is about finite sums. */
module ExpSeries {

  function NextTerm(t: real, y: real, k: nat): real
    requires k > 0
  {
    t * y / (k as real)
  }

  /** y^k / k! */
  function Term(y: real, k: nat): real {
    if k == 0 then 1.0 else NextTerm(Term(y, k - 1), y, k)
  }

  /** 1 + y + ... + y^n / n! */
  function Phi(y: real, n: nat): real {
    if n == 0 then 1.0 else Phi(y, n - 1) + Term(y, n)
  }

  function Sign(k: nat): (s: real)
    ensures s == 1.0 || s == -1.0
  {
    if k % 2 == 0 then 1.0 else -1.0
  }

  /** 1 - y + ... + (-y)^n / n! */
  function Alt(y: real, n: nat): real {
    if n == 0 then 1.0 else Alt(y, n - 1) + Sign(n) * Term(y, n)
  }

  ghost predicate Small(y: real) {
    0.0 <= y <= 0.25
  }

  ghost function Abs(x: real): real {
    if x < 0.0 then -x else x
  }

  // ---- arithmetic ----

  lemma MulMono(a: real, b: real, c: real)
    requires a <= b && 0.0 <= c
    ensures a * c <= b * c
  {
    assert 0.0 <= (b - a) * c;
  }

  lemma MulNonNegative(a: real, b: real)
    requires 0.0 <= a && 0.0 <= b
    ensures 0.0 <= a * b
  {
  }

  lemma MulCancel(c: real, a: real, b: real)
    requires 0.0 < c && c * a <= c * b
    ensures a <= b
  {
    assert c * (b - a) >= 0.0;
  }

  // ---- the terms ----

  lemma TermStep(y: real, k: nat)
    ensures ((k + 1) as real) * Term(y, k + 1) == y * Term(y, k)
  {
  }

  lemma {:induction false} TermNonNegative(y: real, k: nat)
    requires Small(y)
    ensures 0.0 <= Term(y, k)
  {
    if k > 0 {
      TermNonNegative(y, k - 1);
    }
  }

  lemma TermShrinks(y: real, k: nat)
    requires Small(y)
    ensures 0.0 <= Term(y, k + 1) <= Term(y, k) / 4.0
  {
    hide Term;
    TermNonNegative(y, k);
    TermNonNegative(y, k + 1);
    TermStep(y, k);
    Shrink((k + 1) as real, Term(y, k + 1), y, Term(y, k));
  }

  lemma Shrink(c: real, next: real, y: real, t: real)
    requires c * next == y * t && 1.0 <= c && y <= 0.25 && 0.0 <= next && 0.0 <= t
    ensures next <= t / 4.0
  {
    MulMono(1.0, c, next);
    MulMono(y, 0.25, t);
  }

  lemma {:induction false} TermAntitone(y: real, j: nat, k: nat)
    requires Small(y) && j <= k
    ensures Term(y, k) <= Term(y, j)
    decreases k
  {
    hide Term;
    if j < k {
      TermAntitone(y, j, k - 1);
      TermShrinks(y, k - 1);
      TermNonNegative(y, k - 1);
    }
  }

  lemma {:induction false} PhiGrows(y: real, k: nat, n: nat)
    requires Small(y) && k <= n
    ensures Phi(y, k) <= Phi(y, n)
    decreases n
  {
    hide Term;
    if k < n {
      PhiGrows(y, k, n - 1);
      TermNonNegative(y, n);
    }
  }

  /** What is still to come after k terms is at most twice the next one. */
  lemma {:induction false} Tail(y: real, k: nat, n: nat)
    requires Small(y) && k < n
    ensures Phi(y, n) - Phi(y, k) <= 2.0 * Term(y, k + 1) - Term(y, n)
    decreases n
  {
    hide Term;
    if k + 1 < n {
      Tail(y, k, n - 1);
      TermShrinks(y, n - 1);
    }
  }

  lemma TermOne(y: real)
    ensures Term(y, 0) == 1.0 && Term(y, 1) == y
  {
  }

  lemma PhiBounds(y: real, n: nat)
    requires Small(y)
    ensures 1.0 <= Phi(y, n) <= 1.5
  {
    hide Term;
    PhiGrows(y, 0, n);
    if n > 0 {
      Tail(y, 0, n);
      TermNonNegative(y, n);
      TermOne(y);
    }
  }

  // ---- the product of the two sums ----

  /** The first j+1 products on diagonal n: sum of (-1)^i T(n-i) T(i). */
  ghost function Diagonal(y: real, n: nat, j: nat): real
    requires j <= n
  {
    (if j == 0 then 0.0 else Diagonal(y, n, j - 1)) + Sign(j) * Pair(y, n - j, j)
  }

  lemma DiagonalUnfold(y: real, n: nat, j: nat)
    requires j <= n
    ensures Diagonal(y, n, 0) == Term(y, n)
    ensures j > 0 ==> Diagonal(y, n, j) == Diagonal(y, n, j - 1) + Sign(j) * Pair(y, n - j, j)
  {
    TermOne(y);
  }

  lemma SignFlips(j: nat)
    requires j > 0
    ensures Sign(j - 1) == -Sign(j)
  {
  }

  /** One step: the new product splits into the next telescoped value and the last one. */
  lemma Telescope(a: nat, b: nat, ta: real, ta1: real, tb: real, tb1: real, y: real, s: real, before: real)
    requires (a as real) * ta == y * ta1 && (b as real) * tb == y * tb1
    requires ((a + b) as real) * before == -s * (y * ta * tb1)
    ensures ((a + b) as real) * (before + s * (ta * tb)) == s * (y * ta1 * tb)
  {
    var c := (a + b) as real;
    assert c == (a as real) + (b as real);
    calc {
      c * (ta * tb);
      ((a as real) * ta) * tb + ((b as real) * tb) * ta;
      y * ta1 * tb + y * ta * tb1;
    }
    calc {
      c * (before + s * (ta * tb));
      c * before + s * (c * (ta * tb));
      -s * (y * ta * tb1) + s * (y * ta1 * tb + y * ta * tb1);
    }
  }

  /** A diagonal telescopes. */
  lemma {:induction false} DiagonalTelescopes(y: real, n: nat, j: nat)
    requires j < n
    ensures (n as real) * Diagonal(y, n, j) == Sign(j) * (y * Term(y, n - 1 - j) * Term(y, j))
  {
    hide Term, Diagonal, Sign;
    TermStep(y, n - 1 - j);
    DiagonalUnfold(y, n, j);
    if j == 0 {
      TermOne(y);
      assert Sign(0) == 1.0 by { SignZero(); }
    } else {
      DiagonalTelescopes(y, n, j - 1);
      TermStep(y, j - 1);
      SignFlips(j);
      Telescope(n - j, j, Term(y, n - j), Term(y, n - 1 - j), Term(y, j), Term(y, j - 1), y, Sign(j),
                Diagonal(y, n, j - 1));
    }
  }

  lemma SignZero()
    ensures Sign(0) == 1.0
  {
  }

  lemma Cancels(c: real, s: real, y: real, t1: real, t: real, before: real)
    requires c > 0.0 && c * before == -s * (y * 1.0 * t1) && c * t == y * t1
    ensures before + s * (1.0 * t) == 0.0
  {
    assert c * (before + s * t) == c * before + s * (c * t);
    assert c * (before + s * t) == 0.0;
  }

  /** A whole diagonal is zero. */
  lemma DiagonalVanishes(y: real, n: nat)
    requires n > 0
    ensures Diagonal(y, n, n) == 0.0
  {
    hide Term, Diagonal, Sign;
    DiagonalTelescopes(y, n, n - 1);
    DiagonalUnfold(y, n, n);
    TermStep(y, n - 1);
    TermOne(y);
    SignFlips(n);
    Cancels(n as real, Sign(n), y, Term(y, n - 1), Term(y, n), Diagonal(y, n, n - 1));
  }

  /** A term times a sum. (Named products keep the nonlinear terms of a proof few.) */
  ghost function Weighted(y: real, j: nat, n: nat): real {
    Term(y, j) * Phi(y, n)
  }

  ghost function Pair(y: real, a: nat, b: nat): real {
    Term(y, a) * Term(y, b)
  }

  /** The product of the two partial sums. */
  ghost function Product(y: real, n: nat, m: nat): real {
    Phi(y, n) * Alt(y, m)
  }

  lemma WeightedUnfold(y: real, j: nat, n: nat)
    ensures Weighted(y, j, 0) == Term(y, j)
    ensures Weighted(y, 0, n) == Phi(y, n)
    ensures n > 0 ==> Weighted(y, j, n) == Weighted(y, j, n - 1) + Pair(y, n, j)
  {
    hide Term;
    TermOne(y);
    assert Phi(y, 0) == 1.0;
    if n > 0 {
      Distribute(Term(y, j), Phi(y, n - 1), Term(y, n), Phi(y, n));
    }
  }

  lemma Distribute(a: real, b: real, c: real, sum: real)
    requires sum == b + c
    ensures a * sum == a * b + c * a
  {
  }

  lemma ProductUnfold(y: real, n: nat, m: nat)
    ensures Product(y, n, 0) == Phi(y, n)
    ensures m > 0 ==> Product(y, n, m) == Product(y, n, m - 1) + Sign(m) * Weighted(y, m, n)
  {
    hide Term, Phi, Sign;
    assert Alt(y, 0) == 1.0;
    if m > 0 {
      ProductStep(Phi(y, n), Alt(y, m - 1), Sign(m), Term(y, m), Alt(y, m));
    }
  }

  lemma ProductStep(phi: real, alt: real, s: real, t: real, next: real)
    requires next == alt + s * t
    ensures phi * next == phi * alt + s * (t * phi)
  {
  }

  /** Rows 0..j of the product, each cut at diagonal n. */
  ghost function Rows(y: real, n: nat, j: nat): real
    requires j <= n
  {
    (if j == 0 then 0.0 else Rows(y, n, j - 1)) + Sign(j) * Weighted(y, j, n - j)
  }

  lemma RowsUnfold(y: real, n: nat, j: nat)
    requires j <= n
    ensures Rows(y, n, 0) == Phi(y, n)
    ensures j > 0 ==> Rows(y, n, j) == Rows(y, n, j - 1) + Sign(j) * Weighted(y, j, n - j)
  {
    hide Weighted;
    WeightedUnfold(y, 0, n);
  }

  lemma {:induction false} RowsStep(y: real, n: nat, j: nat)
    requires j < n
    ensures Rows(y, n, j) == Rows(y, n - 1, j) + Diagonal(y, n, j)
  {
    hide Term, Diagonal, Rows, Phi, Weighted, Pair;
    WeightedUnfold(y, j, n - j);
    RowsUnfold(y, n, j);
    RowsUnfold(y, n - 1, j);
    DiagonalUnfold(y, n, j);
    if j == 0 {
      PhiUnfold(y, n);
    } else {
      RowsStep(y, n, j - 1);
    }
  }

  lemma PhiUnfold(y: real, n: nat)
    ensures Phi(y, 0) == 1.0
    ensures n > 0 ==> Phi(y, n) == Phi(y, n - 1) + Term(y, n)
  {
  }

  /** The triangle below diagonal n sums to exactly 1. */
  lemma {:induction false} TriangleIsOne(y: real, n: nat)
    ensures Rows(y, n, n) == 1.0
  {
    hide Term, Diagonal, Rows, Phi, Weighted, Pair;
    RowsUnfold(y, n, n);
    PhiUnfold(y, 0);
    if n > 0 {
      TriangleIsOne(y, n - 1);
      RowsStep(y, n, n - 1);
      DiagonalVanishes(y, n);
      DiagonalUnfold(y, n, n);
      WeightedUnfold(y, n, 0);
      PairOne(y, n);
    }
  }

  lemma PairOne(y: real, n: nat)
    ensures Pair(y, 0, n) == Term(y, n)
  {
    TermOne(y);
  }

  lemma Quotient(c: real, c1: real, s: real, d: real, p: real)
    requires 0.0 < c1 <= c && 0.0 <= p && (s == 1.0 || s == -1.0) && c * d == s * (c1 * p)
    ensures Abs(d) <= p
  {
    MulMono(c1, c, p);
    assert c * Abs(d) == c1 * p by {
      assert c * -d == -(c * d);
      MulNonNegative(c1, p);
      if d < 0.0 { MulNonNegative(c, -d); } else { MulNonNegative(c, d); }
    }
    MulCancel(c, Abs(d), p);
  }

  lemma RowsStepBound(y: real, n: nat, m: nat)
    requires Small(y) && m < n
    ensures Abs(Diagonal(y, n, m)) <= Pair(y, n - 1 - m, m + 1)
  {
    hide Term, Diagonal, Sign, Abs;
    DiagonalTelescopes(y, n, m);
    TermStep(y, m);
    TermNonNegative(y, m + 1);
    TermNonNegative(y, n - 1 - m);
    StepBound(n as real, (m + 1) as real, Sign(m), Diagonal(y, n, m), y, Term(y, n - 1 - m), Term(y, m),
              Term(y, m + 1));
  }

  lemma StepBound(c: real, c1: real, s: real, d: real, y: real, u: real, t: real, next: real)
    requires 0.0 < c1 <= c && 0.0 <= u && 0.0 <= next && (s == 1.0 || s == -1.0)
    requires c * d == s * (y * u * t) && c1 * next == y * t
    ensures Abs(d) <= u * next
  {
    hide Abs;
    assert y * u * t == c1 * (u * next) by {
      assert c1 * (u * next) == u * (c1 * next);
    }
    MulNonNegative(u, next);
    Quotient(c, c1, s, d, u * next);
  }

  /** Rows 0..m cut at a later diagonal are still 1 up to the first omitted term. */
  lemma {:induction false} RowsNearOne(y: real, n: nat, m: nat)
    requires Small(y) && m < n
    ensures Abs(Rows(y, n, m) - 1.0) <= Weighted(y, m + 1, n - 1 - m)
    decreases n
  {
    hide Term, Diagonal, Rows, Phi, Weighted, Pair;
    RowsStep(y, n, m);
    RowsStepBound(y, n, m);
    WeightedUnfold(y, m + 1, n - 1 - m);
    if n == m + 1 {
      TriangleIsOne(y, m);
      PairOne(y, m + 1);
    } else {
      RowsNearOne(y, n - 1, m);
    }
  }

  /** A cut row loses at most twice its first cut term. */
  lemma RowCut(y: real, n: nat, m: nat, j: nat)
    requires Small(y) && 0 < j <= m < n
    ensures 0.0 <= Weighted(y, j, n) - Weighted(y, j, n - j) <= 2.0 * Pair(y, j, n - m + 1)
  {
    hide Term, Phi;
    Tail(y, n - j, n);
    PhiGrows(y, n - j, n);
    TermNonNegative(y, n);
    TermNonNegative(y, j);
    TermAntitone(y, n - m + 1, n - j + 1);
    Between(Term(y, j), Phi(y, n), Phi(y, n - j), Term(y, n - m + 1));
  }

  lemma Between(t: real, whole: real, cut: real, u: real)
    requires 0.0 <= t && 0.0 <= whole - cut <= 2.0 * u
    ensures 0.0 <= t * whole - t * cut <= 2.0 * (t * u)
  {
    MulMono(whole - cut, 2.0 * u, t);
    MulNonNegative(whole - cut, t);
  }

  /** Cutting the rows costs at most the first cut term, once per row. */
  lemma {:induction false} CutRows(y: real, n: nat, m: nat, j: nat)
    requires Small(y) && j <= m < n
    ensures Abs(Product(y, n, j) - Rows(y, n, j)) <= 2.0 * Weighted(y, n - m + 1, j)
  {
    hide Term, Rows, Phi, Alt, Product, Weighted, Pair;
    RowsUnfold(y, n, j);
    ProductUnfold(y, n, j);
    WeightedUnfold(y, n - m + 1, j);
    if j == 0 {
      TermNonNegative(y, n - m + 1);
    } else {
      CutRows(y, n, m, j - 1);
      RowCut(y, n, m, j);
    }
  }

  lemma WeightedBound(y: real, j: nat, n: nat)
    requires Small(y)
    ensures Weighted(y, j, n) <= 1.5 * Term(y, j)
  {
    hide Term, Phi;
    PhiBounds(y, n);
    TermNonNegative(y, j);
    MulMono(Phi(y, n), 1.5, Term(y, j));
  }

  /** The two partial sums are each other's inverse up to two tiny terms. */
  lemma ProductNearOne(y: real, n: nat, m: nat)
    requires Small(y) && m < n
    ensures Abs(Product(y, n, m) - 1.0) <= 2.0 * Term(y, m + 1) + 3.0 * Term(y, n - m + 1)
  {
    hide Rows, Alt, Term, Phi, Product, Weighted;
    RowsNearOne(y, n, m);
    CutRows(y, n, m, m);
    WeightedBound(y, m + 1, n - 1 - m);
    WeightedBound(y, n - m + 1, m);
    TermNonNegative(y, m + 1);
  }

  // ---- how small the terms are ----

  ghost function Pow4(k: nat): (p: nat)
    ensures p >= 1
  {
    if k == 0 then 1 else 4 * Pow4(k - 1)
  }

  lemma {:induction false} Pow4Add(a: nat, b: nat)
    ensures Pow4(a + b) == Pow4(a) * Pow4(b)
  {
    if a > 0 {
      Pow4Add(a - 1, b);
      assert Pow4(a + b) == 4 * Pow4(a + b - 1);
    }
  }

  lemma {:induction false} TermTiny(y: real, k: nat)
    requires Small(y)
    ensures Term(y, k) * (Pow4(k) as real) <= 1.0
  {
    hide Term;
    if k == 0 {
      TermOne(y);
    } else {
      TermTiny(y, k - 1);
      TermShrinks(y, k - 1);
      var p := Pow4(k - 1) as real;
      assert Pow4(k) as real == 4.0 * p;
      MulMono(Term(y, k), Term(y, k - 1) / 4.0, 4.0 * p);
    }
  }
}
