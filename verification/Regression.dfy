/** What a trained learner is: the unique minimiser of a discounted ridge regression over its whole history. */
module Regression {
  import opened LinearAlgebra
  import opened ShermanMorrison
  import opened LeastSquares

  function Pow(f: real, k: nat): real {
    if k == 0 then 1.0 else f * Pow(f, k - 1)
  }

  function Square(x: real): real {
    x * x
  }

  function SumTo(f: real, xs: seq<real>, k: nat): real
    requires k <= |xs|
  {
    if k == 0 then 0.0 else SumTo(f, xs, k - 1) + Pow(f, |xs| - k) * xs[k - 1]
  }

  /** The sum of xs with element i of n weighted by f^(n-1-i): the newest counts fully. */
  function Discounted(f: real, xs: seq<real>): real {
    SumTo(f, xs, |xs|)
  }

  ghost function Errors(h: seq<Sample>, w: Vec): seq<real>
    requires IsHistory(h, |w|)
  {
    seq(|h|, i requires 0 <= i < |h| => Square(h[i].y - Dot(h[i].phi, w)))
  }

  /** The cost of the coefficients w: discounted squared errors, plus the discounted ridge term around theta0. */
  ghost function Cost(f: real, theta0: Vec, h: seq<Sample>, w: Vec): real
    requires |w| == |theta0| && IsHistory(h, |w|)
  {
    Pow(f, |h|) * RIDGE * Dot(Sub(w, theta0), Sub(w, theta0)) + Discounted(f, Errors(h, w))
  }

  /** How much the cost grows when w = x + e replaces x: gradient term plus curvature term. */
  ghost function Excess(A: Mat, b: Vec, x: Vec, e: Vec): real
    requires |x| == |e| == |b| && IsMat(A, |x|)
  {
    2.0 * (Dot(e, Apply(A, x)) - Dot(e, b)) + Dot(e, Apply(A, e))
  }

  // ---------- the cost is a quadratic form in the information matrix ----------

  lemma {:induction false} SumToDiscount(f: real, xs: seq<real>, x: real, k: nat)
    requires k <= |xs|
    ensures SumTo(f, xs + [x], k) == f * SumTo(f, xs, k)
  {
    if k > 0 {
      SumToDiscount(f, xs, x, k - 1);
      var (p, q) := (Pow(f, |xs| - k), xs[k - 1]);
      assert Pow(f, |xs| + 1 - k) == f * p;
      assert (f * p) * q == f * (p * q);
    }
  }

  lemma DiscountedSnoc(f: real, xs: seq<real>, x: real)
    ensures Discounted(f, xs + [x]) == f * Discounted(f, xs) + x
  {
    SumToDiscount(f, xs, x, |xs|);
    assert Pow(f, 0) == 1.0;
  }

  lemma CostSnoc(f: real, theta0: Vec, h: seq<Sample>, s: Sample, w: Vec)
    requires |w| == |theta0| == |s.phi| && IsHistory(h, |w|)
    ensures Cost(f, theta0, h + [s], w) == f * Cost(f, theta0, h, w) + Square(s.y - Dot(s.phi, w))
  {
    var (p, r) := (Pow(f, |h|), Dot(Sub(w, theta0), Sub(w, theta0)));
    var x := Square(s.y - Dot(s.phi, w));
    assert Errors(h + [s], w) == Errors(h, w) + [x];
    DiscountedSnoc(f, Errors(h, w), x);
    assert Pow(f, |h| + 1) == f * p;
    assert (f * p) * RIDGE * r == f * (p * RIDGE * r);
  }

  /** |u + e|^2 = |u|^2 + 2*u.e + |e|^2 with u = x - theta0. */
  lemma ShiftedSquare(theta0: Vec, x: Vec, e: Vec)
    requires |x| == |e| == |theta0|
    ensures var (u, w) := (Sub(x, theta0), Sub(Comb(1.0, x, 1.0, e), theta0));
            Dot(w, w) == Dot(u, u) + 2.0 * (Dot(e, x) - Dot(e, theta0)) + Dot(e, e)
  {
    var u := Sub(x, theta0);
    var w := Comb(1.0, u, 1.0, e);
    assert Sub(Comb(1.0, x, 1.0, e), theta0) == w;
    DotComb(w, 1.0, u, 1.0, e);
    CombDot(1.0, u, 1.0, e, u);
    CombDot(1.0, u, 1.0, e, e);
    DotSym(u, e);
    DotComb(e, 1.0, x, -1.0, theta0);
  }

  lemma DotDiagonal(c: real, u: Vec, v: Vec)
    requires |u| == |v|
    ensures Dot(u, Apply(Diagonal(|v|, c), v)) == c * Dot(u, v)
    ensures Dot(u, Comb(c, v, 0.0, v)) == c * Dot(u, v)
  {
    ApplyDiagonal(c, v);
    DotComb(u, c, v, 0.0, v);
  }

  lemma CostExcessBase(f: real, theta0: Vec, x: Vec, e: Vec)
    requires |x| == |e| == |theta0|
    ensures Cost(f, theta0, [], Comb(1.0, x, 1.0, e)) ==
            Cost(f, theta0, [], x) + Excess(Information(f, |x|, []), Moment(f, theta0, []), x, e)
  {
    hide Dot;
    ShiftedSquare(theta0, x, e);
    DotDiagonal(RIDGE, e, x);
    DotDiagonal(RIDGE, e, e);
    DotDiagonal(RIDGE, e, theta0);
  }

  lemma ExcessNext(f: real, A: Mat, b: Vec, s: Sample, x: Vec, e: Vec, p: real, q: real)
    requires |x| == |e| == |b| == |s.phi| && IsMat(A, |x|)
    requires p == Dot(s.phi, x) && q == Dot(s.phi, e)
    ensures Excess(NextA(f, A, s.phi), Comb(f, b, s.y, s.phi), x, e) ==
            f * Excess(A, b, x, e) + 2.0 * (q * p - s.y * q) + q * q
  {
    DotRankOne(f, A, 1.0, s.phi, e, x);
    DotRankOne(f, A, 1.0, s.phi, e, e);
    DotComb(e, f, b, s.y, s.phi);
    DotSym(e, s.phi);
  }

  /** Moving from x by e changes the cost by the gradient term and the curvature term, exactly. */
  lemma {:induction false} CostExcess(f: real, theta0: Vec, h: seq<Sample>, x: Vec, e: Vec)
    requires |x| == |e| == |theta0| && IsHistory(h, |x|)
    ensures Cost(f, theta0, h, Comb(1.0, x, 1.0, e)) ==
            Cost(f, theta0, h, x) + Excess(Information(f, |x|, h), Moment(f, theta0, h), x, e)
    decreases |h|
  {
    hide Cost, Excess, Dot;
    if h == [] {
      CostExcessBase(f, theta0, x, e);
    } else {
      var (older, s) := (h[..|h| - 1], h[|h| - 1]);
      assert h == older + [s];
      var w := Comb(1.0, x, 1.0, e);
      var (p, q) := (Dot(s.phi, x), Dot(s.phi, e));
      var (A, b) := (Information(f, |x|, older), Moment(f, theta0, older));
      CostExcess(f, theta0, older, x, e);
      CostSnoc(f, theta0, older, s, x);
      CostSnoc(f, theta0, older, s, w);
      DotComb(s.phi, 1.0, x, 1.0, e);
      ExcessNext(f, A, b, s, x, e, p, q);
      CombineScalars(f, Cost(f, theta0, older, x), Excess(A, b, x, e), Cost(f, theta0, older, w), s.y, p, q);
    }
  }

  lemma CombineScalars(f: real, cost: real, excess: real, cost': real, y: real, p: real, q: real)
    requires cost' == cost + excess
    ensures f * cost' + Square(y - (p + q)) ==
            (f * cost + Square(y - p)) + (f * excess + 2.0 * (q * p - y * q) + q * q)
  {
  }

  // ---------- main results ----------

  lemma ExcessAtSolution(A: Mat, b: Vec, theta: Vec, e: Vec)
    requires |theta| == |e| == |b| && IsMat(A, |e|) && Apply(A, theta) == b
    ensures Excess(A, b, theta, e) == Dot(e, Apply(A, e))
  {
  }

  /** Whatever solves the normal equations of a positive definite system is the strict minimiser. */
  lemma SolutionMinimises(f: real, theta0: Vec, h: seq<Sample>, theta: Vec, w: Vec, e: Vec)
    requires |w| == |theta0| == |theta| && IsHistory(h, |w|) && e == Sub(w, theta)
    requires Apply(Information(f, |w|, h), theta) == Moment(f, theta0, h)
    requires PositiveDefinite(Information(f, |w|, h), |w|)
    ensures Cost(f, theta0, h, w) == Cost(f, theta0, h, theta) + Dot(e, Apply(Information(f, |w|, h), e))
    ensures w != theta ==> Cost(f, theta0, h, w) > Cost(f, theta0, h, theta)
  {
    hide Cost, Dot;
    SubAdd(w, theta);
    CostExcess(f, theta0, h, theta, e);
    ExcessAtSolution(Information(f, |w|, h), Moment(f, theta0, h), theta, e);
    SubZero(w, theta);
  }

  /** The learner's coefficients are the one and only minimiser, and by how much every other choice is worse. */
  lemma RunMinimisesCost(f: real, theta0: Vec, h: seq<Sample>, theta: Vec, w: Vec, e: Vec)
    requires f > 0.0 && |w| == |theta0| && IsHistory(h, |w|)
    requires theta == Run(f, theta0, h).theta && e == Sub(w, theta)
    ensures Cost(f, theta0, h, w) == Cost(f, theta0, h, theta) + Dot(e, Apply(Information(f, |w|, h), e))
    ensures w != theta ==> Cost(f, theta0, h, w) > Cost(f, theta0, h, theta)
  {
    hide Cost, Dot;
    SolutionMinimises(f, theta0, h, theta, w, e);
  }

  /** P is symmetric, positive definite, and the two-sided inverse of the information matrix. */
  lemma RunCovariance(f: real, theta0: Vec, h: seq<Sample>, i: nat, j: nat)
    requires f > 0.0 && IsHistory(h, |theta0|) && i < |theta0| && j < |theta0|
    ensures var (P, n) := (Run(f, theta0, h).P, |theta0|);
            P[i][j] == P[j][i] && PositiveDefinite(P, n) && Inverses(Information(f, n, h), P, n)
  {
    var (P, n) := (Run(f, theta0, h).P, |theta0|);
    SelfAdjointSymmetric(P, n, i, j);
    InversePositiveDefinite(Information(f, n, h), P, n);
  }

  /** In every reachable state the next update's divisor is at least the forgetting factor. */
  lemma RunNeverDividesByZero(f: real, theta0: Vec, h: seq<Sample>, phi: Vec)
    requires f > 0.0 && IsHistory(h, |theta0|) && |phi| == |theta0|
    ensures Denominator(f, Run(f, theta0, h), phi) >= f
  {
    DenominatorPositive(f, Run(f, theta0, h), Information(f, |phi|, h), Moment(f, theta0, h), phi);
  }

  lemma ResidualScalar(z: Scalars, e: real, c: real)
    requires z.Ok() && z.d >= 0.0 && c == e * z.k
    ensures (e - c * z.d) * (z.f + z.d) == e * z.f
    ensures if e >= 0.0 then 0.0 <= e - c * z.d <= e else e <= e - c * z.d <= 0.0
  {
    var (den, r) := (z.f + z.d, e - c * z.d);
    assert (c * z.d) * den == (e * z.d) * (den * z.k);
    assert r * den == e * z.f;
    var s := z.f * z.k;
    assert r == e * s by {
      assert (e * z.f) * z.k == r * (den * z.k);
    }
    ShareOfOne(z, s);
    if e >= 0.0 {
      ProductBounds(e, s, r);
    } else {
      ProductBounds(-e, s, -r);
    }
  }

  lemma ProductBounds(e: real, s: real, r: real)
    requires e >= 0.0 && 0.0 <= s <= 1.0 && r == e * s
    ensures 0.0 <= r <= e
  {
    ProductNonNegative(e, s, r);
    ProductNonNegative(e, 1.0 - s, e - r);
  }

  lemma ShareOfOne(z: Scalars, s: real)
    requires z.Ok() && z.d >= 0.0 && s == z.f * z.k
    ensures 0.0 <= s <= 1.0
  {
    ProductNonNegative(z.f, z.k, s);
    ProductNonNegative(z.d, z.k, 1.0 - s);
  }

  /** Learning a sample scales its own residual by f / denominator: it keeps its sign and never grows. */
  lemma RunShrinksResidual(f: real, theta0: Vec, h: seq<Sample>, s: Sample)
    requires f > 0.0 && IsHistory(h, |theta0|) && |s.phi| == |theta0|
    ensures var (L, L') := (Run(f, theta0, h), Run(f, theta0, h + [s]));
            var (before, after) := (Residual(L, s), Residual(L', s));
            && after * Denominator(f, L, s.phi) == before * f
            && (if before >= 0.0 then 0.0 <= after <= before else before <= after <= 0.0)
  {
    hide Dot, Denominator, Residual;
    var L := Run(f, theta0, h);
    RunNeverDividesByZero(f, theta0, h, s.phi);
    assert (h + [s])[..|h|] == h;
    StepShrinksResidual(f, L, s);
  }

  lemma StepShrinksResidual(f: real, L: Learner, s: Sample)
    requires f > 0.0 && IsLearner(L, |s.phi|) && Denominator(f, L, s.phi) >= f
    ensures var (before, after) := (Residual(L, s), Residual(Step(f, L, s), s));
            && after * Denominator(f, L, s.phi) == before * f
            && (if before >= 0.0 then 0.0 <= after <= before else before <= after <= 0.0)
  {
    hide Dot;
    var (PHI, e) := (Apply(L.P, s.phi), Residual(L, s));
    var z := MakeScalars(f, Dot(s.phi, PHI));
    var c := e * z.k;
    StepIsShermanMorrison(z, L, s, e, c, PHI);
    DotComb(s.phi, 1.0, L.theta, c, PHI);
    ResidualScalar(z, e, c);
  }

  // ---------- the matrices in closed form ----------

  ghost function Products(h: seq<Sample>, n: nat, r: nat, c: nat): (xs: seq<real>)
    requires IsHistory(h, n) && r < n && c < n
    ensures |xs| == |h| && forall i :: 0 <= i < |h| ==> xs[i] == Product(h[i].phi[r], h[i].phi[c])
  {
    seq(|h|, i requires 0 <= i < |h| => Product(h[i].phi[r], h[i].phi[c]))
  }

  ghost function Targets(h: seq<Sample>, n: nat, r: nat): (xs: seq<real>)
    requires IsHistory(h, n) && r < n
    ensures |xs| == |h| && forall i :: 0 <= i < |h| ==> xs[i] == Product(h[i].y, h[i].phi[r])
  {
    seq(|h|, i requires 0 <= i < |h| => Product(h[i].y, h[i].phi[r]))
  }

  lemma DiscountedClosedForm(f: real, xs: seq<real>, x: real, k: nat, base: real, m: real)
    requires m == Product(Pow(f, k), base) + Discounted(f, xs)
    ensures Product(f, m) + x == Product(Pow(f, k + 1), base) + Discounted(f, xs + [x])
  {
    DiscountedSnoc(f, xs, x);
    var (p, t) := (Pow(f, k), Discounted(f, xs));
    assert Pow(f, k + 1) == f * p;
    assert f * (p * base + t) == (f * p) * base + f * t;
  }

  /** One entry of the prior information matrix. */
  function PriorEntry(r: nat, c: nat): real {
    if r == c then RIDGE else 0.0
  }

  lemma NextAEntry(f: real, A: Mat, phi: Vec, r: nat, c: nat)
    requires IsMat(A, |phi|) && r < |phi| && c < |phi|
    ensures NextA(f, A, phi)[r][c] == Product(f, A[r][c]) + Product(phi[r], phi[c])
  {
  }

  lemma InformationSnoc(f: real, n: nat, h: seq<Sample>, s: Sample, r: nat, c: nat)
    requires IsHistory(h, n) && |s.phi| == n && r < n && c < n
    ensures Information(f, n, h + [s])[r][c] == Product(f, Information(f, n, h)[r][c]) + Product(s.phi[r], s.phi[c])
  {
    assert (h + [s])[..|h|] == h;
    NextAEntry(f, Information(f, n, h), s.phi, r, c);
  }

  /** A = f^n * RIDGE * I + sum of f^(n-1-i) * phi_i * phi_i^T, entry by entry. */
  lemma {:induction false} InformationClosedForm(f: real, n: nat, h: seq<Sample>, r: nat, c: nat)
    requires IsHistory(h, n) && r < n && c < n
    ensures Information(f, n, h)[r][c] ==
            Product(Pow(f, |h|), PriorEntry(r, c)) + Discounted(f, Products(h, n, r, c))
    decreases |h|
  {
    hide Product, Lin, Discounted;
    if h == [] {
      InformationBase(f, n, r, c);
    } else {
      var (older, s) := (h[..|h| - 1], h[|h| - 1]);
      assert h == older + [s];
      var (x, base) := (Product(s.phi[r], s.phi[c]), PriorEntry(r, c));
      var xs := Products(older, n, r, c);
      InformationClosedForm(f, n, older, r, c);
      assert Products(h, n, r, c) == xs + [x];
      DiscountedClosedForm(f, xs, x, |older|, base, Information(f, n, older)[r][c]);
      InformationSnoc(f, n, older, s, r, c);
    }
  }

  lemma CombEntry(f: real, b: Vec, y: real, phi: Vec, r: nat)
    requires |b| == |phi| && r < |b|
    ensures Comb(f, b, y, phi)[r] == Product(f, b[r]) + Product(y, phi[r])
  {
  }

  lemma InformationBase(f: real, n: nat, r: nat, c: nat)
    requires r < n && c < n
    ensures Information(f, n, [])[r][c] ==
            Product(Pow(f, 0), PriorEntry(r, c)) + Discounted(f, Products([], n, r, c))
  {
  }

  lemma MomentBase(f: real, theta0: Vec, r: nat)
    requires r < |theta0|
    ensures Moment(f, theta0, [])[r] ==
            Product(Pow(f, 0), Product(RIDGE, theta0[r])) + Discounted(f, Targets([], |theta0|, r))
  {
  }

  /** b = f^n * RIDGE * theta0 + sum of f^(n-1-i) * y_i * phi_i, entry by entry. */
  lemma {:induction false} MomentClosedForm(f: real, theta0: Vec, h: seq<Sample>, r: nat)
    requires IsHistory(h, |theta0|) && r < |theta0|
    ensures Moment(f, theta0, h)[r] ==
            Product(Pow(f, |h|), Product(RIDGE, theta0[r])) + Discounted(f, Targets(h, |theta0|, r))
    decreases |h|
  {
    hide Product, Lin, Discounted;
    if h == [] {
      MomentBase(f, theta0, r);
    } else {
      var (older, s) := (h[..|h| - 1], h[|h| - 1]);
      var (x, base) := (Product(s.y, s.phi[r]), Product(RIDGE, theta0[r]));
      var (xs, b) := (Targets(older, |theta0|, r), Moment(f, theta0, older));
      MomentClosedForm(f, theta0, older, r);
      assert Targets(h, |theta0|, r) == xs + [x];
      DiscountedClosedForm(f, xs, x, |older|, base, b[r]);
      CombEntry(f, b, s.y, s.phi, r);
    }
  }
}
