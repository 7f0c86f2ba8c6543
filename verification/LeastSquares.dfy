/** Recursive least squares in any dimension, and what it computes.

    `Step` is one update as both learners of the gateway perform it; `Run` is a learner after a whole training
    history. `Information`, `Moment` and `Cost` describe the weighted ridge regression over that history without
    mentioning the recursion. */
module LeastSquares {
  import opened LinearAlgebra
  import opened Options
  import opened ShermanMorrison

  const PRIOR_VARIANCE := 1000000.0
  const RIDGE := 0.000001

  datatype Sample = Sample(phi: Vec, y: real)

  datatype Learner = Learner(theta: Vec, P: Mat)

  ghost predicate IsHistory(h: seq<Sample>, n: nat) {
    forall i :: 0 <= i < |h| ==> |h[i].phi| == n
  }

  ghost predicate IsLearner(L: Learner, n: nat) {
    |L.theta| == n && IsMat(L.P, n)
  }

  // ---------- one update ----------

  function Fresh(theta0: Vec): Learner {
    Learner(theta0, Diagonal(|theta0|, PRIOR_VARIANCE))
  }

  function Denominator(f: real, L: Learner, phi: Vec): real
    requires IsLearner(L, |phi|)
  {
    f + Dot(phi, Apply(L.P, phi))
  }

  function Gain(f: real, L: Learner, phi: Vec): (K: Vec)
    requires IsLearner(L, |phi|) && Denominator(f, L, phi) != 0.0
    ensures |K| == |phi|
  {
    var PHI := Apply(L.P, phi);
    seq(|phi|, i requires 0 <= i < |phi| => PHI[i] / Denominator(f, L, phi))
  }

  function Residual(L: Learner, s: Sample): real
    requires |L.theta| == |s.phi|
  {
    s.y - Dot(s.phi, L.theta)
  }

  function Step(f: real, L: Learner, s: Sample): (R: Learner)
    requires IsLearner(L, |s.phi|) && f != 0.0 && Denominator(f, L, s.phi) != 0.0
    ensures IsLearner(R, |s.phi|)
  {
    var K := Gain(f, L, s.phi);
    Learner(Comb(1.0, L.theta, Residual(L, s), K),
            RankOne(1.0 / f, L.P, -1.0 / f, K, Apply(L.P, s.phi)))
  }

  // ---------- the regression a history poses ----------

  /** The discounted information matrix of a history, ridge term included. */
  ghost function Information(f: real, n: nat, h: seq<Sample>): (A: Mat)
    requires IsHistory(h, n)
    ensures IsMat(A, n)
  {
    if h == [] then Diagonal(n, RIDGE)
    else
      var s := h[|h| - 1];
      NextA(f, Information(f, n, h[..|h| - 1]), s.phi)
  }

  /** The discounted right-hand side of the normal equations. */
  ghost function Moment(f: real, theta0: Vec, h: seq<Sample>): (b: Vec)
    requires IsHistory(h, |theta0|)
    ensures |b| == |theta0|
  {
    if h == [] then Comb(RIDGE, theta0, 0.0, theta0)
    else
      var s := h[|h| - 1];
      Comb(f, Moment(f, theta0, h[..|h| - 1]), s.y, s.phi)
  }

  /** L solves the normal equations A * theta = b, and its P is the inverse of A. */
  ghost predicate Solves(L: Learner, A: Mat, b: Vec, n: nat) {
    && IsLearner(L, n) && IsMat(A, n) && |b| == n
    && SelfAdjoint(A, n) && PositiveDefinite(A, n)
    && SelfAdjoint(L.P, n)
    && Inverses(A, L.P, n)
    && Apply(A, L.theta) == b
  }

  // ---------- every reachable learner solves its regression ----------

  lemma FreshInverseAt(v: Vec)
    ensures Apply(Diagonal(|v|, RIDGE), Apply(Diagonal(|v|, PRIOR_VARIANCE), v)) == v
    ensures Apply(Diagonal(|v|, PRIOR_VARIANCE), Apply(Diagonal(|v|, RIDGE), v)) == v
  {
    var (p, a) := (Comb(PRIOR_VARIANCE, v, 0.0, v), Comb(RIDGE, v, 0.0, v));
    ApplyDiagonal(PRIOR_VARIANCE, v);
    ApplyDiagonal(RIDGE, v);
    ApplyDiagonal(PRIOR_VARIANCE, a);
    ApplyDiagonal(RIDGE, p);
    assert Comb(RIDGE, p, 0.0, p) == v;
    assert Comb(PRIOR_VARIANCE, a, 0.0, a) == v;
  }

  lemma FreshPositiveAt(v: Vec)
    requires v != Zero(|v|)
    ensures Dot(v, Apply(Diagonal(|v|, RIDGE), v)) > 0.0
  {
    ApplyDiagonal(RIDGE, v);
    DotComb(v, RIDGE, v, 0.0, v);
    DotSelf(v);
  }

  lemma FreshSolves(theta0: Vec)
    ensures Solves(Fresh(theta0), Diagonal(|theta0|, RIDGE), Comb(RIDGE, theta0, 0.0, theta0), |theta0|)
  {
    var n := |theta0|;
    var (A, P) := (Diagonal(n, RIDGE), Diagonal(n, PRIOR_VARIANCE));
    SelfAdjointDiagonal(n, RIDGE);
    SelfAdjointDiagonal(n, PRIOR_VARIANCE);
    ApplyDiagonal(RIDGE, theta0);
    assert Inverses(A, P, n) by {
      forall v: Vec | |v| == n
        ensures Apply(A, Apply(P, v)) == v && Apply(P, Apply(A, v)) == v
      {
        FreshInverseAt(v);
      }
    }
    assert PositiveDefinite(A, n) by {
      forall v: Vec | |v| == n && v != Zero(n)
        ensures Dot(v, Apply(A, v)) > 0.0
      {
        FreshPositiveAt(v);
      }
    }
  }

  /** No update divides by zero: the denominator is at least the forgetting factor. */
  lemma DenominatorPositive(f: real, L: Learner, A: Mat, b: Vec, phi: Vec)
    requires f > 0.0 && Solves(L, A, b, |phi|)
    ensures Denominator(f, L, phi) >= f
  {
    if phi == Zero(|phi|) {
      ApplyZero(L.P, |phi|);
      DotToZero(phi, |phi|);
    } else {
      InversePositiveDefinite(A, L.P, |phi|);
    }
  }

  lemma GainScalars(z: Scalars, e: real, x: real)
    requires z.Ok()
    ensures z.f + z.d != 0.0 && 1.0 / z.f == z.g
    ensures e * (x / (z.f + z.d)) == (e * z.k) * x
    ensures (-1.0 / z.f) * (x / (z.f + z.d)) == z.q * x
  {
    var (f, g, k, den) := (z.f, z.g, z.k, z.f + z.d);
    var q := x / den;
    assert q == k * x by {
      assert q * den == x;
      assert q * (den * k) == (q * den) * k;
    }
    assert 1.0 / f == g by {
      assert (1.0 / f) * f == 1.0;
      assert (1.0 / f) * (f * g) == ((1.0 / f) * f) * g;
    }
    assert -1.0 / f == -g by {
      assert (-1.0 / f) * f == -1.0;
      assert (-1.0 / f) * (f * g) == ((-1.0 / f) * f) * g;
    }
    assert e * (k * x) == (e * k) * x;
    assert (-g) * (k * x) == -(g * k) * x;
  }

  /** The code's update of theta and P is the Sherman-Morrison step. */
  lemma StepIsShermanMorrison(z: Scalars, L: Learner, s: Sample, e: real, c: real, PHI: Vec)
    requires IsLearner(L, |s.phi|) && Denominator(z.f, L, s.phi) != 0.0
    requires z.Ok() && PHI == Apply(L.P, s.phi) && z.d == Dot(s.phi, PHI)
    requires e == Residual(L, s) && c == e * z.k
    ensures Step(z.f, L, s) == Learner(Comb(1.0, L.theta, c, PHI), NextP(z, L.P, PHI))
  {
    var (K, h) := (Gain(z.f, L, s.phi), -1.0 / z.f);
    GainScalars(z, e, 0.0);
    forall i | 0 <= i < |s.phi|
      ensures e * K[i] == c * PHI[i] && h * K[i] == z.q * PHI[i]
    {
      GainScalars(z, e, PHI[i]);
    }
    RankOneRescale(z.g, L.P, h, K, z.q, PHI, PHI);
    CombRescale(L.theta, e, K, c, PHI);
    assert Step(z.f, L, s) == Learner(Comb(1.0, L.theta, e, K), RankOne(z.g, L.P, h, K, PHI));
  }

  lemma CombRescale(u: Vec, a: real, v: Vec, b: real, w: Vec)
    requires |u| == |v| == |w|
    requires forall i :: 0 <= i < |u| ==> a * v[i] == b * w[i]
    ensures Comb(1.0, u, a, v) == Comb(1.0, u, b, w)
  {
  }

  lemma StepMatrix(f: real, L: Learner, s: Sample, A: Mat, b: Vec)
    requires f > 0.0 && Solves(L, A, b, |s.phi|)
    requires Denominator(f, L, s.phi) >= f
    ensures var (A', P', n) := (NextA(f, A, s.phi), Step(f, L, s).P, |s.phi|);
            Inverses(A', P', n) && SelfAdjoint(A', n) && SelfAdjoint(P', n) && PositiveDefinite(A', n)
  {
    var PHI := Apply(L.P, s.phi);
    var z := MakeScalars(f, Dot(s.phi, PHI));
    var e := Residual(L, s);
    StepIsShermanMorrison(z, L, s, e, e * z.k, PHI);
    NextInverses(z, A, L.P, s.phi, PHI);
    NextPositive(f, A, s.phi);
    SelfAdjointRankOne(f, A, 1.0, s.phi, |s.phi|);
    SelfAdjointRankOne(z.g, L.P, z.q, PHI, |s.phi|);
  }

  lemma StepTheta(f: real, L: Learner, s: Sample, A: Mat)
    requires f > 0.0 && IsLearner(L, |s.phi|) && IsMat(A, |s.phi|)
    requires Denominator(f, L, s.phi) >= f && Apply(A, Apply(L.P, s.phi)) == s.phi
    ensures Apply(NextA(f, A, s.phi), Step(f, L, s).theta) == Comb(f, Apply(A, L.theta), s.y, s.phi)
  {
    var PHI := Apply(L.P, s.phi);
    var z := MakeScalars(f, Dot(s.phi, PHI));
    var e := Residual(L, s);
    var c := e * z.k;
    StepIsShermanMorrison(z, L, s, e, c, PHI);
    NextSolution(z, A, PHI, s.phi, L.theta, s.y, e, c);
  }

  lemma StepSolves(f: real, L: Learner, s: Sample, A: Mat, b: Vec)
    requires f > 0.0 && Solves(L, A, b, |s.phi|)
    ensures Denominator(f, L, s.phi) >= f
    ensures Solves(Step(f, L, s), NextA(f, A, s.phi), Comb(f, b, s.y, s.phi), |s.phi|)
  {
    DenominatorPositive(f, L, A, b, s.phi);
    StepMatrix(f, L, s, A, b);
    StepTheta(f, L, s, A);
  }

  /** A learner after the training history h, started from the coefficients theta0. */
  function Run(f: real, theta0: Vec, h: seq<Sample>): (L: Learner)
    requires f > 0.0 && IsHistory(h, |theta0|)
    ensures Solves(L, Information(f, |theta0|, h), Moment(f, theta0, h), |theta0|)
  {
    if h == [] then
      FreshSolves(theta0);
      Fresh(theta0)
    else
      var (older, s) := (h[..|h| - 1], h[|h| - 1]);
      var L := Run(f, theta0, older);
      StepSolves(f, L, s, Information(f, |theta0|, older), Moment(f, theta0, older));
      Step(f, L, s)
  }

  lemma RunOfNothing(f: real, theta0: Vec)
    requires f > 0.0
    ensures Run(f, theta0, []) == Fresh(theta0)
  {
  }

  lemma RunSnoc(f: real, theta0: Vec, h: seq<Sample>, s: Sample)
    requires f > 0.0 && IsHistory(h, |theta0|) && |s.phi| == |theta0|
    ensures Denominator(f, Run(f, theta0, h), s.phi) >= f
    ensures Run(f, theta0, h + [s]) == Step(f, Run(f, theta0, h), s)
  {
    DenominatorPositive(f, Run(f, theta0, h), Information(f, |theta0|, h), Moment(f, theta0, h), s.phi);
    assert (h + [s])[..|h|] == h;
  }

  // ---------- any factor ----------

  /** The entry formula of the covariance update, by reciprocal or by division, in the form of the rank-one update. */
  lemma DowndateScalars(f: real, p: real, K: real, z: real, a: real, b: real)
    requires f != 0.0 && a == 1.0 / f && b == -1.0 / f
    ensures (p - K * z) * a == Lin(a, p, Product(b, K), z) == (p - K * z) / f
  {
    assert b == -a by {
      assert b * f == -1.0 && a * f == 1.0;
      assert b * (a * f) == (b * f) * a;
    }
    var q := p - K * z;
    assert q / f == q * a by {
      var r := q / f;
      assert r * f == q;
      assert r * (f * a) == (r * f) * a;
    }
    assert q * a == a * p + ((-a) * K) * z;
  }

  lemma ScaledGain(h: real, x: real, den: real)
    requires den != 0.0
    ensures h * (x / den) == (h / den) * x
  {
    var (q, k) := (x / den, h / den);
    assert q * den == x && k * den == h;
    assert (k * den) * q == k * (q * den);
  }

  /** Whatever the factor, an update keeps P symmetric. */
  lemma StepSelfAdjoint(f: real, L: Learner, s: Sample)
    requires IsLearner(L, |s.phi|) && SelfAdjoint(L.P, |s.phi|) && f != 0.0 && Denominator(f, L, s.phi) != 0.0
    ensures SelfAdjoint(Step(f, L, s).P, |s.phi|)
  {
    hide Denominator;
    var (K, PHI, h, den) := (Gain(f, L, s.phi), Apply(L.P, s.phi), -1.0 / f, Denominator(f, L, s.phi));
    forall i | 0 <= i < |s.phi|
      ensures h * K[i] == (h / den) * PHI[i]
    {
      ScaledGain(h, PHI[i], den);
    }
    RankOneRescale(1.0 / f, L.P, h, K, h / den, PHI, PHI);
    SelfAdjointRankOne(1.0 / f, L.P, h / den, PHI, |s.phi|);
  }

  /** A learner after the training history h for any factor; None when some update would divide by zero. */
  function Replay(f: real, theta0: Vec, h: seq<Sample>): (r: Option<Learner>)
    requires IsHistory(h, |theta0|)
    ensures r.Some? ==> IsLearner(r.value, |theta0|) && SelfAdjoint(r.value.P, |theta0|)
  {
    if h == [] then
      SelfAdjointDiagonal(|theta0|, PRIOR_VARIANCE);
      Some(Fresh(theta0))
    else
      var s := h[|h| - 1];
      match Replay(f, theta0, h[..|h| - 1])
      case None => None
      case Some(L) =>
        if f == 0.0 || Denominator(f, L, s.phi) == 0.0 then None
        else
          StepSelfAdjoint(f, L, s);
          Some(Step(f, L, s))
  }

  lemma ReplaySnoc(f: real, theta0: Vec, h: seq<Sample>, s: Sample, L: Learner)
    requires IsHistory(h, |theta0|) && |s.phi| == |theta0| && Replay(f, theta0, h) == Some(L)
    requires f != 0.0 && Denominator(f, L, s.phi) != 0.0
    ensures Replay(f, theta0, h + [s]) == Some(Step(f, L, s)) && SelfAdjoint(L.P, |theta0|)
  {
    assert (h + [s])[..|h|] == h;
  }

  /** Above 0 no update ever divides by zero. */
  lemma {:induction false} ReplayIsRun(f: real, theta0: Vec, h: seq<Sample>)
    requires f > 0.0 && IsHistory(h, |theta0|)
    ensures Replay(f, theta0, h) == Some(Run(f, theta0, h))
    decreases |h|
  {
    hide Denominator, Step, Solves, Replay;
    if h == [] {
      ReplayOfNothing(f, theta0);
      RunOfNothing(f, theta0);
    } else {
      var (older, s) := (h[..|h| - 1], h[|h| - 1]);
      ReplayIsRun(f, theta0, older);
      RunSnoc(f, theta0, older, s);
      ReplaySnoc(f, theta0, older, s, Run(f, theta0, older));
      assert h == older + [s];
    }
  }

  lemma ReplayOfNothing(f: real, theta0: Vec)
    ensures Replay(f, theta0, []) == Some(Fresh(theta0))
  {
  }

  /** The very first update divides by zero exactly for the factor 0 and for one negative factor. */
  lemma FirstUpdateDividesByZeroIff(f: real, theta0: Vec, s: Sample)
    requires |s.phi| == |theta0|
    ensures Replay(f, theta0, [s]) == None <==> f == 0.0 || f == -(PRIOR_VARIANCE * Dot(s.phi, s.phi))
  {
    hide Dot;
    assert [s][..0] == [];
    ReplayOfNothing(f, theta0);
    ApplyDiagonal(PRIOR_VARIANCE, s.phi);
    DotComb(s.phi, PRIOR_VARIANCE, s.phi, 0.0, s.phi);
  }
}
