/** The six-coefficient polynomial learner, whose loops update the coefficients and the covariance in place. */
module TtftRls {
  import opened LinearAlgebra
  import opened LeastSquares
  import opened Options

  const N := 6

  /** phi = [input^2, cached^2, input*cached, input, cached, 1] */
  function ConstructFeatures(input: int, cached: int): (phi: Vec)
    ensures |phi| == N
  {
    var (x1, x2) := (input as real, cached as real);
    [x1 * x1, x2 * x2, x1 * x2, x1, x2, 1.0]
  }

  /** The six-term sum the code writes out by hand. */
  function Sum6(u: Vec, v: Vec): real
    requires |u| == N && |v| == N
  {
    u[0] * v[0] + u[1] * v[1] + u[2] * v[2] + u[3] * v[3] + u[4] * v[4] + u[5] * v[5]
  }

  lemma Dot6(u: Vec, v: Vec)
    requires |u| == N && |v| == N
    ensures Sum6(u, v) == Dot(u, v) == Dot(v, u) == Sum6(v, u)
  {
    assert DotTo(u, v, 1) == u[0] * v[0];
    assert DotTo(u, v, 2) == DotTo(u, v, 1) + u[1] * v[1];
    assert DotTo(u, v, 3) == DotTo(u, v, 2) + u[2] * v[2];
    assert DotTo(u, v, 4) == DotTo(u, v, 3) + u[3] * v[3];
    assert DotTo(u, v, 5) == DotTo(u, v, 4) + u[4] * v[4];
    DotSym(u, v);
  }

  ghost predicate IsSquare(p: array2<real>) {
    p.Length0 == N && p.Length1 == N
  }

  function Row(p: array2<real>, i: nat): (r: Vec)
    requires IsSquare(p) && i < N
    reads p
    ensures |r| == N && forall j :: 0 <= j < N ==> r[j] == p[i, j]
  {
    [p[i, 0], p[i, 1], p[i, 2], p[i, 3], p[i, 4], p[i, 5]]
  }

  function Column(p: array2<real>, i: nat): (r: Vec)
    requires IsSquare(p) && i < N
    reads p
    ensures |r| == N && forall j :: 0 <= j < N ==> r[j] == p[j, i]
  {
    [p[0, i], p[1, i], p[2, i], p[3, i], p[4, i], p[5, i]]
  }

  ghost function Rows(p: array2<real>): (M: Mat)
    requires IsSquare(p)
    reads p
    ensures IsMat(M, N) && forall i :: 0 <= i < N ==> M[i] == Row(p, i)
  {
    [Row(p, 0), Row(p, 1), Row(p, 2), Row(p, 3), Row(p, 4), Row(p, 5)]
  }

  /** The entry formula of the covariance update. */
  function Downdate(p: real, k: real, z: real, lambda: real): real
    requires lambda != 0.0
  {
    (p - k * z) / lambda
  }

  // ---------- the loops against `Step` ----------

  /** The code sums down a column for phiTP and along a row for k; P is symmetric, so they agree. */
  lemma ColumnIsRow(p: array2<real>, i: nat)
    requires IsSquare(p) && i < N && SelfAdjoint(Rows(p), N)
    ensures Column(p, i) == Row(p, i)
  {
    forall j | 0 <= j < N
      ensures p[j, i] == p[i, j]
    {
      SelfAdjointSymmetric(Rows(p), N, i, j);
      assert Rows(p)[i][j] == p[i, j] && Rows(p)[j][i] == p[j, i];
    }
  }

  lemma StepEntry(f: real, L: Learner, s: Sample, K: Vec, PHI: Vec, i: nat, j: nat)
    requires IsLearner(L, N) && |s.phi| == N && f != 0.0 && Denominator(f, L, s.phi) != 0.0
    requires K == Gain(f, L, s.phi) && PHI == Apply(L.P, s.phi) && i < N && j < N
    ensures Step(f, L, s).P[i][j] == Downdate(L.P[i][j], K[i], PHI[j], f)
  {
    hide Dot, Lin, Product;
    DowndateScalars(f, L.P[i][j], K[i], PHI[j], 1.0 / f, -1.0 / f);
  }

  lemma StepCoefficient(f: real, L: Learner, s: Sample, K: Vec, e: real, i: nat)
    requires IsLearner(L, N) && |s.phi| == N && f != 0.0 && Denominator(f, L, s.phi) != 0.0
    requires K == Gain(f, L, s.phi) && e == Residual(L, s) && i < N
    ensures Step(f, L, s).theta[i] == L.theta[i] + Product(K[i], e)
  {
    hide Dot;
  }

  class RLS {
    const params: array<real>
    const p: array2<real>
    const lambda: real
    ghost const theta0: Vec
    ghost var history: seq<Sample>

    ghost function State(): Learner
      requires params.Length == N && IsSquare(p)
      reads params, p
    {
      Learner(params[..], Rows(p))
    }

    /** The arrays hold exactly what the recursion makes of the recorded history, on which it never divided by zero. */
    ghost predicate Valid()
      reads this, params, p
    {
      && params.Length == N && IsSquare(p) && |theta0| == N && IsHistory(history, N)
      && Replay(lambda, theta0, history) == Some(State())
    }

    /** Neither of the update's divisors is zero. */
    ghost predicate CanLearn(features: Vec)
      requires |features| == N && params.Length == N && IsSquare(p)
      reads params, p
    {
      lambda != 0.0 && Denominator(lambda, State(), features) != 0.0
    }

    constructor (lambda: real)
      ensures Valid() && fresh(params) && fresh(p)
      ensures this.lambda == lambda && theta0 == Zero(N) && history == []
    {
      hide Diagonal, Row, Rows;
      this.lambda := lambda;
      params := new real[N](_ => 0.0);
      p := new real[N, N]((i, j) => if i == j then 1000000.0 else 0.0);
      theta0 := Zero(N);
      history := [];
      new;
      assert params[..] == theta0;
      FreshRows(p);
    }

    constructor CopyOf(r: RLS)
      requires r.Valid()
      ensures Valid() && fresh(params) && fresh(p)
      ensures lambda == r.lambda && theta0 == r.theta0 && history == r.history
    {
      hide Replay, Diagonal, Row, Rows;
      lambda := r.lambda;
      params := new real[N](i requires 0 <= i < N reads r.params => r.params[i]);
      p := new real[N, N]((i, j) requires 0 <= i < N && 0 <= j < N reads r.p => r.p[i, j]);
      theta0 := r.theta0;
      history := r.history;
      new;
      assert params[..] == r.params[..];
      SameRows(p, r.p);
    }

    /** A copy that shares nothing with the original: its arrays are new. */
    method Clone() returns (c: RLS)
      requires Valid()
      ensures c.Valid() && fresh(c) && fresh(c.params) && fresh(c.p)
      ensures c.lambda == lambda && c.theta0 == theta0 && c.history == history
    {
      c := new RLS.CopyOf(this);
    }

    /** The live coefficients themselves, not a copy. */
    method Params() returns (out: array<real>)
      ensures out == params
    {
      out := params;
    }

    method Predict(input: int, cached: int) returns (r: real)
      requires Valid()
      ensures r == Dot(ConstructFeatures(input, cached), State().theta)
      ensures lambda > 0.0 ==> r == Dot(ConstructFeatures(input, cached), Run(lambda, theta0, history).theta)
    {
      var x1, x2 := input as real, cached as real;
      var t := params[..];
      r := t[0] * x1 * x1 + t[1] * x2 * x2 + t[2] * x1 * x2 + t[3] * x1 + t[4] * x2 + t[5] * 1.0;
      PredictIsDot(t, input, cached, x1, x2);
      if lambda > 0.0 {
        ReplayIsRun(lambda, theta0, history);
      }
    }

    method Train(input: int, cached: int, y: real)
      requires Valid() && CanLearn(ConstructFeatures(input, cached))
      modifies this`history, params, p
      ensures Valid() && history == old(history) + [Sample(ConstructFeatures(input, cached), y)]
    {
      Update(ConstructFeatures(input, cached), y);
    }

    method Update(features: Vec, y: real)
      requires Valid() && |features| == N && CanLearn(features)
      modifies this`history, params, p
      ensures Valid() && history == old(history) + [Sample(features, y)]
    {
      hide Dot, Replay, Step, Denominator, Residual, Gain, Rows;
      ghost var L := State();
      ghost var s := Sample(features, y);
      ReplaySnoc(lambda, theta0, history, s, L);
      var phiTP := ComputePhiTP(features);
      var k := ComputeGain(features, phiTP);
      var errVal := ComputeError(features, y);
      Correct(k, errVal);
      DowndateCovariance(k, phiTP);
      history := history + [s];
      SameAsStep(lambda, L, s, k[..], phiTP[..], errVal, State());
    }

    /** The products phi^T P, summed down the columns. */
    method ComputePhiTP(features: Vec) returns (phiTP: array<real>)
      requires IsSquare(p) && |features| == N && SelfAdjoint(Rows(p), N)
      ensures fresh(phiTP) && phiTP.Length == N && phiTP[..] == Apply(Rows(p), features)
    {
      hide Sum6, Dot;
      phiTP := new real[N];
      for i := 0 to N
        modifies phiTP
        invariant forall j :: 0 <= j < i ==> phiTP[j] == Dot(Row(p, j), features)
      {
        phiTP[i] := Sum6(features, Column(p, i));
        ColumnIsRow(p, i);
        Dot6(features, Row(p, i));
      }
      assert phiTP[..] == Apply(Rows(p), features);
    }

    /** The gain vector k, summed along the rows. */
    method ComputeGain(features: Vec, phiTP: array<real>) returns (k: array<real>)
      requires params.Length == N && IsSquare(p) && |features| == N && phiTP.Length == N
      requires phiTP[..] == Apply(Rows(p), features)
      requires Denominator(lambda, State(), features) != 0.0
      ensures fresh(k) && k.Length == N && k[..] == Gain(lambda, State(), features)
    {
      hide Sum6, Dot;
      k := new real[N];
      var phiTPPhi := Sum6(phiTP[..], features);
      Dot6(phiTP[..], features);
      var denominator := lambda + phiTPPhi;
      assert denominator == Denominator(lambda, State(), features);
      for i := 0 to N
        modifies k
        invariant forall j :: 0 <= j < i ==> k[j] == Apply(Rows(p), features)[j] / denominator
      {
        k[i] := Sum6(Row(p, i), features) / denominator;
        Dot6(Row(p, i), features);
      }
      assert k[..] == Gain(lambda, State(), features);
    }

    /** The prediction error of the old coefficients. */
    method ComputeError(features: Vec, y: real) returns (errVal: real)
      requires Valid() && |features| == N
      ensures errVal == Residual(State(), Sample(features, y))
    {
      hide Dot, Sum6;
      errVal := y - Sum6(features, params[..]);
      Dot6(features, params[..]);
    }

    method Correct(k: array<real>, errVal: real)
      requires params.Length == N && k.Length == N && k != params
      modifies params
      ensures forall i :: 0 <= i < N ==> params[i] == old(params[i]) + Product(k[i], errVal)
    {
      hide Product;
      params[0] := params[0] + Product(k[0], errVal);
      params[1] := params[1] + Product(k[1], errVal);
      params[2] := params[2] + Product(k[2], errVal);
      params[3] := params[3] + Product(k[3], errVal);
      params[4] := params[4] + Product(k[4], errVal);
      params[5] := params[5] + Product(k[5], errVal);
    }

    method DowndateCovariance(k: array<real>, phiTP: array<real>)
      requires IsSquare(p) && k.Length == N && phiTP.Length == N && lambda != 0.0
      modifies p
      ensures forall i, j :: 0 <= i < N && 0 <= j < N ==> p[i, j] == Downdate(old(p[i, j]), k[i], phiTP[j], lambda)
    {
      hide Downdate;
      for i := 0 to N
        invariant forall r, j :: 0 <= r < i && 0 <= j < N ==> p[r, j] == Downdate(old(p[r, j]), k[r], phiTP[j], lambda)
        invariant forall r, j :: i <= r < N && 0 <= j < N ==> p[r, j] == old(p[r, j])
      {
        p[i, 0] := Downdate(p[i, 0], k[i], phiTP[0], lambda);
        p[i, 1] := Downdate(p[i, 1], k[i], phiTP[1], lambda);
        p[i, 2] := Downdate(p[i, 2], k[i], phiTP[2], lambda);
        p[i, 3] := Downdate(p[i, 3], k[i], phiTP[3], lambda);
        p[i, 4] := Downdate(p[i, 4], k[i], phiTP[4], lambda);
        p[i, 5] := Downdate(p[i, 5], k[i], phiTP[5], lambda);
      }
    }
  }

  /** With a factor above 0 every sample can be learned, at any time. */
  lemma AlwaysLearns(r: RLS, features: Vec)
    requires r.Valid() && r.lambda > 0.0 && |features| == N
    ensures r.CanLearn(features) && r.State() == Run(r.lambda, r.theta0, r.history)
  {
    hide Run, Solves, Replay, Rows, Denominator;
    ReplayIsRun(r.lambda, r.theta0, r.history);
    RunSnoc(r.lambda, r.theta0, r.history, Sample(features, 0.0));
  }

  lemma FreshRows(p: array2<real>)
    requires IsSquare(p)
    requires forall i, j :: 0 <= i < N && 0 <= j < N ==> p[i, j] == if i == j then PRIOR_VARIANCE else 0.0
    ensures Rows(p) == Diagonal(N, PRIOR_VARIANCE)
  {
    var D := Diagonal(N, PRIOR_VARIANCE);
    forall i | 0 <= i < N
      ensures Row(p, i) == D[i]
    {
    }
    assert Rows(p) == D;
  }

  lemma SameRows(p: array2<real>, q: array2<real>)
    requires IsSquare(p) && IsSquare(q)
    requires forall i, j :: 0 <= i < N && 0 <= j < N ==> p[i, j] == q[i, j]
    ensures Rows(p) == Rows(q)
  {
    forall i | 0 <= i < N
      ensures Row(p, i) == Row(q, i)
    {
    }
  }

  /** The polynomial as the code evaluates it is the inner product with the features. */
  lemma PredictIsDot(t: Vec, input: int, cached: int, x1: real, x2: real)
    requires |t| == N && x1 == input as real && x2 == cached as real
    ensures t[0] * x1 * x1 + t[1] * x2 * x2 + t[2] * x1 * x2 + t[3] * x1 + t[4] * x2 + t[5] * 1.0 ==
            Dot(ConstructFeatures(input, cached), t)
  {
    Dot6(ConstructFeatures(input, cached), t);
    assert t[0] * x1 * x1 == (x1 * x1) * t[0] && t[1] * x2 * x2 == (x2 * x2) * t[1];
    assert t[2] * x1 * x2 == (x1 * x2) * t[2];
  }

  lemma SameAsStep(f: real, L: Learner, s: Sample, K: Vec, PHI: Vec, e: real, R: Learner)
    requires IsLearner(L, N) && IsLearner(R, N) && |s.phi| == N && f != 0.0 && Denominator(f, L, s.phi) != 0.0
    requires K == Gain(f, L, s.phi) && PHI == Apply(L.P, s.phi) && e == Residual(L, s)
    requires forall i :: 0 <= i < N ==> R.theta[i] == L.theta[i] + Product(K[i], e)
    requires forall i, j :: 0 <= i < N && 0 <= j < N ==> R.P[i][j] == Downdate(L.P[i][j], K[i], PHI[j], f)
    ensures R == Step(f, L, s)
  {
    hide Dot, Downdate, Product;
    var S := Step(f, L, s);
    forall i | 0 <= i < N
      ensures R.theta[i] == S.theta[i] && R.P[i] == S.P[i]
    {
      StepCoefficient(f, L, s, K, e, i);
      forall j | 0 <= j < N
        ensures R.P[i][j] == S.P[i][j]
      {
        StepEntry(f, L, s, K, PHI, i, j);
      }
    }
    assert R.theta == S.theta && R.P == S.P;
  }
}
