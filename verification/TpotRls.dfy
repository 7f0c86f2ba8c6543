/** The unrolled three-coefficient learner: features [x0, x1, 1], coefficients and covariance updated in place. */
module TpotRls {
  import opened LinearAlgebra
  import opened LeastSquares

  type uint64 = x: int | 0 <= x < 0x1_0000_0000_0000_0000

  const COEFF_NUM := 2
  const SIZE := COEFF_NUM + 1

  /** phi = [x0, x1, 1] */
  function Features(x: seq<uint64>): (phi: Vec)
    requires |x| == COEFF_NUM
    ensures |phi| == SIZE
  {
    [x[0] as real, x[1] as real, 1.0]
  }

  /** The starting coefficients taken from a caller's list: its first three, padded with zeros. */
  function Padded(params: seq<real>): (theta0: Vec)
    ensures |theta0| == SIZE
  {
    seq(SIZE, i requires 0 <= i => if i < |params| then params[i] else 0.0)
  }

  /** a*x + b*y + c*z, the inner product the code writes out by hand. */
  function Sum3(a: real, x: real, b: real, y: real, c: real, z: real): real {
    a * x + b * y + c * z
  }

  function Reciprocal(x: real): real
    requires x != 0.0
  {
    1.0 / x
  }

  /** The entry formula of the covariance update. */
  function Downdate(p: real, K: real, z: real, finv: real): real {
    (p - K * z) * finv
  }

  ghost function Rows(P: array2<real>): (M: Mat)
    requires P.Length0 == SIZE && P.Length1 == SIZE
    reads P
    ensures IsMat(M, SIZE) && forall i, j :: 0 <= i < SIZE && 0 <= j < SIZE ==> M[i][j] == P[i, j]
  {
    [[P[0, 0], P[0, 1], P[0, 2]], [P[1, 0], P[1, 1], P[1, 2]], [P[2, 0], P[2, 1], P[2, 2]]]
  }

  lemma Dot3(u: Vec, v: Vec)
    requires |u| == 3 && |v| == 3
    ensures Dot(u, v) == Sum3(u[0], v[0], u[1], v[1], u[2], v[2])
  {
    assert DotTo(u, v, 1) == u[0] * v[0];
    assert DotTo(u, v, 2) == DotTo(u, v, 1) + u[1] * v[1];
  }

  /** What the features are: a linear function of the two inputs and a constant. */
  lemma FeaturesAreLinear(x: seq<uint64>, theta: Vec)
    requires |x| == COEFF_NUM && |theta| == SIZE
    ensures Dot(Features(x), theta) == theta[0] * x[0] as real + theta[1] * x[1] as real + theta[2]
  {
    Dot3(Features(x), theta);
  }

  lemma FreshRows(P: array2<real>)
    requires P.Length0 == SIZE && P.Length1 == SIZE
    requires forall i, j :: 0 <= i < SIZE && 0 <= j < SIZE ==> P[i, j] == if i == j then PRIOR_VARIANCE else 0.0
    ensures Rows(P) == Diagonal(SIZE, PRIOR_VARIANCE)
  {
    var D := Diagonal(SIZE, PRIOR_VARIANCE);
    forall i | 0 <= i < SIZE
      ensures Rows(P)[i] == D[i]
    {
      assert |D[i]| == SIZE && forall j :: 0 <= j < SIZE ==> Rows(P)[i][j] == D[i][j];
    }
  }

  // ---------- the unrolled step against `Step` ----------

  /** The three sums PHI0, PHI1, PHI2 and the denominator are those of the matrix form. */
  lemma GainUnrolled(f: real, L: Learner, phi: Vec, PHI0: real, PHI1: real, PHI2: real, den: real)
    requires IsLearner(L, SIZE) && |phi| == SIZE
    requires PHI0 == Sum3(L.P[0][0], phi[0], L.P[0][1], phi[1], L.P[0][2], phi[2])
    requires PHI1 == Sum3(L.P[1][0], phi[0], L.P[1][1], phi[1], L.P[1][2], phi[2])
    requires PHI2 == Sum3(L.P[2][0], phi[0], L.P[2][1], phi[1], L.P[2][2], phi[2])
    requires den == f + Sum3(phi[0], PHI0, phi[1], PHI1, phi[2], PHI2)
    ensures Apply(L.P, phi) == [PHI0, PHI1, PHI2]
    ensures den == Denominator(f, L, phi)
  {
    hide Dot, Sum3;
    Dot3(L.P[0], phi);
    Dot3(L.P[1], phi);
    Dot3(L.P[2], phi);
    assert Apply(L.P, phi) == [PHI0, PHI1, PHI2];
    Dot3(phi, [PHI0, PHI1, PHI2]);
  }

  lemma ResidualUnrolled(L: Learner, s: Sample, yPred: real)
    requires |L.theta| == SIZE && |s.phi| == SIZE
    requires yPred == Sum3(s.phi[0], L.theta[0], s.phi[1], L.theta[1], s.phi[2], L.theta[2])
    ensures s.y - yPred == Residual(L, s)
  {
    hide Dot, Sum3;
    Dot3(s.phi, L.theta);
  }

  lemma TimesReciprocal(den: real, x: real, inv: real)
    requires den != 0.0 && inv == 1.0 / den
    ensures x * inv == x / den
  {
    var q := x / den;
    assert q * den == x && inv * den == 1.0;
    assert q * (inv * den) == (q * den) * inv;
  }

  /** One entry of the updated covariance. */
  lemma StepEntry(f: real, L: Learner, s: Sample, i: nat, j: nat, x: real, z: real, den: real, inv: real, K: real)
    requires IsLearner(L, SIZE) && |s.phi| == SIZE && i < SIZE && j < SIZE && f > 0.0
    requires den == Denominator(f, L, s.phi) && den != 0.0 && inv == 1.0 / den
    requires x == Apply(L.P, s.phi)[i] && z == Apply(L.P, s.phi)[j] && K == x * inv
    ensures Downdate(L.P[i][j], K, z, 1.0 / f) == Step(f, L, s).P[i][j]
  {
    hide Dot, Lin, Product;
    TimesReciprocal(den, x, inv);
    var (G, PHI) := (Gain(f, L, s.phi), Apply(L.P, s.phi));
    assert G[i] == K;
    DowndateScalars(f, L.P[i][j], G[i], PHI[j], 1.0 / f, -1.0 / f);
  }

  /** One updated coefficient. */
  lemma StepCoefficient(f: real, L: Learner, s: Sample, i: nat, x: real, den: real, inv: real, K: real, e: real, r: real)
    requires IsLearner(L, SIZE) && |s.phi| == SIZE && i < SIZE && f > 0.0
    requires den == Denominator(f, L, s.phi) && den != 0.0 && inv == 1.0 / den
    requires x == Apply(L.P, s.phi)[i] && K == x * inv
    requires e == Residual(L, s) && r == L.theta[i] + K * e
    ensures r == Step(f, L, s).theta[i]
  {
    hide Dot;
    TimesReciprocal(den, x, inv);
    assert Gain(f, L, s.phi)[i] == K;
  }

  /** Nine entries and three coefficients written by hand are one `Step`. */
  lemma StepUnrolled(f: real, L: Learner, s: Sample, den: real, inv: real, finv: real, e: real,
                     PHI0: real, PHI1: real, PHI2: real, K0: real, K1: real, K2: real,
                     t0: real, t1: real, t2: real,
                     r00: real, r01: real, r02: real, r10: real, r11: real, r12: real, r20: real, r21: real, r22: real)
    requires IsLearner(L, SIZE) && |s.phi| == SIZE && f > 0.0
    requires den == Denominator(f, L, s.phi) && den != 0.0 && inv == Reciprocal(den) && finv == Reciprocal(f)
    requires Apply(L.P, s.phi) == [PHI0, PHI1, PHI2] && e == Residual(L, s)
    requires K0 == Product(PHI0, inv) && K1 == Product(PHI1, inv) && K2 == Product(PHI2, inv)
    requires t0 == L.theta[0] + Product(K0, e) && t1 == L.theta[1] + Product(K1, e) && t2 == L.theta[2] + Product(K2, e)
    requires r00 == Downdate(L.P[0][0], K0, PHI0, finv) && r01 == Downdate(L.P[0][1], K0, PHI1, finv)
    requires r02 == Downdate(L.P[0][2], K0, PHI2, finv)
    requires r10 == Downdate(L.P[1][0], K1, PHI0, finv) && r11 == Downdate(L.P[1][1], K1, PHI1, finv)
    requires r12 == Downdate(L.P[1][2], K1, PHI2, finv)
    requires r20 == Downdate(L.P[2][0], K2, PHI0, finv) && r21 == Downdate(L.P[2][1], K2, PHI1, finv)
    requires r22 == Downdate(L.P[2][2], K2, PHI2, finv)
    ensures var S := Step(f, L, s);
            && S.theta[0] == t0 && S.theta[1] == t1 && S.theta[2] == t2
            && S.P[0][0] == r00 && S.P[0][1] == r01 && S.P[0][2] == r02
            && S.P[1][0] == r10 && S.P[1][1] == r11 && S.P[1][2] == r12
            && S.P[2][0] == r20 && S.P[2][1] == r21 && S.P[2][2] == r22
  {
    hide Dot, Downdate;
    StepCoefficient(f, L, s, 0, PHI0, den, inv, K0, e, t0);
    StepCoefficient(f, L, s, 1, PHI1, den, inv, K1, e, t1);
    StepCoefficient(f, L, s, 2, PHI2, den, inv, K2, e, t2);
    StepEntry(f, L, s, 0, 0, PHI0, PHI0, den, inv, K0);
    StepEntry(f, L, s, 0, 1, PHI0, PHI1, den, inv, K0);
    StepEntry(f, L, s, 0, 2, PHI0, PHI2, den, inv, K0);
    StepEntry(f, L, s, 1, 0, PHI1, PHI0, den, inv, K1);
    StepEntry(f, L, s, 1, 1, PHI1, PHI1, den, inv, K1);
    StepEntry(f, L, s, 1, 2, PHI1, PHI2, den, inv, K1);
    StepEntry(f, L, s, 2, 0, PHI2, PHI0, den, inv, K2);
    StepEntry(f, L, s, 2, 1, PHI2, PHI1, den, inv, K2);
    StepEntry(f, L, s, 2, 2, PHI2, PHI2, den, inv, K2);
  }

  lemma SameLearner(theta: Vec, M: Mat, S: Learner)
    requires |theta| == SIZE && IsMat(M, SIZE) && IsLearner(S, SIZE)
    requires theta[0] == S.theta[0] && theta[1] == S.theta[1] && theta[2] == S.theta[2]
    requires M[0][0] == S.P[0][0] && M[0][1] == S.P[0][1] && M[0][2] == S.P[0][2]
    requires M[1][0] == S.P[1][0] && M[1][1] == S.P[1][1] && M[1][2] == S.P[1][2]
    requires M[2][0] == S.P[2][0] && M[2][1] == S.P[2][1] && M[2][2] == S.P[2][2]
    ensures Learner(theta, M) == S
  {
    assert M[0] == S.P[0] && M[1] == S.P[1] && M[2] == S.P[2];
    assert theta == S.theta && M == S.P;
  }

  class TpotRecursiveLeastSquares {
    const theta: array<real>
    const P: array2<real>
    const forget: real
    ghost const theta0: Vec
    ghost var history: seq<Sample>

    /** The abstract learner held in the two arrays. */
    ghost function State(): Learner
      requires theta.Length == SIZE && P.Length0 == SIZE && P.Length1 == SIZE
      reads theta, P
    {
      Learner(theta[..], Rows(P))
    }

    /** The arrays hold exactly what the recursion makes of the recorded history. */
    ghost predicate Valid()
      reads this, theta, P
    {
      && theta.Length == SIZE && P.Length0 == SIZE && P.Length1 == SIZE
      && 0.0 < forget <= 1.0 && |theta0| == SIZE && IsHistory(history, SIZE)
      && State() == Run(forget, theta0, history)
    }

    constructor (f: real)
      ensures Valid() && fresh(theta) && fresh(P)
      ensures forget == (if f <= 0.0 || f > 1.0 then 1.0 else f)
      ensures theta0 == Zero(SIZE) && history == []
    {
      hide Run, Solves, Diagonal, Rows;
      forget := if f <= 0.0 || f > 1.0 then 1.0 else f;
      theta := new real[SIZE](_ => 0.0);
      P := new real[SIZE, SIZE]((i, j) => if i == j then 1000000.0 else 0.0);
      theta0 := Zero(SIZE);
      history := [];
      new;
      assert theta[..] == theta0;
      FreshRows(P);
      RunOfNothing(forget, theta0);
    }

    constructor WithParams(params: seq<real>)
      ensures Valid() && fresh(theta) && fresh(P)
      ensures forget == 1.0 && theta0 == Padded(params) && history == []
      ensures forall i :: 0 <= i < SIZE ==> theta[i] == if i < |params| then params[i] else 0.0
    {
      hide Run, Solves, Diagonal, Rows;
      forget := 1.0;
      theta := new real[SIZE](i requires 0 <= i => if i < |params| then params[i] else 0.0);
      P := new real[SIZE, SIZE]((i, j) => if i == j then 1000000.0 else 0.0);
      theta0 := Padded(params);
      history := [];
      new;
      assert theta[..] == theta0;
      FreshRows(P);
      RunOfNothing(forget, theta0);
    }

    constructor CopyOf(r: TpotRecursiveLeastSquares)
      requires r.Valid()
      ensures Valid() && fresh(theta) && fresh(P)
      ensures forget == r.forget && theta0 == r.theta0 && history == r.history
    {
      forget := r.forget;
      theta := new real[SIZE](i requires 0 <= i < SIZE reads r.theta => r.theta[i]);
      P := new real[SIZE, SIZE]((i, j) requires 0 <= i < SIZE && 0 <= j < SIZE reads r.P => r.P[i, j]);
      theta0 := r.theta0;
      history := r.history;
      new;
      assert theta[..] == r.theta[..];
      assert Rows(P) == Rows(r.P);
    }

    /** A copy that shares nothing with the original: its arrays are new. */
    method Clone() returns (c: TpotRecursiveLeastSquares)
      requires Valid()
      ensures c.Valid() && fresh(c) && fresh(c.theta) && fresh(c.P)
      ensures c.forget == forget && c.theta0 == theta0 && c.history == history
    {
      c := new TpotRecursiveLeastSquares.CopyOf(this);
    }

    /** Overwrites the covariance, entry by entry. */
    method StoreCovariance(r00: real, r01: real, r02: real, r10: real, r11: real, r12: real,
                           r20: real, r21: real, r22: real)
      requires P.Length0 == SIZE && P.Length1 == SIZE
      modifies P
      ensures P[0, 0] == r00 && P[0, 1] == r01 && P[0, 2] == r02
      ensures P[1, 0] == r10 && P[1, 1] == r11 && P[1, 2] == r12
      ensures P[2, 0] == r20 && P[2, 1] == r21 && P[2, 2] == r22
    {
      P[0, 0], P[0, 1], P[0, 2] := r00, r01, r02;
      P[1, 0], P[1, 1], P[1, 2] := r10, r11, r12;
      P[2, 0], P[2, 1], P[2, 2] := r20, r21, r22;
    }

    method Update(x: seq<uint64>, y: real)
      requires Valid()
      modifies this`history, theta, P
      ensures Valid()
      ensures history == if |x| == COEFF_NUM then old(history) + [Sample(Features(x), y)] else old(history)
    {
      if |x| != COEFF_NUM {
        return;
      }
      hide Dot, Solves, Run, Step, Denominator, Residual, Sum3, Downdate, Product, Reciprocal, Rows;
      ghost var L := State();
      ghost var s := Sample(Features(x), y);
      var phi0 := x[0] as real;
      var phi1 := x[1] as real;
      var phi2 := 1.0;

      var P00, P01, P02 := P[0, 0], P[0, 1], P[0, 2];
      var P10, P11, P12 := P[1, 0], P[1, 1], P[1, 2];
      var P20, P21, P22 := P[2, 0], P[2, 1], P[2, 2];

      var PHI0 := Sum3(P00, phi0, P01, phi1, P02, phi2);
      var PHI1 := Sum3(P10, phi0, P11, phi1, P12, phi2);
      var PHI2 := Sum3(P20, phi0, P21, phi1, P22, phi2);

      var den := forget + Sum3(phi0, PHI0, phi1, PHI1, phi2, PHI2);
      GainUnrolled(forget, L, s.phi, PHI0, PHI1, PHI2, den);
      RunSnoc(forget, theta0, history, s);
      var invDen := Reciprocal(den);

      var K0, K1, K2 := Product(PHI0, invDen), Product(PHI1, invDen), Product(PHI2, invDen);

      var yPred := Sum3(phi0, theta[0], phi1, theta[1], phi2, theta[2]);
      var e := y - yPred;
      ResidualUnrolled(L, s, yPred);

      var t0, t1, t2 := theta[0] + Product(K0, e), theta[1] + Product(K1, e), theta[2] + Product(K2, e);

      var finv := Reciprocal(forget);
      var r00, r01, r02 :=
        Downdate(P00, K0, PHI0, finv), Downdate(P01, K0, PHI1, finv), Downdate(P02, K0, PHI2, finv);
      var r10, r11, r12 :=
        Downdate(P10, K1, PHI0, finv), Downdate(P11, K1, PHI1, finv), Downdate(P12, K1, PHI2, finv);
      var r20, r21, r22 :=
        Downdate(P20, K2, PHI0, finv), Downdate(P21, K2, PHI1, finv), Downdate(P22, K2, PHI2, finv);
      StepUnrolled(forget, L, s, den, invDen, finv, e, PHI0, PHI1, PHI2, K0, K1, K2, t0, t1, t2,
                   r00, r01, r02, r10, r11, r12, r20, r21, r22);

      Store(t0, t1, t2, r00, r01, r02, r10, r11, r12, r20, r21, r22, s, Step(forget, L, s));
    }

    /** Overwrites the coefficients and the covariance with one step's results. */
    method Store(t0: real, t1: real, t2: real,
                 r00: real, r01: real, r02: real, r10: real, r11: real, r12: real, r20: real, r21: real, r22: real,
                 ghost s: Sample, ghost S: Learner)
      requires theta.Length == SIZE && P.Length0 == SIZE && P.Length1 == SIZE
      requires 0.0 < forget <= 1.0 && |theta0| == SIZE && IsHistory(history + [s], SIZE)
      requires IsLearner(S, SIZE) && S == Run(forget, theta0, history + [s])
      requires S.theta[0] == t0 && S.theta[1] == t1 && S.theta[2] == t2
      requires S.P[0][0] == r00 && S.P[0][1] == r01 && S.P[0][2] == r02
      requires S.P[1][0] == r10 && S.P[1][1] == r11 && S.P[1][2] == r12
      requires S.P[2][0] == r20 && S.P[2][1] == r21 && S.P[2][2] == r22
      modifies this`history, theta, P
      ensures Valid() && history == old(history) + [s]
    {
      hide Dot, Solves, Run, Rows, IsMat;
      theta[0], theta[1], theta[2] := t0, t1, t2;
      StoreCovariance(r00, r01, r02, r10, r11, r12, r20, r21, r22);
      history := history + [s];
      SameLearner(theta[..], Rows(P), S);
    }

    /** The predicted value, or -1 when the input has the wrong length. */
    method Predict(x: seq<uint64>) returns (r: real)
      requires Valid()
      ensures r == if |x| == COEFF_NUM then Dot(Features(x), Run(forget, theta0, history).theta) else -1.0
      ensures |x| == COEFF_NUM ==>
                var t := Run(forget, theta0, history).theta;
                r == t[0] * x[0] as real + t[1] * x[1] as real + t[2]
    {
      if |x| != COEFF_NUM {
        return -1.0;
      }
      FeaturesAreLinear(x, theta[..]);
      Dot3(Features(x), theta[..]);
      r := Sum3(x[0] as real, theta[0], x[1] as real, theta[1], 1.0, theta[2]);
    }

    /** The coefficients, in a new array. */
    method Params() returns (out: array<real>)
      requires Valid()
      ensures fresh(out) && out[..] == Run(forget, theta0, history).theta
    {
      out := new real[SIZE](i requires 0 <= i < SIZE reads theta => theta[i]);
      assert out[..] == theta[..];
    }
  }
}
