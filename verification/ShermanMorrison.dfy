/** The rank-one update of a matrix and of its inverse (the Sherman-Morrison identity), in any dimension.

    Throughout, P is the inverse of A and PHI = P*phi; the updates are A' = f*A + phi*phi^T and
    P' = g*P + q*PHI*PHI^T. */
module ShermanMorrison {
  import opened LinearAlgebra

  /** The numbers of one step: d = phi.PHI, g = 1/f, k = 1/(f + d), q = -g*k. */
  datatype Scalars = Scalars(f: real, d: real, g: real, k: real, q: real) {
    ghost predicate Ok() {
      f > 0.0 && k > 0.0 && f * g == 1.0 && (f + d) * k == 1.0 && q == -(g * k)
    }
  }

  lemma MakeScalars(f: real, d: real) returns (z: Scalars)
    requires f > 0.0 && f + d >= f
    ensures z.Ok() && z.f == f && z.d == d
  {
    var (g, k) := (1.0 / f, 1.0 / (f + d));
    z := Scalars(f, d, g, k, -(g * k));
  }

  function NextA(f: real, A: Mat, phi: Vec): (R: Mat)
    requires IsMat(A, |phi|)
    ensures IsMat(R, |phi|)
  {
    RankOne(f, A, 1.0, phi, phi)
  }

  function NextP(z: Scalars, P: Mat, PHI: Vec): (R: Mat)
    requires IsMat(P, |PHI|)
    ensures IsMat(R, |PHI|)
  {
    RankOne(z.g, P, z.q, PHI, PHI)
  }

  lemma NextScalars(z: Scalars, t: real)
    requires z.Ok()
    ensures z.g * t + (z.q * t) * z.d == t * z.k
    ensures z.f * (z.q * t) + t * z.k == 0.0
    ensures z.q * (z.f * t + t * z.d) + z.g * t == 0.0
  {
    var Scalars(f, d, g, k, q) := z;
    assert g * t - (g * k * t) * d == (g * t) * (1.0 - k * d);
    assert 1.0 - k * d == f * k;
    assert (g * t) * (f * k) == (f * g) * (t * k);
    assert f * (g * k * t) == (f * g) * (t * k);
    assert (g * k) * (f * t + t * d) == (g * t) * ((f + d) * k);
  }

  /** A'(P' v) = v. */
  lemma NextRightInverse(z: Scalars, A: Mat, P: Mat, phi: Vec, PHI: Vec, v: Vec)
    requires |v| == |phi| && IsMat(A, |v|) && IsMat(P, |v|) && PHI == Apply(P, phi)
    requires z.Ok() && z.d == Dot(phi, PHI)
    requires Apply(A, Apply(P, v)) == v && Apply(A, PHI) == phi
    requires Dot(v, PHI) == Dot(phi, Apply(P, v))
    ensures Apply(NextA(z.f, A, phi), Apply(NextP(z, P, PHI), v)) == v
  {
    var t := Dot(PHI, v);
    var (c, m) := (z.q * t, t * z.k);
    var w := Comb(z.g, Apply(P, v), c, PHI);
    ApplyRankOne(z.g, P, z.q, PHI, PHI, v, c);
    ApplyComb(A, z.g, Apply(P, v), c, PHI);
    DotComb(phi, z.g, Apply(P, v), c, PHI);
    DotSym(PHI, v);
    NextScalars(z, t);
    assert Dot(phi, w) == m;
    ApplyRankOne(z.f, A, 1.0, phi, phi, w, m);
    CombFlatten(z.f, z.g, v, c, phi, m, 1.0, 0.0);
    CombOne(v, phi);
  }

  /** P'(A' v) = v. */
  lemma NextLeftInverse(z: Scalars, A: Mat, P: Mat, phi: Vec, PHI: Vec, v: Vec)
    requires |v| == |phi| && IsMat(A, |v|) && IsMat(P, |v|) && PHI == Apply(P, phi)
    requires z.Ok() && z.d == Dot(phi, PHI)
    requires Apply(P, Apply(A, v)) == v && Apply(A, PHI) == phi
    requires Dot(PHI, Apply(A, v)) == Dot(v, Apply(A, PHI))
    ensures Apply(NextP(z, P, PHI), Apply(NextA(z.f, A, phi), v)) == v
  {
    var t := Dot(phi, v);
    var w := Comb(z.f, Apply(A, v), t, phi);
    ApplyRankOne(z.f, A, 1.0, phi, phi, v, t);
    ApplyComb(P, z.f, Apply(A, v), t, phi);
    DotComb(PHI, z.f, Apply(A, v), t, phi);
    DotSym(v, phi);
    DotSym(PHI, phi);
    assert Dot(PHI, w) == z.f * t + t * z.d;
    var c := z.q * Dot(PHI, w);
    ApplyRankOne(z.g, P, z.q, PHI, PHI, w, c);
    NextScalars(z, t);
    CombFlatten(z.g, z.f, v, t, PHI, c, 1.0, 0.0);
    CombOne(v, PHI);
  }

  /** A'(theta + c*PHI) = f*b + y*phi, where b = A*theta e = y - phi.theta and c = e*k. */
  lemma NextSolution(z: Scalars, A: Mat, PHI: Vec, phi: Vec, theta: Vec, y: real, e: real, c: real)
    requires |theta| == |phi| == |PHI| && IsMat(A, |phi|)
    requires z.Ok() && z.d == Dot(phi, PHI) && Apply(A, PHI) == phi
    requires e == y - Dot(phi, theta) && c == e * z.k
    ensures Apply(NextA(z.f, A, phi), Comb(1.0, theta, c, PHI)) == Comb(z.f, Apply(A, theta), y, phi)
  {
    var (p, b) := (Dot(phi, theta), Apply(A, theta));
    var w := Comb(1.0, theta, c, PHI);
    ApplyComb(A, 1.0, theta, c, PHI);
    DotComb(phi, 1.0, theta, c, PHI);
    var m := p + c * z.d;
    ApplyRankOne(z.f, A, 1.0, phi, phi, w, m);
    assert z.f * c + c * z.d == e * ((z.f + z.d) * z.k);
    CombFlatten(z.f, 1.0, b, c, phi, m, z.f, y);
  }

  /** v . A' v = f * (v . A v) + (phi . v)^2 is positive wherever v . A v is. */
  lemma NextPositiveAt(f: real, A: Mat, phi: Vec, v: Vec)
    requires f > 0.0 && |v| == |phi| && IsMat(A, |phi|) && Dot(v, Apply(A, v)) > 0.0
    ensures Dot(v, Apply(NextA(f, A, phi), v)) > 0.0
  {
    var (q, s) := (Dot(v, Apply(A, v)), Dot(phi, v));
    DotRankOne(f, A, 1.0, phi, v, v);
    ProductPositive(f, q, f * q);
    SquarePositive(s, s * s);
  }

  lemma NextPositive(f: real, A: Mat, phi: Vec)
    requires f > 0.0 && IsMat(A, |phi|) && PositiveDefinite(A, |phi|)
    ensures PositiveDefinite(NextA(f, A, phi), |phi|)
  {
    forall v: Vec | |v| == |phi| && v != Zero(|phi|)
      ensures Dot(v, Apply(NextA(f, A, phi), v)) > 0.0
    {
      NextPositiveAt(f, A, phi, v);
    }
  }

  /** The whole step: inverse and symmetry survive. */
  lemma NextInverses(z: Scalars, A: Mat, P: Mat, phi: Vec, PHI: Vec)
    requires IsMat(A, |phi|) && IsMat(P, |phi|) && PHI == Apply(P, phi)
    requires z.Ok() && z.d == Dot(phi, PHI)
    requires SelfAdjoint(A, |phi|) && SelfAdjoint(P, |phi|) && Inverses(A, P, |phi|)
    ensures Inverses(NextA(z.f, A, phi), NextP(z, P, PHI), |phi|)
  {
    var (A', P') := (NextA(z.f, A, phi), NextP(z, P, PHI));
    forall v: Vec | |v| == |phi|
      ensures Apply(A', Apply(P', v)) == v && Apply(P', Apply(A', v)) == v
    {
      assert Dot(v, Apply(P, phi)) == Dot(phi, Apply(P, v));
      assert Dot(PHI, Apply(A, v)) == Dot(v, Apply(A, PHI));
      NextRightInverse(z, A, P, phi, PHI, v);
      NextLeftInverse(z, A, P, phi, PHI, v);
    }
  }
}
