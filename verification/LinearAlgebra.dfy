/** Vectors and square matrices over exact reals, of any dimension.

    One linear operation per kind is enough for the learners: `Comb` (a*u + b*v) for vectors and
    `RankOne` (a*M + b*u*v^T) for matrices. */
module LinearAlgebra {

  type Vec = seq<real>
  type Mat = seq<Vec>

  // ---------- vectors ----------

  function Zero(n: nat): Vec {
    seq(n, _ => 0.0)
  }

  function Unit(n: nat, k: nat): Vec {
    seq(n, i => if i == k then 1.0 else 0.0)
  }

  function Product(x: real, y: real): real {
    x * y
  }

  /** One entry of a linear combination. Named, so that equal arguments give equal entries. */
  function Lin(a: real, x: real, b: real, y: real): real {
    a * x + b * y
  }

  /** The linear combination a*u + b*v. */
  function Comb(a: real, u: Vec, b: real, v: Vec): (w: Vec)
    requires |u| == |v|
    ensures |w| == |u| && forall i :: 0 <= i < |u| ==> w[i] == Lin(a, u[i], b, v[i])
  {
    seq(|u|, i requires 0 <= i < |u| => Lin(a, u[i], b, v[i]))
  }

  function Sub(u: Vec, v: Vec): Vec
    requires |u| == |v|
  {
    Comb(1.0, u, -1.0, v)
  }

  function DotTo(u: Vec, v: Vec, k: nat): real
    requires k <= |u| && |u| == |v|
  {
    if k == 0 then 0.0 else DotTo(u, v, k - 1) + u[k - 1] * v[k - 1]
  }

  function Dot(u: Vec, v: Vec): real
    requires |u| == |v|
  {
    DotTo(u, v, |u|)
  }

  lemma {:induction false} DotToComb(w: Vec, a: real, u: Vec, b: real, v: Vec, k: nat)
    requires |w| == |u| == |v| && k <= |w|
    ensures DotTo(w, Comb(a, u, b, v), k) == a * DotTo(w, u, k) + b * DotTo(w, v, k)
  {
    if k > 0 {
      DotToComb(w, a, u, b, v, k - 1);
      var (p, q, r) := (w[k - 1], u[k - 1], v[k - 1]);
      assert p * (a * q + b * r) == a * (p * q) + b * (p * r);
    }
  }

  /** The inner product is linear in its second argument. */
  lemma DotComb(w: Vec, a: real, u: Vec, b: real, v: Vec)
    requires |w| == |u| == |v|
    ensures Dot(w, Comb(a, u, b, v)) == a * Dot(w, u) + b * Dot(w, v)
  {
    DotToComb(w, a, u, b, v, |w|);
  }

  /** a*(p*u + q*v) + r*v = (a*p)*u + (a*q + r)*v. */
  lemma CombFlatten(a: real, p: real, u: Vec, q: real, v: Vec, r: real, m: real, n: real)
    requires |u| == |v| && m == a * p && n == a * q + r
    ensures Comb(a, Comb(p, u, q, v), r, v) == Comb(m, u, n, v)
  {
    var (x, y) := (Comb(a, Comb(p, u, q, v), r, v), Comb(m, u, n, v));
    forall i | 0 <= i < |u|
      ensures x[i] == y[i]
    {
      var (c, d) := (u[i], v[i]);
      assert a * (p * c + q * d) + r * d == (a * p) * c + (a * q + r) * d;
    }
  }

  lemma CombOne(u: Vec, v: Vec)
    requires |u| == |v|
    ensures Comb(1.0, u, 0.0, v) == u
  {
  }

  lemma {:induction false} DotToSym(u: Vec, v: Vec, k: nat)
    requires |u| == |v| && k <= |u|
    ensures DotTo(u, v, k) == DotTo(v, u, k)
  {
    if k > 0 {
      DotToSym(u, v, k - 1);
    }
  }

  lemma DotSym(u: Vec, v: Vec)
    requires |u| == |v|
    ensures Dot(u, v) == Dot(v, u)
  {
    DotToSym(u, v, |u|);
  }

  /** The inner product is linear in its first argument. */
  lemma CombDot(a: real, u: Vec, b: real, v: Vec, w: Vec)
    requires |w| == |u| == |v|
    ensures Dot(Comb(a, u, b, v), w) == a * Dot(u, w) + b * Dot(v, w)
  {
    DotSym(Comb(a, u, b, v), w);
    DotComb(w, a, u, b, v);
    DotSym(w, u);
    DotSym(w, v);
  }

  lemma {:induction false} DotToUnit(u: Vec, i: nat, k: nat)
    requires k <= |u|
    ensures DotTo(Unit(|u|, i), u, k) == if i < k then u[i] else 0.0
  {
    if k > 0 {
      DotToUnit(u, i, k - 1);
    }
  }

  lemma DotUnit(u: Vec, i: nat)
    requires i < |u|
    ensures Dot(Unit(|u|, i), u) == u[i]
    ensures Dot(u, Unit(|u|, i)) == u[i]
  {
    DotToUnit(u, i, |u|);
    DotSym(u, Unit(|u|, i));
  }

  lemma ProductPositive(x: real, y: real, product: real)
    requires product == x * y && x > 0.0 && y > 0.0
    ensures product > 0.0
  {
  }

  lemma ProductNonNegative(x: real, y: real, product: real)
    requires product == x * y && x >= 0.0 && y >= 0.0
    ensures product >= 0.0
  {
  }

  lemma SquarePositive(x: real, square: real)
    requires square == x * x
    ensures square >= 0.0
    ensures x != 0.0 ==> square > 0.0
  {
    if x > 0.0 {
      ProductPositive(x, x, square);
    } else if x < 0.0 {
      ProductPositive(-x, -x, square);
    }
  }

  lemma {:induction false} DotToSelf(u: Vec, k: nat)
    requires k <= |u|
    ensures DotTo(u, u, k) >= 0.0
    ensures DotTo(u, u, k) == 0.0 ==> forall i :: 0 <= i < k ==> u[i] == 0.0
  {
    if k > 0 {
      DotToSelf(u, k - 1);
      var x := u[k - 1];
      SquarePositive(x, x * x);
    }
  }

  /** The squared length is positive except at the zero vector. */
  lemma DotSelf(u: Vec)
    ensures Dot(u, u) >= 0.0
    ensures u != Zero(|u|) ==> Dot(u, u) > 0.0
  {
    DotToSelf(u, |u|);
    if Dot(u, u) == 0.0 {
      assert u == Zero(|u|);
    }
  }

  lemma {:induction false} DotToZero(u: Vec, k: nat)
    requires k <= |u|
    ensures DotTo(u, Zero(|u|), k) == 0.0
  {
    if k > 0 {
      DotToZero(u, k - 1);
    }
  }

  lemma SubAdd(u: Vec, v: Vec)
    requires |u| == |v|
    ensures Comb(1.0, v, 1.0, Sub(u, v)) == u
  {
  }

  lemma SubZero(u: Vec, v: Vec)
    requires |u| == |v|
    ensures Sub(u, v) == Zero(|u|) <==> u == v
  {
    if Sub(u, v) == Zero(|u|) {
      forall i | 0 <= i < |u|
        ensures u[i] == v[i]
      {
        assert Sub(u, v)[i] == 0.0;
      }
    }
  }

  // ---------- matrices ----------

  ghost predicate IsMat(M: Mat, n: nat) {
    |M| == n && forall i :: 0 <= i < n ==> |M[i]| == n
  }

  function Apply(M: Mat, v: Vec): (r: Vec)
    requires IsMat(M, |v|)
    ensures |r| == |v| && forall i :: 0 <= i < |v| ==> r[i] == Dot(M[i], v)
  {
    seq(|v|, i requires 0 <= i < |v| => Dot(M[i], v))
  }

  /** c times the identity. */
  function Diagonal(n: nat, c: real): (M: Mat)
    ensures IsMat(M, n)
  {
    seq(n, i => seq(n, j => if i == j then c else 0.0))
  }

  /** a*M + b*u*v^T. */
  function RankOne(a: real, M: Mat, b: real, u: Vec, v: Vec): (R: Mat)
    requires |u| == |v| && IsMat(M, |u|)
    ensures IsMat(R, |u|)
    ensures forall i :: 0 <= i < |u| ==> R[i] == Comb(a, M[i], Product(b, u[i]), v)
  {
    seq(|u|, i requires 0 <= i < |u| && |M[i]| == |v| => Comb(a, M[i], Product(b, u[i]), v))
  }

  lemma ApplyComb(M: Mat, a: real, u: Vec, b: real, v: Vec)
    requires |u| == |v| && IsMat(M, |u|)
    ensures Apply(M, Comb(a, u, b, v)) == Comb(a, Apply(M, u), b, Apply(M, v))
  {
    var l := Apply(M, Comb(a, u, b, v));
    var r := Comb(a, Apply(M, u), b, Apply(M, v));
    forall i | 0 <= i < |u|
      ensures l[i] == r[i]
    {
      DotComb(M[i], a, u, b, v);
    }
  }

  lemma ApplyRankOne(a: real, M: Mat, b: real, u: Vec, v: Vec, w: Vec, c: real)
    requires |u| == |v| == |w| && IsMat(M, |u|) && c == b * Dot(v, w)
    ensures Apply(RankOne(a, M, b, u, v), w) == Comb(a, Apply(M, w), c, u)
  {
    var R := RankOne(a, M, b, u, v);
    var l := Apply(R, w);
    var r := Comb(a, Apply(M, w), c, u);
    forall i | 0 <= i < |u|
      ensures l[i] == r[i]
    {
      CombDot(a, M[i], Product(b, u[i]), v, w);
      assert l[i] == Dot(Comb(a, M[i], Product(b, u[i]), v), w);
      assert (b * u[i]) * Dot(v, w) == c * u[i];
    }
  }

  lemma RankOneRescale(a: real, M: Mat, b: real, u: Vec, b': real, u': Vec, v: Vec)
    requires |u| == |u'| == |v| && IsMat(M, |u|)
    requires forall i :: 0 <= i < |u| ==> b * u[i] == b' * u'[i]
    ensures RankOne(a, M, b, u, v) == RankOne(a, M, b', u', v)
  {
    var (R, R') := (RankOne(a, M, b, u, v), RankOne(a, M, b', u', v));
    forall i | 0 <= i < |u|
      ensures R[i] == R'[i]
    {
      assert b * u[i] == b' * u'[i];
    }
  }

  lemma ApplyDiagonal(c: real, v: Vec)
    ensures Apply(Diagonal(|v|, c), v) == Comb(c, v, 0.0, v)
  {
    var D := Diagonal(|v|, c);
    forall i | 0 <= i < |v|
      ensures Dot(D[i], v) == c * v[i]
    {
      assert D[i] == Comb(c, Unit(|v|, i), 0.0, Unit(|v|, i));
      CombDot(c, Unit(|v|, i), 0.0, Unit(|v|, i), v);
      DotUnit(v, i);
    }
    assert Apply(D, v) == Comb(c, v, 0.0, v);
  }

  // ---------- operator properties ----------

  ghost predicate SelfAdjoint(M: Mat, n: nat)
    requires IsMat(M, n)
  {
    forall u: Vec, v: Vec {:trigger Apply(M, u), Apply(M, v)} ::
      |u| == n && |v| == n ==> Dot(u, Apply(M, v)) == Dot(v, Apply(M, u))
  }

  ghost predicate PositiveDefinite(M: Mat, n: nat)
    requires IsMat(M, n)
  {
    forall v: Vec {:trigger Dot(v, Apply(M, v))} :: |v| == n && v != Zero(n) ==> Dot(v, Apply(M, v)) > 0.0
  }

  /** A and B undo each other, on both sides, on every vector. */
  ghost predicate Inverses(A: Mat, B: Mat, n: nat)
    requires IsMat(A, n) && IsMat(B, n)
  {
    && (forall v: Vec {:trigger Apply(A, Apply(B, v))} :: |v| == n ==> Apply(A, Apply(B, v)) == v)
    && (forall v: Vec {:trigger Apply(B, Apply(A, v))} :: |v| == n ==> Apply(B, Apply(A, v)) == v)
  }

  lemma ApplyUnit(M: Mat, n: nat, i: nat, j: nat)
    requires IsMat(M, n) && i < n && j < n
    ensures Apply(M, Unit(n, j))[i] == M[i][j]
  {
    DotUnit(M[i], j);
  }

  /** A self-adjoint matrix is symmetric entry by entry. */
  lemma SelfAdjointSymmetric(M: Mat, n: nat, i: nat, j: nat)
    requires IsMat(M, n) && SelfAdjoint(M, n) && i < n && j < n
    ensures M[i][j] == M[j][i]
  {
    var (ei, ej) := (Unit(n, i), Unit(n, j));
    ApplyUnit(M, n, i, j);
    ApplyUnit(M, n, j, i);
    DotUnit(Apply(M, ej), i);
    DotUnit(Apply(M, ei), j);
    assert Dot(ei, Apply(M, ej)) == Dot(ej, Apply(M, ei));
  }

  /** A matrix has at most one inverse. */
  lemma InverseUnique(A: Mat, B: Mat, C: Mat, n: nat)
    requires IsMat(A, n) && IsMat(B, n) && IsMat(C, n)
    requires Inverses(A, B, n) && Inverses(A, C, n)
    ensures B == C
  {
    forall i, j | 0 <= i < n && 0 <= j < n
      ensures B[i][j] == C[i][j]
    {
      var e := Unit(n, j);
      var c := Apply(C, e);
      assert Apply(A, c) == e;
      assert Apply(B, Apply(A, c)) == c;
      ApplyUnit(B, n, i, j);
      ApplyUnit(C, n, i, j);
    }
    forall i | 0 <= i < n
      ensures B[i] == C[i]
    {
    }
  }

  lemma SelfAdjointDiagonal(n: nat, c: real)
    ensures SelfAdjoint(Diagonal(n, c), n)
  {
    var D := Diagonal(n, c);
    forall u: Vec, v: Vec | |u| == n && |v| == n
      ensures Dot(u, Apply(D, v)) == Dot(v, Apply(D, u))
    {
      ApplyDiagonal(c, u);
      ApplyDiagonal(c, v);
      DotComb(u, c, v, 0.0, v);
      DotComb(v, c, u, 0.0, u);
      DotSym(u, v);
    }
  }

  /** The bilinear form of a*M + b*u*u^T. */
  lemma DotRankOne(a: real, M: Mat, b: real, u: Vec, x: Vec, y: Vec)
    requires |u| == |x| == |y| && IsMat(M, |u|)
    ensures Dot(x, Apply(RankOne(a, M, b, u, u), y)) == a * Dot(x, Apply(M, y)) + b * (Dot(u, x) * Dot(u, y))
  {
    var (s, t) := (Dot(u, x), Dot(u, y));
    ApplyRankOne(a, M, b, u, u, y, b * t);
    DotComb(x, a, Apply(M, y), b * t, u);
    DotSym(u, x);
    assert (b * t) * s == b * (s * t);
  }

  lemma RankOneSwap(a: real, M: Mat, b: real, u: Vec, x: Vec, y: Vec)
    requires |u| == |x| == |y| && IsMat(M, |u|)
    requires Dot(x, Apply(M, y)) == Dot(y, Apply(M, x))
    ensures var R := RankOne(a, M, b, u, u); Dot(x, Apply(R, y)) == Dot(y, Apply(R, x))
  {
    DotRankOne(a, M, b, u, x, y);
    DotRankOne(a, M, b, u, y, x);
    var (s, t) := (Dot(u, x), Dot(u, y));
    assert s * t == t * s;
  }

  lemma SelfAdjointRankOne(a: real, M: Mat, b: real, u: Vec, n: nat)
    requires |u| == n && IsMat(M, n) && SelfAdjoint(M, n)
    ensures SelfAdjoint(RankOne(a, M, b, u, u), n)
  {
    var R := RankOne(a, M, b, u, u);
    forall x: Vec, y: Vec | |x| == n && |y| == n
      ensures Dot(x, Apply(R, y)) == Dot(y, Apply(R, x))
    {
      assert Dot(x, Apply(M, y)) == Dot(y, Apply(M, x));
      RankOneSwap(a, M, b, u, x, y);
    }
  }

  lemma ApplyZero(M: Mat, n: nat)
    requires IsMat(M, n)
    ensures Apply(M, Zero(n)) == Zero(n)
  {
    forall i | 0 <= i < n
      ensures Dot(M[i], Zero(n)) == 0.0
    {
      DotToZero(M[i], n);
    }
    assert Apply(M, Zero(n)) == Zero(n);
  }

  /** The inverse of a positive definite matrix is positive definite. */
  lemma InversePositiveDefinite(A: Mat, P: Mat, n: nat)
    requires IsMat(A, n) && IsMat(P, n)
    requires Inverses(A, P, n) && PositiveDefinite(A, n)
    ensures PositiveDefinite(P, n)
  {
    forall v: Vec | |v| == n && v != Zero(n)
      ensures Dot(v, Apply(P, v)) > 0.0
    {
      var w := Apply(P, v);
      assert Apply(A, w) == v;
      ApplyZero(A, n);
      assert w != Zero(n);
      DotSym(v, w);
    }
  }
}
