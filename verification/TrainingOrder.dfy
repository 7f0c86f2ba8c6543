/** When the order of the training samples matters: exactly when there is forgetting. */
module TrainingOrder {
  import opened LinearAlgebra
  import opened ShermanMorrison
  import opened LeastSquares
  import opened Regression

  ghost function Sum(g: Sample -> real, h: seq<Sample>): real {
    if h == [] then 0.0 else Sum(g, h[..|h| - 1]) + g(h[|h| - 1])
  }

  ghost function Without(h: seq<Sample>, i: nat): seq<Sample>
    requires i < |h|
  {
    h[..i] + h[i + 1..]
  }

  lemma {:induction false} SumWithout(g: Sample -> real, h: seq<Sample>, i: nat)
    requires i < |h|
    ensures Sum(g, h) == Sum(g, Without(h, i)) + g(h[i])
    decreases |h|
  {
    var older := h[..|h| - 1];
    if i < |older| {
      SumWithout(g, older, i);
      assert Without(h, i)[..|h| - 2] == Without(older, i);
      assert Without(h, i)[|h| - 2] == h[|h| - 1];
    } else {
      assert Without(h, i) == older;
    }
  }

  /** A sum over the samples does not depend on their order. */
  lemma {:induction false} SumPermuted(g: Sample -> real, h: seq<Sample>, h': seq<Sample>)
    requires multiset(h) == multiset(h')
    ensures Sum(g, h) == Sum(g, h')
    decreases |h|
  {
    if h == [] {
      assert |h'| == |multiset(h')| == 0;
    } else {
      var (older, s) := (h[..|h| - 1], h[|h| - 1]);
      assert h == older + [s];
      var i := Position(h', s);
      assert multiset(older) == multiset(h) - multiset{s};
      SumPermuted(g, older, Without(h', i));
      SumWithout(g, h', i);
    }
  }

  lemma Position(h: seq<Sample>, s: Sample) returns (i: nat)
    requires s in multiset(h)
    ensures i < |h| && h[i] == s && multiset(Without(h, i)) == multiset(h) - multiset{s}
  {
    i :| 0 <= i < |h| && h[i] == s;
    assert h == h[..i] + [s] + h[i + 1..];
  }

  function Cross(r: nat, c: nat): Sample -> real {
    (s: Sample) => if r < |s.phi| && c < |s.phi| then Product(s.phi[r], s.phi[c]) else 0.0
  }

  function Target(r: nat): Sample -> real {
    (s: Sample) => if r < |s.phi| then Product(s.y, s.phi[r]) else 0.0
  }

  lemma {:induction false} InformationSum(n: nat, h: seq<Sample>, r: nat, c: nat)
    requires IsHistory(h, n) && r < n && c < n
    ensures Information(1.0, n, h)[r][c] == (if r == c then RIDGE else 0.0) + Sum(Cross(r, c), h)
    decreases |h|
  {
    if h != [] {
      var (older, s) := (h[..|h| - 1], h[|h| - 1]);
      InformationSum(n, older, r, c);
      NextAEntry(1.0, Information(1.0, n, older), s.phi, r, c);
    }
  }

  lemma {:induction false} MomentSum(theta0: Vec, h: seq<Sample>, r: nat)
    requires IsHistory(h, |theta0|) && r < |theta0|
    ensures Moment(1.0, theta0, h)[r] == Product(RIDGE, theta0[r]) + Sum(Target(r), h)
    decreases |h|
  {
    if h != [] {
      MomentSum(theta0, h[..|h| - 1], r);
    }
  }

  /** Without forgetting, all data contribute equally: any two orders of the same samples train the same learner,
      coefficients and covariance alike. */
  lemma OrderIrrelevant(theta0: Vec, h: seq<Sample>, h': seq<Sample>)
    requires IsHistory(h, |theta0|) && IsHistory(h', |theta0|)
    requires multiset(h) == multiset(h')
    ensures Run(1.0, theta0, h) == Run(1.0, theta0, h')
  {
    var n := |theta0|;
    var (A, A') := (Information(1.0, n, h), Information(1.0, n, h'));
    var (b, b') := (Moment(1.0, theta0, h), Moment(1.0, theta0, h'));
    forall r, c | 0 <= r < n && 0 <= c < n
      ensures A[r][c] == A'[r][c]
    {
      InformationSum(n, h, r, c);
      InformationSum(n, h', r, c);
      SumPermuted(Cross(r, c), h, h');
    }
    forall r | 0 <= r < n
      ensures A[r] == A'[r] && b[r] == b'[r]
    {
      MomentSum(theta0, h, r);
      MomentSum(theta0, h', r);
      SumPermuted(Target(r), h, h');
    }
    assert A == A' && b == b';
    SolutionUnique(Run(1.0, theta0, h), Run(1.0, theta0, h'), A, b, n);
  }

  lemma SolutionUnique(L: Learner, L': Learner, A: Mat, b: Vec, n: nat)
    requires Solves(L, A, b, n) && Solves(L', A, b, n)
    ensures L == L'
  {
    InverseUnique(A, L.P, L'.P, n);
    assert Apply(L.P, Apply(A, L.theta)) == L.theta;
    assert Apply(L.P, Apply(A, L'.theta)) == L'.theta;
  }

  /** Swapping the last two samples, alike in features but not in target, changes the coefficients unless f is 1. */
  lemma SwapMattersUnlessNoForgetting(f: real, theta0: Vec, h: seq<Sample>, phi: Vec, y: real, y': real)
    requires f > 0.0 && IsHistory(h, |theta0|) && |phi| == |theta0|
    requires phi != Zero(|phi|) && y != y'
    ensures var (s, s') := (Sample(phi, y), Sample(phi, y'));
            Run(f, theta0, h + [s, s']).theta == Run(f, theta0, h + [s', s]).theta <==> f == 1.0
  {
    var (s, s') := (Sample(phi, y), Sample(phi, y'));
    var (h1, h2) := (h + [s, s'], h + [s', s]);
    if f == 1.0 {
      assert multiset(h1) == multiset(h2);
      OrderIrrelevant(theta0, h1, h2);
    } else {
      SwapChangesMoment(f, theta0, h, phi, y, y');
      SwapKeepsInformation(f, |phi|, h, phi, y, y');
    }
  }

  lemma SwapKeepsInformation(f: real, n: nat, h: seq<Sample>, phi: Vec, y: real, y': real)
    requires IsHistory(h, n) && |phi| == n
    ensures var (s, s') := (Sample(phi, y), Sample(phi, y'));
            Information(f, n, h + [s, s']) == Information(f, n, h + [s', s])
  {
    var (s, s') := (Sample(phi, y), Sample(phi, y'));
    assert (h + [s, s'])[..|h| + 1] == h + [s] && (h + [s', s])[..|h| + 1] == h + [s'];
    assert (h + [s])[..|h|] == h && (h + [s'])[..|h|] == h;
  }

  lemma SwapChangesMoment(f: real, theta0: Vec, h: seq<Sample>, phi: Vec, y: real, y': real)
    requires f != 1.0 && IsHistory(h, |theta0|) && |phi| == |theta0|
    requires phi != Zero(|phi|) && y != y'
    ensures var (s, s') := (Sample(phi, y), Sample(phi, y'));
            Moment(f, theta0, h + [s, s']) != Moment(f, theta0, h + [s', s])
  {
    var (s, s') := (Sample(phi, y), Sample(phi, y'));
    assert h + [s, s'] == h + [s] + [s'] && h + [s', s] == h + [s'] + [s];
    MomentSnoc(f, theta0, h, s);
    MomentSnoc(f, theta0, h, s');
    MomentSnoc(f, theta0, h + [s], s');
    MomentSnoc(f, theta0, h + [s'], s);
    MomentsDiffer(f, Moment(f, theta0, h), y, y', phi);
  }

  lemma MomentSnoc(f: real, theta0: Vec, h: seq<Sample>, s: Sample)
    requires IsHistory(h, |theta0|) && |s.phi| == |theta0|
    ensures Moment(f, theta0, h + [s]) == Comb(f, Moment(f, theta0, h), s.y, s.phi)
  {
    assert (h + [s])[..|h|] == h;
  }

  lemma MomentsDiffer(f: real, m: Vec, y: real, y': real, phi: Vec)
    requires |m| == |phi| && phi != Zero(|phi|) && f != 1.0 && y != y'
    ensures Comb(f, Comb(f, m, y, phi), y', phi) != Comb(f, Comb(f, m, y', phi), y, phi)
  {
    hide Lin;
    var (b1, b2) := (Comb(f, Comb(f, m, y, phi), y', phi), Comb(f, Comb(f, m, y', phi), y, phi));
    var i :| 0 <= i < |phi| && phi[i] != 0.0;
    ScalarsDiffer(f, m[i], y, y', phi[i]);
    assert b1[i] != b2[i];
  }

  lemma ScalarsDiffer(f: real, m: real, y: real, y': real, x: real)
    requires f != 1.0 && y != y' && x != 0.0
    ensures Lin(f, Lin(f, m, y, x), y', x) != Lin(f, Lin(f, m, y', x), y, x)
  {
    var (p, q) := (f - 1.0, y - y');
    var pq := p * q;
    assert pq != 0.0;
    assert pq * x != 0.0;
    assert (f * (f * m + y * x) + y' * x) - (f * (f * m + y' * x) + y * x) == pq * x;
  }
}
