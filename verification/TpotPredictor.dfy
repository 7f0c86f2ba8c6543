/** One three-coefficient learner per batch-size segment. */
module TpotPredictor {
  import opened LinearAlgebra
  import opened LeastSquares
  import opened Regression
  import opened TpotRls

  datatype Result<T> = Ok(value: T) | InvalidThreshOrder

  datatype Observation = Observation(batchsize: uint64, totalTokenNum: uint64, y: real)

  // ---------- segments ----------

  predicate Ascending(thresh: seq<uint64>) {
    forall i :: 0 < i < |thresh| ==> thresh[i - 1] < thresh[i]
  }

  /** The first threshold above the batch size; past the last one, one more than the last index.
      With no thresholds at all the answer is 1. */
  function SegmentFrom(thresh: seq<uint64>, batchsize: uint64, k: nat): (seg: nat)
    requires k <= |thresh|
    decreases |thresh| - k
  {
    if k == |thresh| then (if k == 0 then 1 else k)
    else if batchsize < thresh[k] then k
    else SegmentFrom(thresh, batchsize, k + 1)
  }

  function SegmentOf(thresh: seq<uint64>, batchsize: uint64): nat {
    SegmentFrom(thresh, batchsize, 0)
  }

  /** A segment always has a learner exactly when there is at least one threshold. */
  lemma {:induction false} SegmentHasLearnerIff(thresh: seq<uint64>, batchsize: uint64)
    ensures SegmentOf(thresh, batchsize) < |thresh| + 1 <==> thresh != []
  {
    SegmentFromBounds(thresh, batchsize, 0);
  }

  lemma {:induction false} SegmentFromBounds(thresh: seq<uint64>, batchsize: uint64, k: nat)
    requires k <= |thresh|
    ensures var seg := SegmentFrom(thresh, batchsize, k);
            && (thresh == [] ==> seg == 1)
            && (thresh != [] ==> k <= seg <= |thresh|)
            && (thresh != [] && seg < |thresh| ==> batchsize < thresh[seg])
            && (forall i :: k <= i < seg && i < |thresh| ==> thresh[i] <= batchsize)
    decreases |thresh| - k
  {
    if k < |thresh| && thresh[k] <= batchsize {
      SegmentFromBounds(thresh, batchsize, k + 1);
    }
  }

  lemma {:induction false} AscendingPairs(thresh: seq<uint64>, i: nat, j: nat)
    requires Ascending(thresh) && i < j < |thresh|
    ensures thresh[i] < thresh[j]
  {
    if i + 1 < j {
      AscendingPairs(thresh, i, j - 1);
    }
  }

  /** With ascending thresholds the segments are the half-open intervals [0,t0), [t0,t1), ..., [t_last, inf). */
  lemma SegmentsAreIntervals(thresh: seq<uint64>, batchsize: uint64, seg: nat)
    requires Ascending(thresh) && thresh != [] && seg <= |thresh|
    ensures SegmentOf(thresh, batchsize) == seg <==>
            (seg == 0 || thresh[seg - 1] <= batchsize) && (seg == |thresh| || batchsize < thresh[seg])
  {
    SegmentFromBounds(thresh, batchsize, 0);
    var s := SegmentOf(thresh, batchsize);
    if s < seg && s < seg - 1 {
      AscendingPairs(thresh, s, seg - 1);
    } else if seg < s && seg < s - 1 {
      AscendingPairs(thresh, seg, s - 1);
    }
  }

  /** The part of a training history that falls into one segment, as regression samples, in order. */
  ghost function InSegment(thresh: seq<uint64>, h: seq<Observation>, seg: nat): (r: seq<Sample>)
    ensures IsHistory(r, SIZE)
  {
    if h == [] then []
    else
      var (older, o) := (InSegment(thresh, h[..|h| - 1], seg), h[|h| - 1]);
      if SegmentOf(thresh, o.batchsize) == seg
      then older + [Sample(Features([o.batchsize, o.totalTokenNum]), o.y)]
      else older
  }

  // ---------- the regression of a segment, over the raw observations ----------

  function Linear(w: Vec, o: Observation): real
    requires |w| == SIZE
  {
    w[0] * o.batchsize as real + w[1] * o.totalTokenNum as real + w[2]
  }

  /** The squared errors of w on the observations whose batch size lies in the segment. */
  ghost function SquaredErrors(thresh: seq<uint64>, h: seq<Observation>, seg: nat, w: Vec): real
    requires |w| == SIZE
  {
    if h == [] then 0.0
    else
      var o := h[|h| - 1];
      SquaredErrors(thresh, h[..|h| - 1], seg, w) +
      (if SegmentOf(thresh, o.batchsize) == seg then Square(o.y - Linear(w, o)) else 0.0)
  }

  ghost function SegmentCost(thresh: seq<uint64>, h: seq<Observation>, seg: nat, theta0: Vec, w: Vec): real
    requires |w| == SIZE && |theta0| == SIZE
  {
    0.000001 * (Square(w[0] - theta0[0]) + Square(w[1] - theta0[1]) + Square(w[2] - theta0[2])) +
    SquaredErrors(thresh, h, seg, w)
  }

  lemma {:induction false} PowOne(k: nat)
    ensures Pow(1.0, k) == 1.0
  {
    if k > 0 {
      PowOne(k - 1);
    }
  }

  lemma CostOfNothing(theta0: Vec, w: Vec)
    requires |w| == SIZE && |theta0| == SIZE
    ensures Cost(1.0, theta0, [], w) ==
            0.000001 * (Square(w[0] - theta0[0]) + Square(w[1] - theta0[1]) + Square(w[2] - theta0[2]))
  {
    var u := Sub(w, theta0);
    Dot3(u, u);
    assert u[0] == w[0] - theta0[0] && u[1] == w[1] - theta0[1] && u[2] == w[2] - theta0[2];
  }

  /** The learner's regression is the one the raw observations pose. */
  lemma {:induction false} SegmentCostIsCost(thresh: seq<uint64>, h: seq<Observation>, seg: nat, theta0: Vec, w: Vec)
    requires |w| == SIZE && |theta0| == SIZE
    ensures Cost(1.0, theta0, InSegment(thresh, h, seg), w) == SegmentCost(thresh, h, seg, theta0, w)
    decreases |h|
  {
    hide Cost, Square, Dot, Features;
    if h == [] {
      CostOfNothing(theta0, w);
    } else {
      var (older, o) := (h[..|h| - 1], h[|h| - 1]);
      SegmentCostIsCost(thresh, older, seg, theta0, w);
      if SegmentOf(thresh, o.batchsize) == seg {
        var x := [o.batchsize, o.totalTokenNum];
        FeaturesAreLinear(x, w);
        CostSnoc(1.0, theta0, InSegment(thresh, older, seg), Sample(Features(x), o.y), w);
      }
    }
  }

  /** The coefficients behind a segment's predictions are the one and only minimiser of that regression. */
  lemma SegmentMinimises(thresh: seq<uint64>, h: seq<Observation>, seg: nat, theta0: Vec, theta: Vec, w: Vec)
    requires |w| == SIZE && |theta0| == SIZE && theta == Run(1.0, theta0, InSegment(thresh, h, seg)).theta
    ensures |theta| == SIZE
    ensures w != theta ==> SegmentCost(thresh, h, seg, theta0, w) > SegmentCost(thresh, h, seg, theta0, theta)
  {
    hide Cost, Run, SegmentCost;
    var samples := InSegment(thresh, h, seg);
    RunMinimisesCost(1.0, theta0, samples, theta, w, Sub(w, theta));
    SegmentCostIsCost(thresh, h, seg, theta0, w);
    SegmentCostIsCost(thresh, h, seg, theta0, theta);
  }

  method ValidateThresh(thresh: seq<uint64>) returns (ok: bool)
    ensures ok <==> Ascending(thresh)
  {
    var i := 1;
    while i < |thresh|
      invariant 1 <= i && forall j :: 0 < j < i && j < |thresh| ==> thresh[j - 1] < thresh[j]
    {
      if thresh[i] <= thresh[i - 1] {
        return false;
      }
      i := i + 1;
    }
    return true;
  }

  // ---------- the predictor ----------

  /** The objects a learner owns. */
  ghost function Owned(r: TpotRecursiveLeastSquares): set<object> {
    {r, r.theta, r.P}
  }

  /** Distinct learners share no object, and everything they own lies in `owned`. */
  ghost predicate Separate(rls: seq<TpotRecursiveLeastSquares>, owned: set<object>) {
    && (forall i :: 0 <= i < |rls| ==> Owned(rls[i]) <= owned)
    && (forall i, j :: 0 <= i < |rls| && 0 <= j < |rls| && i != j ==> Owned(rls[i]) !! Owned(rls[j]))
  }

  /** Learner i has been trained on exactly the part of the history in segment i. */
  ghost predicate Trained(rls: seq<TpotRecursiveLeastSquares>, owned: set<object>,
                          thresh: seq<uint64>, history: seq<Observation>)
    requires Separate(rls, owned)
    reads owned
  {
    forall i :: 0 <= i < |rls| ==>
      assert Owned(rls[i]) <= owned;
      rls[i].Valid() && rls[i].forget == 1.0 && rls[i].history == InSegment(thresh, history, i)
  }

  class TpotPredictionImpl {
    const thresh: seq<uint64>
    const rls: seq<TpotRecursiveLeastSquares>
    ghost const owned: set<object>
    ghost var history: seq<Observation>

    ghost predicate Valid()
      reads this, owned
    {
      && Ascending(thresh) && |rls| == |thresh| + 1
      && Separate(rls, owned) && this !in owned
      && Trained(rls, owned, thresh, history)
    }

    constructor (thresh: seq<uint64>, rls: seq<TpotRecursiveLeastSquares>,
                 ghost owned: set<object>, ghost history: seq<Observation>)
      requires Ascending(thresh) && |rls| == |thresh| + 1
      requires Separate(rls, owned) && Trained(rls, owned, thresh, history)
      ensures Valid()
      ensures this.thresh == thresh && this.rls == rls && this.owned == owned && this.history == history
    {
      this.thresh := thresh;
      this.rls := rls;
      this.owned := owned;
      this.history := history;
    }

    method Segment(batchsize: uint64) returns (idx: nat)
      ensures idx == SegmentOf(thresh, batchsize)
    {
      idx := 0;
      for i := 0 to |thresh|
        invariant idx == if i == 0 then 0 else i - 1
        invariant SegmentOf(thresh, batchsize) == SegmentFrom(thresh, batchsize, i)
      {
        idx := i;
        if batchsize < thresh[idx] {
          return idx;
        }
      }
      return idx + 1;
    }

    method Train(batchsize: uint64, totalTokenNum: uint64, y: real)
      requires Valid() && thresh != []
      modifies this`history, owned
      ensures Valid() && history == old(history) + [Observation(batchsize, totalTokenNum, y)]
    {
      hide Run, Solves, Rows;
      var seg := Segment(batchsize);
      SegmentHasLearnerIff(thresh, batchsize);
      assert Owned(rls[seg]) <= owned;
      rls[seg].Update([batchsize, totalTokenNum], y);
      history := history + [Observation(batchsize, totalTokenNum, y)];
      assert history[..|history| - 1] == old(history);
      forall i | 0 <= i < |rls|
        ensures rls[i].Valid() && rls[i].history == InSegment(thresh, history, i)
      {
        if i != seg {
          assert Owned(rls[i]) !! Owned(rls[seg]);
          assert rls[i].history == old(rls[i].history);
        }
      }
    }

    /** The prediction of the learner that owns the batch size's segment, read off its coefficients. */
    ghost function Prediction(batchsize: uint64, totalTokenNum: uint64): real
      requires Valid() && thresh != []
      reads this, owned
    {
      hide Run, Solves, Rows;
      SegmentHasLearnerIff(thresh, batchsize);
      var seg := SegmentOf(thresh, batchsize);
      assert Owned(rls[seg]) <= owned && rls[seg].Valid();
      Dot(Features([batchsize, totalTokenNum]), rls[seg].theta[..])
    }

    /** The prediction is that of a single learner trained on nothing but the samples of the queried segment. */
    method Predict(batchsize: uint64, totalTokenNum: uint64) returns (r: real)
      requires Valid() && thresh != []
      ensures r == Prediction(batchsize, totalTokenNum)
      ensures SegmentOf(thresh, batchsize) < |rls|
      ensures var seg := SegmentOf(thresh, batchsize);
              var alone := Run(1.0, rls[seg].theta0, InSegment(thresh, history, seg));
              && r == Dot(Features([batchsize, totalTokenNum]), alone.theta)
              && r == alone.theta[0] * batchsize as real + alone.theta[1] * totalTokenNum as real + alone.theta[2]
              && forall w: Vec :: |w| == SIZE && w != alone.theta ==>
                   SegmentCost(thresh, history, seg, rls[seg].theta0, w) >
                   SegmentCost(thresh, history, seg, rls[seg].theta0, alone.theta)
    {
      hide Run, Solves, Rows, Dot, SegmentCost;
      var seg := Segment(batchsize);
      SegmentHasLearnerIff(thresh, batchsize);
      assert Owned(rls[seg]) <= owned;
      r := rls[seg].Predict([batchsize, totalTokenNum]);
      ghost var alone := Run(1.0, rls[seg].theta0, InSegment(thresh, history, seg));
      forall w: Vec | |w| == SIZE && w != alone.theta
        ensures SegmentCost(thresh, history, seg, rls[seg].theta0, w) >
                SegmentCost(thresh, history, seg, rls[seg].theta0, alone.theta)
      {
        SegmentMinimises(thresh, history, seg, rls[seg].theta0, alone.theta, w);
      }
    }

    /** A predictor with the same history whose learners and arrays are all new. */
    method Clone() returns (c: TpotPredictionImpl)
      requires Valid()
      ensures c.Valid() && fresh(c) && fresh(c.owned)
      ensures c.thresh == thresh && c.history == history && SameCoefficients(c, this)
    {
      hide Run, Solves, Rows;
      var copies: seq<TpotRecursiveLeastSquares> := [];
      ghost var made: set<object> := {};
      for i := 0 to |rls|
        invariant |copies| == i && Separate(copies, made) && fresh(made)
        invariant forall j :: 0 <= j < i ==>
                    Owned(copies[j]) <= made && copies[j].Valid() && copies[j].forget == 1.0 &&
                    copies[j].history == rls[j].history && copies[j].theta0 == rls[j].theta0
      {
        assert Owned(rls[i]) <= owned;
        var copy := rls[i].Clone();
        copies := copies + [copy];
        made := made + Owned(copy);
      }
      c := new TpotPredictionImpl(thresh, copies, made, history);
    }

    /** The coefficients of all learners. */
    method Params() returns (m: seq<seq<real>>)
      requires Valid()
      ensures |m| == |rls| && forall i :: 0 <= i < |rls| ==> m[i] == rls[i].theta[..]
    {
      hide Run, Solves, Rows;
      m := [];
      for i := 0 to |rls|
        invariant |m| == i && forall j :: 0 <= j < i ==> m[j] == rls[j].theta[..]
      {
        assert Owned(rls[i]) <= owned;
        var out := rls[i].Params();
        m := m + [out[..]];
      }
    }

    static method New(thresh: seq<uint64>) returns (r: Result<TpotPredictionImpl>)
      ensures r.Ok? <==> Ascending(thresh)
      ensures r.Ok? ==> fresh(r.value) && r.value.Valid() && r.value.thresh == thresh && r.value.history == []
      ensures r.Ok? ==> forall i :: 0 <= i < |r.value.rls| ==> r.value.rls[i].theta0 == Zero(SIZE)
    {
      r := NewWithParams(thresh, []);
    }

    /** Learner i starts from params[i], padded or cut to three coefficients; the others start from zero. */
    static method NewWithParams(thresh: seq<uint64>, params: seq<seq<real>>) returns (r: Result<TpotPredictionImpl>)
      ensures r.Ok? <==> Ascending(thresh)
      ensures r.Ok? ==> fresh(r.value) && r.value.Valid() && r.value.thresh == thresh && r.value.history == []
      ensures r.Ok? ==> forall i :: 0 <= i < |r.value.rls| ==>
                r.value.rls[i].theta0 == if i < |params| then Padded(params[i]) else Zero(SIZE)
    {
      hide Run, Solves, Rows;
      var ok := ValidateThresh(thresh);
      if !ok {
        return InvalidThreshOrder;
      }
      var rls: seq<TpotRecursiveLeastSquares> := [];
      ghost var made: set<object> := {};
      for i := 0 to |thresh| + 1
        invariant |rls| == i && Separate(rls, made) && fresh(made)
        invariant forall j :: 0 <= j < i ==>
                    Owned(rls[j]) <= made && rls[j].Valid() && rls[j].forget == 1.0 && rls[j].history == [] &&
                    rls[j].theta0 == if j < |params| then Padded(params[j]) else Zero(SIZE)
      {
        var learner: TpotRecursiveLeastSquares;
        if i < |params| {
          learner := new TpotRecursiveLeastSquares.WithParams(params[i]);
        } else {
          learner := new TpotRecursiveLeastSquares(1.0);
        }
        rls := rls + [learner];
        made := made + Owned(learner);
      }
      var c := new TpotPredictionImpl(thresh, rls, made, []);
      r := Ok(c);
    }
  }

  ghost predicate SameCoefficients(c: TpotPredictionImpl, p: TpotPredictionImpl)
    requires Separate(c.rls, c.owned) && Separate(p.rls, p.owned)
    reads c.owned, p.owned
  {
    |c.rls| == |p.rls| && forall i :: 0 <= i < |c.rls| ==>
      assert Owned(c.rls[i]) <= c.owned && Owned(p.rls[i]) <= p.owned;
      c.rls[i].theta[..] == p.rls[i].theta[..]
  }

  lemma SameCoefficientsSamePredictions(c: TpotPredictionImpl, p: TpotPredictionImpl, b: uint64, t: uint64)
    requires c.Valid() && p.Valid() && c.thresh == p.thresh && c.thresh != [] && SameCoefficients(c, p)
    ensures c.Prediction(b, t) == p.Prediction(b, t)
  {
    SegmentHasLearnerIff(c.thresh, b);
  }

  /** Training a clone leaves the original exactly as it was, and the other way round. */
  method CloneIsIndependent(p: TpotPredictionImpl, o: Observation, o': Observation) returns (c: TpotPredictionImpl)
    requires p.Valid() && p.thresh != []
    modifies p`history, p.owned
    ensures c.Valid() && c.history == old(p.history) + [o]
    ensures p.Valid() && p.history == old(p.history) + [o']
  {
    c := p.Clone();
    c.Train(o.batchsize, o.totalTokenNum, o.y);
    p.Train(o'.batchsize, o'.totalTokenNum, o'.y);
  }

  lemma PaddedWhole(params: seq<real>)
    requires |params| == SIZE
    ensures Padded(params) == params
  {
  }

  lemma UntrainedCoefficients(r: TpotRecursiveLeastSquares)
    requires r.Valid() && r.history == []
    ensures r.theta[..] == r.theta0
  {
    hide Rows;
  }

  /** A predictor rebuilt from another one's parameters makes the same prediction for every query. */
  method Rebuild(p: TpotPredictionImpl) returns (c: TpotPredictionImpl)
    requires p.Valid() && p.thresh != []
    ensures c.Valid() && c.history == [] && c.thresh == p.thresh
    ensures forall b, t :: c.Prediction(b, t) == p.Prediction(b, t)
  {
    hide Run, Solves, Rows, Padded;
    var m := p.Params();
    var r := TpotPredictionImpl.NewWithParams(p.thresh, m);
    c := r.value;
    forall i | 0 <= i < |c.rls|
      ensures c.rls[i].theta[..] == p.rls[i].theta[..]
    {
      assert Owned(c.rls[i]) <= c.owned && Owned(p.rls[i]) <= p.owned;
      PaddedWhole(m[i]);
      UntrainedCoefficients(c.rls[i]);
    }
    forall b, t
      ensures c.Prediction(b, t) == p.Prediction(b, t)
    {
      SameCoefficientsSamePredictions(c, p, b, t);
    }
  }
}
