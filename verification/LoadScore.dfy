/** How the inference balancer turns load and cache statistics into one score for each endpoint. */
module LoadScore {
  import opened Options

  /** What the metadata centre reports of an endpoint. */
  datatype EndpointStats = EndpointStats(totalReqs: int, promptLength: int)

  datatype Weights = Weights(cache: int, request: int, prefill: int)

  const DEFAULT_WEIGHTS := Weights(2, 1, 3)

  /** Prompts shorter than this do not make the prefill load of others larger. */
  const SMALLEST_MAX_PROMPT := 1024

  type LongestPrompt = p: int | SMALLEST_MAX_PROMPT <= p witness SMALLEST_MAX_PROMPT

  /** What the scores of all endpoints are relative to. */
  datatype Spread = Spread(maxQueue: real, minQueue: real, maxPrompt: LongestPrompt)

  // ---------- the spread of a cluster ----------

  predicate Reported(load: seq<Option<EndpointStats>>, i: int) {
    0 <= i < |load| && load[i].Some?
  }

  ghost predicate HoldsQueue(load: seq<Option<EndpointStats>>, q: real) {
    exists i :: Reported(load, i) && load[i].value.totalReqs as real == q
  }

  ghost predicate HoldsPrompt(load: seq<Option<EndpointStats>>, p: int) {
    exists i :: Reported(load, i) && load[i].value.promptLength == p
  }

  /** The bounds are tight: the larger of 0 and all queues, the smallest queue (0 when there is none), and the largest
      prompt length but at least 1024. */
  ghost predicate SpreadOf(load: seq<Option<EndpointStats>>, s: Spread) {
    && (forall i :: Reported(load, i) ==>
          && s.minQueue <= load[i].value.totalReqs as real <= s.maxQueue
          && load[i].value.promptLength <= s.maxPrompt)
    && 0.0 <= s.maxQueue && (s.maxQueue == 0.0 || HoldsQueue(load, s.maxQueue))
    && (HoldsQueue(load, s.minQueue) || (s.minQueue == 0.0 && forall i :: 0 <= i < |load| ==> load[i].None?))
    && (s.maxPrompt == SMALLEST_MAX_PROMPT || HoldsPrompt(load, s.maxPrompt))
  }

  /** A cluster has only one spread. */
  lemma SpreadUnique(load: seq<Option<EndpointStats>>, s: Spread, t: Spread)
    requires SpreadOf(load, s) && SpreadOf(load, t)
    ensures s == t
  {
    if i :| Reported(load, i) {
      assert HoldsQueue(load, s.minQueue) && HoldsQueue(load, t.minQueue);
    }
  }

  /** The loop over all endpoints finds it. */
  method FindSpread(load: seq<Option<EndpointStats>>) returns (s: Spread)
    ensures SpreadOf(load, s)
  {
    var maxQueue, maxPrompt: LongestPrompt := 0.0, SMALLEST_MAX_PROMPT;
    var minQueue: Option<real> := None;
    for i := 0 to |load|
      invariant forall k :: 0 <= k < i && Reported(load, k) ==>
                  && minQueue.Some? && minQueue.value <= load[k].value.totalReqs as real <= maxQueue
                  && load[k].value.promptLength <= maxPrompt
      invariant 0.0 <= maxQueue && (maxQueue == 0.0 || HoldsQueue(load, maxQueue))
      invariant minQueue.Some? ==> HoldsQueue(load, minQueue.value)
      invariant maxPrompt == SMALLEST_MAX_PROMPT || HoldsPrompt(load, maxPrompt)
    {
      if load[i].Some? {
        assert Reported(load, i);
        var size := load[i].value.totalReqs as real;
        maxQueue := if size > maxQueue then size else maxQueue;
        minQueue := if minQueue.None? || size < minQueue.value then Some(size) else minQueue;
        if load[i].value.promptLength > maxPrompt {
          maxPrompt := load[i].value.promptLength;
        }
      }
    }
    if minQueue.None? {
      assert forall k :: 0 <= k < |load| ==> (Reported(load, k) <==> load[k].Some?);
    }
    s := Spread(maxQueue, if minQueue.Some? then minQueue.value else 0.0, maxPrompt);
  }

  // ---------- loads and scores ----------

  function Ceil(x: real): int {
    -((-x).Floor)
  }

  function Delta(s: Spread): (d: real)
    ensures d >= 2.0
  {
    if s.maxQueue - s.minQueue > 2.0 then s.maxQueue - s.minQueue else 2.0
  }

  function Ratio(x: real, d: real): real
    requires d > 0.0
  {
    x / d
  }

  function RequestLoad(s: Spread, stats: Option<EndpointStats>): real {
    if stats.None? then 1.0 else Ratio(stats.value.totalReqs as real - s.minQueue, Delta(s))
  }

  function PrefillLoad(s: Spread, stats: Option<EndpointStats>): real
  {
    if stats.None? then 0.0 else Ratio(stats.value.promptLength as real, s.maxPrompt as real)
  }

  function Times(a: real, b: real): real {
    a * b
  }

  /** The request weight grows with the spread of the queues. */
  function RequestWeight(w: Weights, s: Spread): real {
    Times(w.request as real, Ceil(Delta(s) / 5.0) as real)
  }

  function Score(w: Weights, s: Spread, stats: Option<EndpointStats>, cacheRate: real): real
  {
    Times(w.cache as real, cacheRate) - Times(RequestWeight(w, s), RequestLoad(s, stats))
    - Times(w.prefill as real, PrefillLoad(s, stats))
  }

  lemma RatioMonotone(x: real, y: real, d: real)
    requires x <= y && d > 0.0
    ensures Ratio(x, d) <= Ratio(y, d)
  {
  }

  lemma TimesMonotone(a: real, x: real, y: real)
    requires 0.0 <= a && x <= y
    ensures Times(a, x) <= Times(a, y)
  {
  }

  lemma Fraction(x: real, d: real)
    requires 0.0 <= x <= d && d > 0.0
    ensures 0.0 <= Ratio(x, d) <= 1.0
  {
    var r := Ratio(x, d);
    assert r * d == x && (1.0 - r) * d == d - x;
  }

  /** Both loads are fractions: no prompt length is negative, since the query clamps them. */
  lemma LoadsAreFractions(load: seq<Option<EndpointStats>>, s: Spread, i: nat)
    requires SpreadOf(load, s) && i < |load|
    requires load[i].Some? ==> load[i].value.promptLength >= 0
    ensures 0.0 <= RequestLoad(s, load[i]) <= 1.0 && 0.0 <= PrefillLoad(s, load[i]) <= 1.0
  {
    if load[i].Some? {
      assert Reported(load, i);
      Fraction(load[i].value.totalReqs as real - s.minQueue, Delta(s));
      Fraction(load[i].value.promptLength as real, s.maxPrompt as real);
    }
  }

  /** An endpoint that is no busier, has no longer prompts queued and no fewer cached blocks never scores lower. */
  lemma BetterNeverScoresLower(w: Weights, s: Spread, a: EndpointStats, aRate: real, b: EndpointStats, bRate: real)
    requires w.cache >= 0 && w.request >= 0 && w.prefill >= 0
    requires a.totalReqs <= b.totalReqs && a.promptLength <= b.promptLength && aRate >= bRate
    ensures Score(w, s, Some(a), aRate) >= Score(w, s, Some(b), bRate)
  {
    var weight := RequestWeight(w, s);
    RequestWeightBounds(w, s);
    RatioMonotone(a.totalReqs as real - s.minQueue, b.totalReqs as real - s.minQueue, Delta(s));
    RatioMonotone(a.promptLength as real, b.promptLength as real, s.maxPrompt as real);
    TimesMonotone(w.cache as real, bRate, aRate);
    TimesMonotone(weight, RequestLoad(s, Some(a)), RequestLoad(s, Some(b)));
    TimesMonotone(w.prefill as real, PrefillLoad(s, Some(a)), PrefillLoad(s, Some(b)));
  }

  lemma CeilBounds(d: real)
    requires d >= 2.0
    ensures d / 5.0 <= Ceil(d / 5.0) as real <= d / 2.0
  {
    var c := Ceil(d / 5.0);
    assert d / 5.0 <= c as real < d / 5.0 + 1.0;
    assert c >= 1;
  }

  lemma RequestWeightBounds(w: Weights, s: Spread)
    requires w.request >= 0
    ensures 0.0 <= RequestWeight(w, s)
    ensures Times(w.request as real, Delta(s) / 5.0) <= RequestWeight(w, s) <= Times(w.request as real, Delta(s) / 2.0)
  {
    var d := Delta(s);
    CeilBounds(d);
    TimesMonotone(w.request as real, d / 5.0, Ceil(d / 5.0) as real);
    TimesMonotone(w.request as real, Ceil(d / 5.0) as real, d / 2.0);
    TimesMonotone(w.request as real, 0.0, d / 5.0);
  }

  /** One more queued request costs between a fifth and a half of the configured weight, however the requests are
      spread over the cluster. */
  lemma PriceOfARequest(w: Weights, s: Spread, a: EndpointStats, b: EndpointStats, rate: real)
    requires w.request >= 0 && a.promptLength == b.promptLength && a.totalReqs <= b.totalReqs
    ensures var more := (b.totalReqs - a.totalReqs) as real;
            var loss := Score(w, s, Some(a), rate) - Score(w, s, Some(b), rate);
            w.request as real * more / 5.0 <= loss <= w.request as real * more / 2.0
  {
    hide Times, Ratio, RequestWeight, Delta;
    var (d, weight, r) := (Delta(s), RequestWeight(w, s), w.request as real);
    var more := (b.totalReqs - a.totalReqs) as real;
    var (x, y) := (a.totalReqs as real - s.minQueue, b.totalReqs as real - s.minQueue);
    assert y - x == more;
    RequestWeightBounds(w, s);
    RatioTimes(more, d);
    LossOf(weight, x, y, d);
    PriceBounds(Ratio(more, d), weight, r, d, more);
  }

  lemma RatioTimes(x: real, d: real)
    requires d > 0.0
    ensures Ratio(x, d) * d == x && (x >= 0.0 ==> Ratio(x, d) >= 0.0)
  {
    RatioMonotone(if x < 0.0 then x else 0.0, x, d);
  }

  lemma LossOf(weight: real, x: real, y: real, d: real)
    requires d > 0.0
    ensures Times(weight, Ratio(y, d)) - Times(weight, Ratio(x, d)) == Times(Ratio(y - x, d), weight)
  {
    assert Ratio(y - x, d) == Ratio(y, d) - Ratio(x, d);
  }

  lemma PriceBounds(m: real, weight: real, r: real, d: real, more: real)
    requires m >= 0.0 && m * d == more && Times(r, d / 5.0) <= weight <= Times(r, d / 2.0)
    ensures r * more / 5.0 <= Times(m, weight) <= r * more / 2.0
  {
    hide Times;
    TimesMonotone(m, Times(r, d / 5.0), weight);
    TimesMonotone(m, weight, Times(r, d / 2.0));
    Regroup(m, r, d, 5.0, more);
    Regroup(m, r, d, 2.0, more);
  }

  lemma Regroup(m: real, r: real, d: real, k: real, more: real)
    requires m * d == more && k > 0.0
    ensures Times(m, Times(r, d / k)) == r * more / k
  {
    calc {
      m * (r * (d / k));
      r * (m * d) / k;
    }
  }

  /** What two reported endpoints' scores differ by, exactly: every unit of cache rate counts the cache weight, every
      request the request weight times k over the range of the queues, where k is a fifth of the range rounded up, and
      every unit of prompt length the prefill weight over the longest prompt. */
  lemma ScoreDifference(w: Weights, s: Spread, a: EndpointStats, aRate: real, b: EndpointStats, bRate: real,
      d: real, k: int)
    requires d == (if s.maxQueue - s.minQueue < 2.0 then 2.0 else s.maxQueue - s.minQueue)
    requires 5.0 * (k - 1) as real < d <= 5.0 * k as real
    ensures Score(w, s, Some(a), aRate) - Score(w, s, Some(b), bRate) ==
            w.cache as real * (aRate - bRate)
            + w.request as real * k as real * ((b.totalReqs - a.totalReqs) as real / d)
            + w.prefill as real * ((b.promptLength - a.promptLength) as real / s.maxPrompt as real)
  {
    assert d == Delta(s) && k == Ceil(d / 5.0);
    var (x, y) := (a.totalReqs as real - s.minQueue, b.totalReqs as real - s.minQueue);
    var (p, q, m) := (a.promptLength as real, b.promptLength as real, s.maxPrompt as real);
    Scaled(Times(w.request as real, k as real), x, y, d);
    Scaled(w.prefill as real, p, q, m);
  }

  lemma Scaled(r: real, x: real, y: real, d: real)
    requires d > 0.0
    ensures Times(r, Ratio(y, d)) - Times(r, Ratio(x, d)) == r * ((y - x) / d)
  {
    assert (y - x) / d == y / d - x / d;
  }

  /** And the score of one endpoint with the smallest queue and no prompts is what its cache rate is worth; without
      statistics an endpoint counts as if the queue exceeded the smallest by the whole range. */
  lemma ScoreOrigin(w: Weights, s: Spread, rate: real, d: real, k: int)
    requires d == (if s.maxQueue - s.minQueue < 2.0 then 2.0 else s.maxQueue - s.minQueue)
    requires 5.0 * (k - 1) as real < d <= 5.0 * k as real
    ensures forall n: int :: n as real == s.minQueue ==>
              Score(w, s, Some(EndpointStats(n, 0)), rate) == w.cache as real * rate
    ensures Score(w, s, None, rate) == w.cache as real * rate - w.request as real * k as real
  {
    assert d == Delta(s) && k == Ceil(d / 5.0);
    assert Ratio(0.0, d) == 0.0 && Ratio(0.0, s.maxPrompt as real) == 0.0;
  }

  // ---------- only differences between queues matter ----------

  function Shifted(load: seq<Option<EndpointStats>>, c: int): seq<Option<EndpointStats>> {
    seq(|load|, i requires 0 <= i < |load| =>
      if load[i].None? then None else Some(load[i].value.(totalReqs := load[i].value.totalReqs + c)))
  }

  ghost predicate LargestQueue(load: seq<Option<EndpointStats>>, top: int) {
    && (exists i :: Reported(load, i) && load[i].value.totalReqs == top)
    && (forall i :: Reported(load, i) ==> load[i].value.totalReqs <= top)
  }

  /** How a shift moves the bounds: the smallest queue and the longest prompt go along, but the largest queue counts as
      at least 0. */
  lemma ShiftedSpread(load: seq<Option<EndpointStats>>, c: int, s: Spread, t: Spread, top: int)
    requires SpreadOf(load, s) && SpreadOf(Shifted(load, c), t) && LargestQueue(load, top)
    ensures t.minQueue == s.minQueue + c as real && t.maxPrompt == s.maxPrompt
    ensures s.maxQueue == (if top > 0 then top else 0) as real
    ensures t.maxQueue == (if top + c > 0 then top + c else 0) as real
  {
    var moved := Shifted(load, c);
    assert forall i :: Reported(load, i) <==> Reported(moved, i);
    assert HoldsQueue(load, s.minQueue) && HoldsQueue(moved, t.minQueue);
    assert HoldsQueue(load, top as real) && HoldsQueue(moved, (top + c) as real);
  }

  lemma {:induction false} HasLargestQueue(load: seq<Option<EndpointStats>>, i: int) returns (top: int)
    requires Reported(load, i)
    ensures LargestQueue(load, top)
    decreases |load|
  {
    var n := |load| - 1;
    var older := load[..n];
    assert forall k :: Reported(older, k) <==> Reported(load, k) && k < n;
    if k :| Reported(older, k) {
      top := HasLargestQueue(older, k);
      if load[n].Some? && load[n].value.totalReqs > top {
        top := load[n].value.totalReqs;
      }
    } else {
      top := load[n].value.totalReqs;
    }
  }

  /** When a shift leaves an endpoint's score alone: requests carry no weight, or the endpoint has the smallest queue,
      or the request weight keeps its ratio to the range of the queues. Without statistics the weight itself must
      stay. */
  predicate ShiftHarmless(w: Weights, s: Spread, t: Spread, stats: Option<EndpointStats>) {
    var (before, after) := (Ceil(Delta(s) / 5.0) as real, Ceil(Delta(t) / 5.0) as real);
    || w.request == 0
    || (stats.None? && before == after)
    || (stats.Some? && stats.value.totalReqs as real == s.minQueue)
    || (stats.Some? && Times(before, Delta(t)) == Times(after, Delta(s)))
  }

  /** Adding one constant to all request counts leaves an endpoint's score alone exactly when it is harmless. */
  lemma ShiftKeepsScoreIff(w: Weights, load: seq<Option<EndpointStats>>, c: int, s: Spread, t: Spread, i: nat,
      rate: real)
    requires SpreadOf(load, s) && SpreadOf(Shifted(load, c), t) && i < |load|
    ensures Score(w, s, load[i], rate) == Score(w, t, Shifted(load, c)[i], rate) <==> ShiftHarmless(w, s, t, load[i])
  {
    hide SpreadOf, Delta, Ceil, Ratio, Times;
    var (r, before, after) := (w.request as real, Ceil(Delta(s) / 5.0) as real, Ceil(Delta(t) / 5.0) as real);
    if load[i].Some? {
      assert Reported(load, i);
      var top := HasLargestQueue(load, i);
      ShiftedSpread(load, c, s, t, top);
      var above := load[i].value.totalReqs as real - s.minQueue;
      SameLoss(r, before, after, Delta(s), Delta(t), above);
    } else {
      SameWeight(r, before, after);
    }
  }

  lemma SameWeight(r: real, before: real, after: real)
    ensures Times(Times(r, before), 1.0) == Times(Times(r, after), 1.0) <==> r == 0.0 || before == after
  {
    var gap := before - after;
    assert r * before - r * after == r * gap;
    if r != 0.0 && gap != 0.0 {
      NonZero(r, gap, r * gap);
    }
  }

  lemma NonZero(x: real, y: real, product: real)
    requires product == x * y && x != 0.0 && y != 0.0
    ensures product != 0.0
  {
  }

  /** Cross-multiplied: the losses differ by the product of the weight, the queue's height and the ratios' gap. */
  lemma SameLoss(r: real, before: real, after: real, d: real, e: real, above: real)
    requires d > 0.0 && e > 0.0
    ensures Times(Times(r, before), Ratio(above, d)) == Times(Times(r, after), Ratio(above, e)) <==>
            r == 0.0 || above == 0.0 || Times(before, e) == Times(after, d)
  {
    var (x, y) := (Times(Times(r, before), Ratio(above, d)), Times(Times(r, after), Ratio(above, e)));
    var gap := Times(before, e) - Times(after, d);
    CrossMultiplied(r, before, above, d, e, x);
    CrossMultiplied(r, after, above, e, d, y);
    var (ra, de) := (r * above, d * e);
    assert x * de - y * de == ra * gap by {
      assert (r * before * above) * e - (r * after * above) * d == ra * (before * e - after * d);
    }
    NonZero(d, e, de);
    if x != y {
      NonZero(x - y, de, (x - y) * de);
    }
    if r != 0.0 && above != 0.0 && gap != 0.0 {
      NonZero(r, above, ra);
      NonZero(ra, gap, ra * gap);
    }
  }

  lemma CrossMultiplied(r: real, weight: real, above: real, d: real, e: real, x: real)
    requires d > 0.0 && x == Times(Times(r, weight), Ratio(above, d))
    ensures x * (d * e) == (r * weight * above) * e
  {
    var q := Ratio(above, d);
    assert q * d == above;
    assert (r * weight * q) * (d * e) == (r * weight) * (q * d) * e;
  }

  /** So it changes no score at all as long as some count is, and stays, 0 or more. */
  lemma ShiftChangesNoScore(w: Weights, load: seq<Option<EndpointStats>>, c: int, s: Spread, t: Spread, i: nat,
      rate: real, k: int)
    requires SpreadOf(load, s) && SpreadOf(Shifted(load, c), t) && i < |load|
    requires Reported(load, k) && load[k].value.totalReqs >= 0 && load[k].value.totalReqs + c >= 0
    ensures Score(w, s, load[i], rate) == Score(w, t, Shifted(load, c)[i], rate)
  {
    hide SpreadOf;
    var top := HasLargestQueue(load, k);
    ShiftedSpread(load, c, s, t, top);
    ShiftKeepsScoreIff(w, load, c, s, t, i, rate);
  }

  /** When all counts are negative it can, since the largest queue counts as at least 0. */
  lemma ShiftMattersBelowZero()
    ensures var low := [Some(EndpointStats(-10, 0)), Some(EndpointStats(-6, 0))];
            exists s, t :: SpreadOf(low, s) && SpreadOf(Shifted(low, 10), t) &&
              Score(DEFAULT_WEIGHTS, s, low[1], 0.0) != Score(DEFAULT_WEIGHTS, t, Shifted(low, 10)[1], 0.0)
  {
    hide Score;
    var low := [Some(EndpointStats(-10, 0)), Some(EndpointStats(-6, 0))];
    var (s, t) := (Spread(0.0, -10.0, 1024), Spread(4.0, 0.0, 1024));
    ExampleSpreads(low, Shifted(low, 10), s, t);
    assert Delta(s) == 10.0 && Delta(t) == 4.0 && Ceil(2.0) == 2 && Ceil(0.8) == 1;
    assert !ShiftHarmless(DEFAULT_WEIGHTS, s, t, low[1]);
    ShiftKeepsScoreIff(DEFAULT_WEIGHTS, low, 10, s, t, 1, 0.0);
  }

  lemma ExampleSpreads(low: seq<Option<EndpointStats>>, high: seq<Option<EndpointStats>>, s: Spread, t: Spread)
    requires low == [Some(EndpointStats(-10, 0)), Some(EndpointStats(-6, 0))]
    requires high == [Some(EndpointStats(0, 0)), Some(EndpointStats(4, 0))]
    requires s == Spread(0.0, -10.0, 1024) && t == Spread(4.0, 0.0, 1024)
    ensures SpreadOf(low, s) && SpreadOf(high, t)
  {
    assert Reported(low, 0) && Reported(low, 1) && Reported(high, 0) && Reported(high, 1);
  }
}
