/** Time to first token by prompt length: one exponential moving average for each kilobyte of prompt. */
module MovingAverage {

  const MAX_PROMPT_LENGTH := 1024
  const ALPHA := 0.9
  const DEFAULT_TTFT := 500

  // ---------- the average of a list of samples ----------

  /** A first token took ttft for a prompt of this length. */
  datatype Sample = Sample(length: nat, ttft: int)

  ghost predicate Positive(samples: seq<Sample>) {
    forall i :: 0 <= i < |samples| ==> samples[i].ttft > 0
  }

  function Blend(average: real, ttft: int): real {
    average * ALPHA + ttft as real * (1.0 - ALPHA)
  }

  /** The first sample counts in full, each later one for a tenth. */
  function Average(samples: seq<Sample>): real {
    if samples == [] then 0.0
    else
      var n := |samples| - 1;
      if n == 0 then samples[0].ttft as real else Blend(Average(samples[..n]), samples[n].ttft)
  }

  /** The average stays within the samples. */
  lemma {:induction false} AverageWithinSamples(samples: seq<Sample>, lo: int, hi: int)
    requires samples != [] && forall i :: 0 <= i < |samples| ==> lo <= samples[i].ttft <= hi
    ensures lo as real <= Average(samples) <= hi as real
    ensures lo <= Average(samples).Floor <= hi
  {
    var n := |samples| - 1;
    if n > 0 {
      AverageWithinSamples(samples[..n], lo, hi);
      assert lo <= samples[n].ttft <= hi;
    }
  }

  /** So an average of 0 means that there is no sample. */
  lemma AverageZeroIff(samples: seq<Sample>)
    requires Positive(samples)
    ensures Average(samples) >= 0.0 && (Average(samples) == 0.0 <==> samples == [])
  {
    if samples != [] {
      var hi := Largest(samples);
      AverageWithinSamples(samples, 1, hi);
    }
  }

  lemma {:induction false} Largest(samples: seq<Sample>) returns (hi: int)
    ensures forall i :: 0 <= i < |samples| ==> samples[i].ttft <= hi
  {
    if samples == [] {
      hi := 0;
    } else {
      var n := |samples| - 1;
      hi := Largest(samples[..n]);
      assert forall i :: 0 <= i < n ==> samples[..n][i] == samples[i];
      if hi < samples[n].ttft {
        hi := samples[n].ttft;
      }
    }
  }

  /** x, multiplied by 0.9 n times. */
  function Faded(x: real, n: nat): real {
    if n == 0 then x else 0.9 * Faded(x, n - 1)
  }

  /** What two pasts contribute differs less and less: by a factor of 0.9 for every sample since. */
  lemma {:induction false} PastFades(a: seq<Sample>, b: seq<Sample>, since: seq<Sample>)
    requires a != [] && b != []
    ensures Average(a + since) - Average(b + since) == Faded(Average(a) - Average(b), |since|)
  {
    hide Average, Blend;
    if since == [] {
      assert a + since == a && b + since == b;
    } else {
      var (front, x) := (since[..|since| - 1], since[|since| - 1]);
      assert a + since == (a + front) + [x] && b + since == (b + front) + [x];
      PastFades(a, b, front);
      AverageExtended(a + front, x);
      AverageExtended(b + front, x);
      BlendDifference(Average(a + front), Average(b + front), x.ttft);
    }
  }

  lemma AverageExtended(samples: seq<Sample>, x: Sample)
    requires samples != []
    ensures Average(samples + [x]) == Blend(Average(samples), x.ttft)
  {
    assert (samples + [x])[..|samples|] == samples;
  }

  lemma BlendDifference(x: real, y: real, ttft: int)
    ensures Blend(x, ttft) - Blend(y, ttft) == ALPHA * (x - y)
  {
  }

  // ---------- buckets ----------

  function CalcKB(length: nat): (kb: nat)
    ensures kb < MAX_PROMPT_LENGTH
  {
    var l := (length as real / 1024.0).Floor;
    if MAX_PROMPT_LENGTH - 1 < l then MAX_PROMPT_LENGTH - 1 else l
  }

  /** Whole kilobytes, the last bucket taking everything longer. */
  lemma BucketHolds(length: nat)
    ensures var kb := CalcKB(length);
            kb <= 1023 && 1024 * kb <= length && (length < 1024 * kb + 1024 || kb == 1023)
  {
    var x := length as real / 1024.0;
    assert x.Floor as real <= x < x.Floor as real + 1.0;
  }

  /** The samples that fall into bucket kb, in order. */
  ghost function In(history: seq<Sample>, kb: int): seq<Sample> {
    if history == [] then []
    else
      var n := |history| - 1;
      In(history[..n], kb) + (if CalcKB(history[n].length) == kb then [history[n]] else [])
  }

  lemma InSnoc(history: seq<Sample>, x: Sample, kb: int)
    ensures In(history + [x], kb) == In(history, kb) + (if CalcKB(x.length) == kb then [x] else [])
  {
    assert (history + [x])[..|history|] == history;
  }

  lemma {:induction false} InPositive(history: seq<Sample>, kb: int)
    requires Positive(history)
    ensures Positive(In(history, kb))
  {
    if history != [] {
      var n := |history| - 1;
      assert forall i :: 0 <= i < n ==> history[..n][i] == history[i];
      InPositive(history[..n], kb);
    }
  }

  lemma AverageSnoc(samples: seq<Sample>, x: Sample)
    requires Positive(samples)
    ensures var before := Average(samples);
            Average(samples + [x]) == if before == 0.0 then x.ttft as real else Blend(before, x.ttft)
  {
    AverageZeroIff(samples);
    if samples != [] {
      AverageExtended(samples, x);
    }
  }

  /** The nearest bucket at or below idx with any samples. */
  ghost predicate Nearest(history: seq<Sample>, idx: int, j: int) {
    0 <= j <= idx && In(history, j) != [] && forall k :: j < k <= idx ==> In(history, k) == []
  }

  /** The prediction for a length: the average of the nearest bucket at or below with any samples, or the default. */
  ghost predicate Predicts(history: seq<Sample>, length: nat, r: int) {
    var idx := CalcKB(length);
    && ((forall k :: 0 <= k <= idx ==> In(history, k) == []) ==> r == DEFAULT_TTFT)
    && (forall j :: Nearest(history, idx, j) ==> r == Average(In(history, j)).Floor)
  }

  // ---------- the records ----------

  datatype TTFT = TTFT(length: int, ttft: real)

  class ModelTTFT {
    const ttfts: array<TTFT>
    ghost var history: seq<Sample>

    constructor ()
      ensures Valid() && history == [] && fresh(ttfts)
    {
      var records := new TTFT[MAX_PROMPT_LENGTH];
      for i := 0 to MAX_PROMPT_LENGTH
        invariant forall k :: 0 <= k < i ==> records[k] == TTFT(k, 0.0)
      {
        records[i] := TTFT(i, 0.0);
      }
      ttfts := records;
      history := [];
    }

    /** Every bucket holds the average of the samples that fell into it. */
    ghost predicate Valid()
      reads this, ttfts
    {
      && ttfts.Length == MAX_PROMPT_LENGTH && Positive(history)
      && forall i :: 0 <= i < MAX_PROMPT_LENGTH ==> ttfts[i] == TTFT(i, Average(In(history, i)))
    }

    method RecordTTFT(length: nat, ttft: int)
      requires Valid() && ttft > 0
      modifies this, ttfts
      ensures Valid() && history == old(history) + [Sample(length, ttft)]
    {
      hide Average, In, Positive;
      var idx := CalcKB(length);
      ghost var x := Sample(length, ttft);
      InPositive(history, idx);
      AverageSnoc(In(history, idx), x);
      forall i
        ensures i != idx ==> In(history + [x], i) == In(history, i)
        ensures i == idx ==> In(history + [x], i) == In(history, idx) + [x]
      {
        InSnoc(history, x, i);
      }
      PositiveSnoc(history, x);
      var record := ttfts[idx];
      if record.ttft == 0.0 {
        ttfts[idx] := record.(ttft := ttft as real);
      } else {
        ttfts[idx] := record.(ttft := Blend(record.ttft, ttft));
      }
      history := history + [x];
    }

    method MatchTTFT(length: nat) returns (r: int)
      requires Valid()
      ensures Predicts(history, length, r)
    {
      hide Average, In, Positive;
      var idx := CalcKB(length);
      forall k
        ensures Average(In(history, k)) > 0.0 <==> In(history, k) != []
      {
        InPositive(history, k);
        AverageZeroIff(In(history, k));
      }
      var i: int := idx;
      while i >= 0
        invariant -1 <= i <= idx
        invariant forall k :: i < k <= idx ==> In(history, k) == []
      {
        if ttfts[i].ttft > 0.0 {
          return ttfts[i].ttft.Floor;
        }
        i := i - 1;
      }
      return DEFAULT_TTFT;
    }
  }

  lemma PositiveSnoc(history: seq<Sample>, x: Sample)
    requires Positive(history) && x.ttft > 0
    ensures Positive(history + [x])
  {
  }

  lemma {:induction false} FindNearest(history: seq<Sample>, idx: nat, kb: nat) returns (j: nat)
    requires kb <= idx && In(history, kb) != []
    ensures Nearest(history, idx, j)
    decreases idx
  {
    if In(history, idx) != [] {
      j := idx;
    } else {
      j := FindNearest(history, idx - 1, kb);
    }
  }

  /** A prediction that is not the default lies between the fastest and the slowest sample at or below the length. */
  lemma PredictionWithinSamples(history: seq<Sample>, length: nat, r: int, lo: int, hi: int, i: nat)
    requires Predicts(history, length, r)
    requires i < |history| && CalcKB(history[i].length) <= CalcKB(length)
    requires forall i :: 0 <= i < |history| && CalcKB(history[i].length) <= CalcKB(length) ==> lo <= history[i].ttft <= hi
    ensures lo <= r <= hi
  {
    hide Average, In, CalcKB;
    InHas(history, i);
    var j := FindNearest(history, CalcKB(length), CalcKB(history[i].length));
    InBounds(history, j, lo, hi);
    AverageWithinSamples(In(history, j), lo, hi);
  }

  /** The nearest bucket at or below decides alone: with samples of kb kilobytes and none in between, the answer lies
      between the fastest and the slowest of those. */
  lemma NearestBucketDecides(history: seq<Sample>, length: nat, r: int, kb: nat, lo: int, hi: int, i: nat)
    requires Predicts(history, length, r) && kb <= CalcKB(length)
    requires i < |history| && CalcKB(history[i].length) == kb
    requires forall j :: 0 <= j < |history| ==>
               CalcKB(history[j].length) <= kb || CalcKB(history[j].length) > CalcKB(length)
    requires forall j :: 0 <= j < |history| && CalcKB(history[j].length) == kb ==> lo <= history[j].ttft <= hi
    ensures lo <= r <= hi
  {
    hide Average, In, CalcKB;
    InHas(history, i);
    forall k | kb < k <= CalcKB(length)
      ensures In(history, k) == []
    {
      InHasNot(history, k);
    }
    assert Nearest(history, CalcKB(length), kb);
    InBounds(history, kb, lo, hi);
    AverageWithinSamples(In(history, kb), lo, hi);
  }

  /** Without a sample at or below the length the answer is the default. */
  lemma NothingBelow(history: seq<Sample>, length: nat, r: int)
    requires Predicts(history, length, r)
    requires forall j :: 0 <= j < |history| ==> CalcKB(history[j].length) > CalcKB(length)
    ensures r == 500
  {
    hide Average, In, CalcKB;
    forall k | 0 <= k <= CalcKB(length)
      ensures In(history, k) == []
    {
      InHasNot(history, k);
    }
  }

  lemma {:induction false} InHasNot(history: seq<Sample>, kb: int)
    requires forall j :: 0 <= j < |history| ==> CalcKB(history[j].length) != kb
    ensures In(history, kb) == []
  {
    hide CalcKB;
    if history != [] {
      InHasNot(history[..|history| - 1], kb);
    }
  }

  lemma {:induction false} InHas(history: seq<Sample>, i: nat)
    requires i < |history|
    ensures In(history, CalcKB(history[i].length)) != []
  {
    var n := |history| - 1;
    if i < n {
      InHas(history[..n], i);
    }
  }

  lemma {:induction false} InBounds(history: seq<Sample>, kb: int, lo: int, hi: int)
    requires forall i :: 0 <= i < |history| && CalcKB(history[i].length) == kb ==> lo <= history[i].ttft <= hi
    ensures forall i :: 0 <= i < |In(history, kb)| ==> lo <= In(history, kb)[i].ttft <= hi
  {
    if history != [] {
      var n := |history| - 1;
      assert forall i :: 0 <= i < n ==> history[..n][i] == history[i];
      InBounds(history[..n], kb, lo, hi);
    }
  }

  // ---------- all models ----------

  class Models {
    var models: map<string, ModelTTFT>

    constructor ()
      ensures Valid() && models == map[]
    {
      models := map[];
    }

    ghost function Records(): set<object>
      reads this
    {
      set n | n in models :: models[n]
    }

    ghost function Tables(): set<object>
      reads this
    {
      set n | n in models :: models[n].ttfts
    }

    ghost predicate Valid()
      reads this, Records(), Tables()
    {
      && (forall n :: n in models ==> models[n].Valid())
      && (forall n, m :: n in models && m in models && n != m ==>
            models[n] != models[m] && models[n].ttfts != models[m].ttfts)
    }

    /** The samples recorded for a model. */
    ghost function History(name: string): seq<Sample>
      reads this, Records()
    {
      if name in models then models[name].history else []
    }

    /** Samples without a model, a prompt or a time are ignored; any other extends the history of its model only. */
    method RecordTTFT(name: string, input: int, ttft: int)
      requires Valid()
      modifies this, Records(), Tables()
      ensures Valid()
      ensures var kept := input > 0 && ttft > 0 && name != "";
              forall n :: History(n) == old(History(n)) + (if kept && n == name then [Sample(input, ttft)] else [])
    {
      if input <= 0 || ttft <= 0 || |name| == 0 {
        return;
      }
      if name !in models {
        var created := new ModelTTFT();
        models := models[name := created];
      }
      var model := models[name];
      model.RecordTTFT(input, ttft);
    }

    method MatchTTFT(name: string, length: int) returns (r: int)
      requires Valid()
      ensures length <= 0 || name == "" || name !in models ==> r == 500
      ensures length > 0 && name != "" ==> Predicts(History(name), length, r)
    {
      if length <= 0 || |name| == 0 {
        return DEFAULT_TTFT;
      }
      if name in models {
        r := models[name].MatchTTFT(length);
      } else {
        r := DEFAULT_TTFT;
      }
    }
  }
}
