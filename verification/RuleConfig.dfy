/** Routing rules of a model: validation, ordering by number of headers, and the choice for a request's headers. */
module RuleConfig {
  import opened Options

  datatype Header = Header(key: string, value: string)

  class Rule {
    const headers: seq<Header>
    const cluster: string
    var backend: string

    constructor (headers: seq<Header>, cluster: string, backend: string)
      ensures this.headers == headers && this.cluster == cluster && this.backend == backend
    {
      this.headers, this.cluster, this.backend := headers, cluster, backend;
    }
  }

  // ---------- validation ----------

  const TRITON := "triton"

  function Backend(b: string): string {
    if b == "" then TRITON else b
  }

  /** All rules name the cluster and, an empty backend meaning the default one, the backend of the first. */
  ghost predicate Consistent(rules: seq<Rule>)
    reads rules
  {
    && rules != []
    && forall i :: 0 <= i < |rules| ==>
         rules[i].cluster == rules[0].cluster && Backend(rules[i].backend) == Backend(rules[0].backend)
  }

  /** Succeeds exactly on consistent rules, and then every rule carries the one backend; a failure may leave some empty
      backends filled in, and changes nothing else. */
  method ValidateRules(rules: seq<Rule>) returns (r: Option<(string, string)>)
    modifies set i | 0 <= i < |rules| :: rules[i]`backend
    ensures r.Some? <==> old(Consistent(rules))
    ensures r.Some? ==> r.value.0 == rules[0].cluster
    ensures r.Some? ==> r.value.1 == if old(rules[0].backend) == "" then "triton" else old(rules[0].backend)
    ensures r.Some? ==> forall i :: 0 <= i < |rules| ==> rules[i].cluster == r.value.0 && rules[i].backend == r.value.1
    ensures forall i :: 0 <= i < |rules| ==> rules[i].backend in {old(rules[i].backend), old(Backend(rules[i].backend))}
  {
    if |rules| == 0 {
      return None;
    }
    var expectedCluster, expectedBackend := rules[0].cluster, rules[0].backend;
    if expectedBackend == "" {
      expectedBackend := TRITON;
    }
    for i := 0 to |rules|
      invariant forall k :: 0 <= k < |rules| ==>
                  rules[k].backend in {old(rules[k].backend), old(Backend(rules[k].backend))}
      invariant forall k :: 0 <= k < i ==> rules[k].cluster == expectedCluster && rules[k].backend == expectedBackend
    {
      if rules[i].cluster != expectedCluster {
        return None;
      }
      if rules[i].backend == "" {
        rules[i].backend := TRITON;
      }
      if rules[i].backend != expectedBackend {
        return None;
      }
    }
    return Some((expectedCluster, expectedBackend));
  }

  // ---------- ordering ----------

  ghost predicate MostHeadersFirst(rules: seq<Rule>) {
    forall i, j :: 0 <= i < j < |rules| ==> |rules[i].headers| >= |rules[j].headers|
  }

  method SwapWithPrevious(tuples: array<Rule>, j: nat)
    requires 0 < j < tuples.Length
    modifies tuples
    ensures tuples[..] == old(tuples[..])[j := old(tuples[j - 1])][j - 1 := old(tuples[j])]
    ensures multiset(tuples[..]) == multiset(old(tuples[..]))
  {
    tuples[j], tuples[j - 1] := tuples[j - 1], tuples[j];
  }

  /** In place, as any sort would: nothing is lost and the rules with most headers come first. */
  method SortTuples(tuples: array<Rule>)
    modifies tuples
    ensures MostHeadersFirst(tuples[..]) && multiset(tuples[..]) == multiset(old(tuples[..]))
  {
    for i := 0 to tuples.Length
      invariant forall p, q :: 0 <= p < q < i ==> |tuples[..][p].headers| >= |tuples[..][q].headers|
      invariant multiset(tuples[..]) == multiset(old(tuples[..]))
    {
      var j := i;
      while j > 0 && |tuples[j].headers| > |tuples[j - 1].headers|
        invariant 0 <= j <= i
        invariant forall p, q :: 0 <= p < q <= i && q != j ==> |tuples[..][p].headers| >= |tuples[..][q].headers|
        invariant multiset(tuples[..]) == multiset(old(tuples[..]))
      {
        SwapWithPrevious(tuples, j);
        j := j - 1;
      }
    }
  }

  method BuildModelMappings(mappingRules: map<string, seq<Rule>>) returns (mappings: map<string, seq<Rule>>)
    ensures mappings.Keys == set m | m in mappingRules && mappingRules[m] != []
    ensures forall m :: m in mappings ==>
              MostHeadersFirst(mappings[m]) && multiset(mappings[m]) == multiset(mappingRules[m])
  {
    mappings := map[];
    var rest := mappingRules.Keys;
    while rest != {}
      invariant rest <= mappingRules.Keys
      invariant forall m :: m in mappings <==> m in mappingRules && m !in rest && mappingRules[m] != []
      invariant forall m :: m in mappings ==>
                  MostHeadersFirst(mappings[m]) && multiset(mappings[m]) == multiset(mappingRules[m])
    {
      var m :| m in rest;
      var rules := mappingRules[m];
      rest := rest - {m};
      if |rules| != 0 {
        var tuples := new Rule[|rules|](i requires 0 <= i < |rules| => rules[i]);
        assert tuples[..] == rules;
        SortTuples(tuples);
        mappings := mappings[m := tuples[..]];
      }
    }
  }

  // ---------- the choice ----------

  ghost predicate AllMatched(rule: Rule, request: map<string, string>) {
    forall i :: 0 <= i < |rule.headers| ==>
      rule.headers[i].key in request && request[rule.headers[i].key] == rule.headers[i].value
  }

  /** A rule matches when its headers are among those of the request. */
  lemma AllMatchedIff(rule: Rule, request: map<string, string>)
    ensures AllMatched(rule, request) <==>
            (set i | 0 <= i < |rule.headers| :: (rule.headers[i].key, rule.headers[i].value)) <= request.Items
  {
    var wanted := set i | 0 <= i < |rule.headers| :: (rule.headers[i].key, rule.headers[i].value);
    if wanted <= request.Items {
      forall i | 0 <= i < |rule.headers|
        ensures rule.headers[i].key in request && request[rule.headers[i].key] == rule.headers[i].value
      {
        assert (rule.headers[i].key, rule.headers[i].value) in wanted;
      }
    }
  }

  /** The rule chosen matches, and no matching rule has more headers. */
  ghost predicate Chosen(rules: seq<Rule>, request: map<string, string>, r: Rule?) {
    if r == null then forall i :: 0 <= i < |rules| ==> !AllMatched(rules[i], request)
    else
      && r in rules && AllMatched(r, request)
      && forall i :: 0 <= i < |rules| && AllMatched(rules[i], request) ==> |rules[i].headers| <= |r.headers|
  }

  /** The first rule that matches; among rules ordered by number of headers, one of the most specific. The short cut
      for a single rule without headers changes nothing. */
  method GetCandidateRule(tuples: seq<Rule>, request: map<string, string>) returns (r: Rule?)
    ensures r == null <==> forall i :: 0 <= i < |tuples| ==> !AllMatched(tuples[i], request)
    ensures r != null ==> exists i :: 0 <= i < |tuples| && tuples[i] == r && AllMatched(r, request) &&
                            forall j :: 0 <= j < i ==> !AllMatched(tuples[j], request)
    ensures MostHeadersFirst(tuples) ==> Chosen(tuples, request, r)
  {
    if |tuples| == 1 && |tuples[0].headers| == 0 {
      assert AllMatched(tuples[0], request);
      return tuples[0];
    }
    for t := 0 to |tuples|
      invariant forall j :: 0 <= j < t ==> !AllMatched(tuples[j], request)
    {
      var model := tuples[t];
      if |model.headers| == 0 {
        assert AllMatched(model, request);
        return model;
      }
      var allMatched := true;
      for h := 0 to |model.headers|
        invariant allMatched
        invariant forall k :: 0 <= k < h ==>
                    model.headers[k].key in request && request[model.headers[k].key] == model.headers[k].value
      {
        var v := model.headers[h];
        if v.key !in request || request[v.key] != v.value {
          allMatched := false;
          break;
        }
      }
      if allMatched {
        return model;
      }
    }
    return null;
  }

  lemma SameMembers(a: seq<Rule>, b: seq<Rule>, i: nat) returns (j: nat)
    requires multiset(a) == multiset(b) && i < |a|
    ensures j < |b| && b[j] == a[i]
  {
    assert a[i] in multiset(b);
    j :| 0 <= j < |b| && b[j] == a[i];
  }

  lemma ChosenPermuted(a: seq<Rule>, b: seq<Rule>, request: map<string, string>, r: Rule?)
    requires multiset(a) == multiset(b) && Chosen(a, request, r)
    ensures Chosen(b, request, r)
  {
    forall i: nat | i < |b|
      ensures exists j: nat :: j < |a| && a[j] == b[i]
    {
      var j := SameMembers(b, a, i);
    }
    if r != null {
      assert r in multiset(a);
    }
  }

  ghost predicate OnlyOneSoSpecific(rules: seq<Rule>, request: map<string, string>, r: Rule) {
    forall i :: 0 <= i < |rules| && AllMatched(rules[i], request) && |rules[i].headers| == |r.headers| ==> rules[i] == r
  }

  /** However the unstable sort orders rules with equally many headers, the rules chosen are equally specific, and the
      same whenever only one matching rule has that many headers. */
  lemma TiesOnly(a: seq<Rule>, b: seq<Rule>, request: map<string, string>, r: Rule?, q: Rule?)
    requires multiset(a) == multiset(b) && Chosen(a, request, r) && Chosen(b, request, q)
    ensures r == null <==> q == null
    ensures r != null && q != null ==> |r.headers| == |q.headers|
    ensures r != null && OnlyOneSoSpecific(a, request, r) ==> q == r
  {
    ChosenPermuted(b, a, request, q);
  }

  /** With rules configured: the rule for a model and a request's headers, or none. */
  method Route(mappingRules: map<string, seq<Rule>>, model: string, request: map<string, string>) returns (r: Rule?)
    ensures Chosen(if model in mappingRules then mappingRules[model] else [], request, r)
  {
    var mappings := BuildModelMappings(mappingRules);
    if model !in mappings {
      return null;
    }
    r := GetCandidateRule(mappings[model], request);
    ChosenPermuted(mappings[model], mappingRules[model], request, r);
  }
}
