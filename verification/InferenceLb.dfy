/** The inference load balancer: eligible hosts, candidates by score, and the final choice. */
module InferenceLb {
  import opened LoadScore
  import opened Options

  datatype Host = Host(ip: string, labels: map<string, string>)

  /** One endpoint while it is being scored. */
  class EndpointStatsWrapper {
    const host: Host
    const stats: Option<EndpointStats>
    var cacheHitRate: real
    var requestLoad: real
    var prefillLoad: real
    var score: real

    constructor (host: Host, stats: Option<EndpointStats>)
      ensures this.host == host && this.stats == stats
    {
      this.host, this.stats := host, stats;
      cacheHitRate, requestLoad, prefillLoad, score := 0.0, 0.0, 0.0, 0.0;
    }
  }

  // ---------- the selector ----------

  /** A label that is missing reads as the empty string. */
  function Label(h: Host, name: string): string {
    if name in h.labels then h.labels[name] else ""
  }

  ghost predicate Matches(h: Host, selector: map<string, string>) {
    forall k :: k in selector ==> Label(h, k) == selector[k]
  }

  ghost function Eligible(hosts: seq<Host>, selector: map<string, string>): seq<Host> {
    if hosts == [] then []
    else
      var n := |hosts| - 1;
      Eligible(hosts[..n], selector) + (if Matches(hosts[n], selector) then [hosts[n]] else [])
  }

  /** The eligible hosts are those whose labels agree with the selector; a missing label agrees with the empty string. */
  lemma EligibleInLabels(hosts: seq<Host>, selector: map<string, string>)
    ensures forall h :: h in Eligible(hosts, selector) <==>
              && h in hosts
              && forall k :: k in selector ==>
                   if k in h.labels then h.labels[k] == selector[k] else selector[k] == ""
  {
    EligibleExact(hosts, selector);
  }

  lemma {:induction false} EligibleExact(hosts: seq<Host>, selector: map<string, string>)
    ensures forall h :: h in Eligible(hosts, selector) <==> h in hosts && Matches(h, selector)
  {
    if hosts != [] {
      var n := |hosts| - 1;
      EligibleExact(hosts[..n], selector);
      assert hosts == hosts[..n] + [hosts[n]];
    }
  }

  method FilterHostsBySelector(hosts: seq<Host>, selector: map<string, string>) returns (matched: seq<Host>)
    ensures matched == Eligible(hosts, selector)
  {
    matched := [];
    for i := 0 to |hosts|
      invariant matched == Eligible(hosts[..i], selector)
    {
      assert hosts[..i + 1][..i] == hosts[..i];
      var all, rest := true, selector.Keys;
      while all && rest != {}
        invariant rest <= selector.Keys
        invariant all ==> forall k :: k in selector && k !in rest ==> Label(hosts[i], k) == selector[k]
        invariant !all ==> !Matches(hosts[i], selector)
      {
        var k :| k in rest;
        if Label(hosts[i], k) != selector[k] {
          all := false;
        }
        rest := rest - {k};
      }
      if all {
        matched := matched + [hosts[i]];
      }
    }
    assert hosts[..|hosts|] == hosts;
  }

  // ---------- how many candidates ----------

  /** Division that truncates toward zero. */
  function Quotient(a: int, b: int): int
    requires b > 0
  {
    if a >= 0 then a / b else -((-a) / b)
  }

  function Min(a: int, b: int): int {
    if a < b then a else b
  }

  function Max(a: int, b: int): int {
    if a > b then a else b
  }

  function CandidateNum(percent: int, n: nat): int {
    Min(Max(1, Quotient(n * percent, 100)), n)
  }

  /** At least one and at most all, whatever the configured percentage, and otherwise the largest number within it. */
  lemma CandidateNumBounds(percent: int, n: nat)
    requires n > 0
    ensures 1 <= CandidateNum(percent, n) <= n
    ensures percent >= 100 ==> CandidateNum(percent, n) == n
    ensures CandidateNum(percent, n) > 1 ==> 100 * CandidateNum(percent, n) <= n * percent
    ensures CandidateNum(percent, n) < n ==> n * percent < 100 * CandidateNum(percent, n) + 100
  {
    if percent >= 100 {
      assert n * percent == n * 100 + n * (percent - 100);
    }
  }

  // ---------- the load report ----------

  /** One engine as the metadata centre reports it. */
  datatype Engine = Engine(ip: string, queuedReqNum: int, promptLength: int)

  ghost predicate Clamped(report: map<string, EndpointStats>) {
    forall ip :: ip in report ==> report[ip].promptLength >= 0
  }

  /** Of several entries for one address the last one counts; a negative prompt length reads as 0. */
  method QueryLoad(engines: seq<Engine>) returns (report: map<string, EndpointStats>)
    ensures Clamped(report)
    ensures report.Keys == set i | 0 <= i < |engines| :: engines[i].ip
    ensures forall i :: 0 <= i < |engines| && (forall j :: i < j < |engines| ==> engines[j].ip != engines[i].ip) ==>
              report[engines[i].ip] == EndpointStats(engines[i].queuedReqNum, Max(engines[i].promptLength, 0))
  {
    report := map[];
    for n := 0 to |engines|
      invariant Clamped(report)
      invariant report.Keys == set i | 0 <= i < n :: engines[i].ip
      invariant forall i :: 0 <= i < n && (forall j :: i < j < n ==> engines[j].ip != engines[i].ip) ==>
                  report[engines[i].ip] == EndpointStats(engines[i].queuedReqNum, Max(engines[i].promptLength, 0))
    {
      var promptLength := engines[n].promptLength;
      if promptLength < 0 {
        promptLength := 0;
      }
      report := report[engines[n].ip := EndpointStats(engines[n].queuedReqNum, promptLength)];
    }
  }

  // ---------- candidates ----------

  /** An endpoint the metadata centre says nothing about counts as idle. */
  function StatsOf(report: map<string, EndpointStats>, h: Host): EndpointStats {
    if h.ip in report then report[h.ip] else EndpointStats(0, 0)
  }

  function Rate(cache: map<string, real>, h: Host): real {
    if h.ip in cache then cache[h.ip] else 0.0
  }

  function Loads(report: map<string, EndpointStats>, hosts: seq<Host>): seq<Option<EndpointStats>> {
    seq(|hosts|, i requires 0 <= i < |hosts| => Some(StatsOf(report, hosts[i])))
  }

  /** With a clamped report both loads of every host are fractions. */
  lemma HostLoadsAreFractions(report: map<string, EndpointStats>, hosts: seq<Host>, s: Spread, i: nat)
    requires Clamped(report) && SpreadOf(Loads(report, hosts), s) && i < |hosts|
    ensures 0.0 <= RequestLoad(s, Some(StatsOf(report, hosts[i]))) <= 1.0
    ensures 0.0 <= PrefillLoad(s, Some(StatsOf(report, hosts[i]))) <= 1.0
  {
    LoadsAreFractions(Loads(report, hosts), s, i);
  }

  /** What the balancer knows when it scores hosts. */
  datatype Knowledge = Knowledge(report: map<string, EndpointStats>, cache: map<string, real>, weights: Weights)

  function HostScore(k: Knowledge, s: Spread, h: Host): real {
    Score(k.weights, s, Some(StatsOf(k.report, h)), Rate(k.cache, h))
  }

  /** A host the metadata centre knows nothing about looks idle: no host without cached blocks beats it. */
  lemma UnknownLooksIdle(k: Knowledge, s: Spread, unknown: Host, h: Host)
    requires unknown.ip !in k.report && unknown.ip !in k.cache && h.ip !in k.cache
    requires h.ip in k.report ==> k.report[h.ip].totalReqs >= 0 && k.report[h.ip].promptLength >= 0
    requires k.weights.cache >= 0 && k.weights.request >= 0 && k.weights.prefill >= 0
    ensures HostScore(k, s, unknown) >= HostScore(k, s, h)
    ensures h.ip !in k.report ==> HostScore(k, s, unknown) == HostScore(k, s, h)
  {
    var rate := Rate(k.cache, h);
    assert rate == 0.0 && Rate(k.cache, unknown) == 0.0;
    BetterNeverScoresLower(k.weights, s, StatsOf(k.report, unknown), rate, StatsOf(k.report, h), rate);
  }

  /** What two reported hosts' scores differ by, in the reported numbers and cached rates. */
  lemma HostScoreDifference(k: Knowledge, s: Spread, h: Host, g: Host, d: real, c: int)
    requires h.ip in k.report && g.ip in k.report
    requires d == (if s.maxQueue - s.minQueue < 2.0 then 2.0 else s.maxQueue - s.minQueue)
    requires 5.0 * (c - 1) as real < d <= 5.0 * c as real
    ensures var hRate := if h.ip in k.cache then k.cache[h.ip] else 0.0;
            var gRate := if g.ip in k.cache then k.cache[g.ip] else 0.0;
            HostScore(k, s, h) - HostScore(k, s, g) ==
            k.weights.cache as real * (hRate - gRate)
            + k.weights.request as real * c as real *
              ((k.report[g.ip].totalReqs - k.report[h.ip].totalReqs) as real / d)
            + k.weights.prefill as real *
              ((k.report[g.ip].promptLength - k.report[h.ip].promptLength) as real / s.maxPrompt as real)
  {
    hide Score;
    ScoreDifference(k.weights, s, k.report[h.ip], Rate(k.cache, h), k.report[g.ip], Rate(k.cache, g), d, c);
  }

  /** The bounds of a cluster, in the reported numbers: they hold for every host, an unknown one counting as idle, and
      the largest queue is 0 or some host's. */
  lemma HostBounds(report: map<string, EndpointStats>, hosts: seq<Host>, s: Spread, i: nat)
    requires SpreadOf(Loads(report, hosts), s) && i < |hosts|
    ensures var ip := hosts[i].ip;
            if ip in report
            then s.minQueue <= report[ip].totalReqs as real <= s.maxQueue && report[ip].promptLength <= s.maxPrompt
            else s.minQueue <= 0.0
    ensures s.maxQueue != 0.0 ==>
              exists j :: 0 <= j < |hosts| && hosts[j].ip in report && report[hosts[j].ip].totalReqs as real == s.maxQueue
    ensures exists j :: 0 <= j < |hosts| &&
              s.minQueue == if hosts[j].ip in report then report[hosts[j].ip].totalReqs as real else 0.0
  {
    var load := Loads(report, hosts);
    assert Reported(load, i);
    assert HoldsQueue(load, s.minQueue);
    var j :| Reported(load, j) && load[j].value.totalReqs as real == s.minQueue;
    assert 0 <= j < |hosts|;
    if s.maxQueue != 0.0 {
      var m :| Reported(load, m) && load[m].value.totalReqs as real == s.maxQueue;
      assert 0 <= m < |hosts|;
    }
  }

  ghost predicate ByScore(k: Knowledge, s: Spread, hosts: seq<Host>) {
    forall i, j :: 0 <= i < j < |hosts| ==> HostScore(k, s, hosts[i]) >= HostScore(k, s, hosts[j])
  }

  /** How many of the hosts score strictly higher than x. */
  ghost function Higher(k: Knowledge, s: Spread, hosts: seq<Host>, x: real): nat {
    if hosts == [] then 0
    else
      var n := |hosts| - 1;
      Higher(k, s, hosts[..n], x) + (if HostScore(k, s, hosts[n]) > x then 1 else 0)
  }

  lemma {:induction false} HigherAppend(k: Knowledge, s: Spread, a: seq<Host>, b: seq<Host>, x: real)
    ensures Higher(k, s, a + b, x) == Higher(k, s, a, x) + Higher(k, s, b, x)
  {
    if b == [] {
      assert a + b == a;
    } else {
      var n := |b| - 1;
      assert (a + b)[..|a| + n] == a + b[..n];
      HigherAppend(k, s, a, b[..n], x);
    }
  }

  lemma Found<T>(all: seq<T>, x: T) returns (front: seq<T>, back: seq<T>)
    requires x in multiset(all)
    ensures all == front + [x] + back && multiset(front + back) == multiset(all) - multiset{x}
  {
    var j :| 0 <= j < |all| && all[j] == x;
    front, back := all[..j], all[j + 1..];
    assert all == front + [x] + back;
  }

  lemma Head<T>(all: seq<T>)
    requires all != []
    ensures [] + [all[0]] + all[1..] == all && all[0] in multiset(all)
    ensures multiset(all[1..]) == multiset(all) - multiset{all[0]}
  {
    assert [all[0]] + all[1..] == all;
  }

  lemma HigherSpliced(k: Knowledge, s: Spread, front: seq<Host>, h: Host, back: seq<Host>, x: real)
    ensures Higher(k, s, front + [h] + back, x) ==
            Higher(k, s, front + back, x) + (if HostScore(k, s, h) > x then 1 else 0)
  {
    HigherAppend(k, s, front, back, x);
    HigherAppend(k, s, front, [h], x);
    HigherAppend(k, s, front + [h], back, x);
  }

  /** The order of the hosts does not matter. */
  lemma {:induction false} HigherPermuted(k: Knowledge, s: Spread, a: seq<Host>, b: seq<Host>, x: real)
    requires multiset(a) == multiset(b)
    ensures Higher(k, s, a, x) == Higher(k, s, b, x)
    decreases |a|
  {
    hide Higher, HostScore;
    if a == [] {
      assert |b| == |multiset(b)| == 0;
    } else {
      var (h, rest) := (a[0], a[1..]);
      Head(a);
      var front, back := Found(b, h);
      HigherPermuted(k, s, rest, front + back, x);
      HigherSpliced(k, s, [], h, rest, x);
      assert [] + rest == rest;
      HigherSpliced(k, s, front, h, back, x);
    }
  }

  lemma {:induction false} NoneHigher(k: Knowledge, s: Spread, hosts: seq<Host>, x: real)
    requires forall i :: 0 <= i < |hosts| ==> HostScore(k, s, hosts[i]) <= x
    ensures Higher(k, s, hosts, x) == 0
  {
    hide HostScore;
    if hosts != [] {
      NoneHigher(k, s, hosts[..|hosts| - 1], x);
    }
  }

  lemma {:induction false} AllHigher(k: Knowledge, s: Spread, hosts: seq<Host>, x: real)
    requires forall i :: 0 <= i < |hosts| ==> HostScore(k, s, hosts[i]) > x
    ensures Higher(k, s, hosts, x) == |hosts|
  {
    hide HostScore;
    if hosts != [] {
      AllHigher(k, s, hosts[..|hosts| - 1], x);
    }
  }

  lemma {:induction false} HigherAtMost(k: Knowledge, s: Spread, hosts: seq<Host>, x: real)
    ensures Higher(k, s, hosts, x) <= |hosts|
  {
    hide HostScore;
    if hosts != [] {
      HigherAtMost(k, s, hosts[..|hosts| - 1], x);
    }
  }

  /** In a list ordered by score, at most i hosts score higher than the one at position i. */
  lemma FewScoreHigher(k: Knowledge, s: Spread, order: seq<Host>, i: nat)
    requires ByScore(k, s, order) && i < |order|
    ensures Higher(k, s, order, HostScore(k, s, order[i])) <= i
  {
    hide HostScore, Higher;
    var (x, front, back) := (HostScore(k, s, order[i]), order[..i], order[i..]);
    assert order == front + back;
    HigherAppend(k, s, front, back, x);
    HigherAtMost(k, s, front, x);
    forall j | 0 <= j < |back|
      ensures HostScore(k, s, back[j]) <= x
    {
      assert back[j] == order[i + j];
    }
    NoneHigher(k, s, back, x);
  }

  lemma ManyScoreHigher(k: Knowledge, s: Spread, order: seq<Host>, i: nat, x: real)
    requires ByScore(k, s, order) && i < |order| && HostScore(k, s, order[i]) > x
    ensures Higher(k, s, order, x) > i
  {
    hide HostScore, Higher;
    var (front, back) := (order[..i + 1], order[i + 1..]);
    assert order == front + back;
    HigherAppend(k, s, front, back, x);
    forall j | 0 <= j < |front|
      ensures HostScore(k, s, front[j]) > x
    {
      assert front[j] == order[j];
    }
    AllHigher(k, s, front, x);
  }

  /** However the unstable sort breaks ties, the candidates' scores are the same. */
  lemma TiesDoNotMatter(k: Knowledge, s: Spread, a: seq<Host>, b: seq<Host>, i: nat)
    requires ByScore(k, s, a) && ByScore(k, s, b) && multiset(a) == multiset(b) && i < |a| && i < |b|
    ensures HostScore(k, s, a[i]) == HostScore(k, s, b[i])
  {
    var (x, y) := (HostScore(k, s, a[i]), HostScore(k, s, b[i]));
    HigherPermuted(k, s, a, b, x);
    HigherPermuted(k, s, a, b, y);
    FewScoreHigher(k, s, a, i);
    FewScoreHigher(k, s, b, i);
    if x > y {
      ManyScoreHigher(k, s, a, i, y);
    } else if y > x {
      ManyScoreHigher(k, s, b, i, x);
    }
  }

  /** One of the first num hosts of any ordering by score: fewer than num eligible hosts beat it. */
  lemma CandidatesAreTheBest(k: Knowledge, s: Spread, hosts: seq<Host>, order: seq<Host>, num: nat, i: nat)
    requires ByScore(k, s, order) && multiset(order) == multiset(hosts) && i < num <= |order|
    ensures Higher(k, s, hosts, HostScore(k, s, order[i])) < num && order[i] in hosts
  {
    FewScoreHigher(k, s, order, i);
    HigherPermuted(k, s, hosts, order, HostScore(k, s, order[i]));
    assert order[i] in multiset(order);
  }

  // ---------- scoring in place ----------

  function LoadsOf(ws: seq<EndpointStatsWrapper>): seq<Option<EndpointStats>> {
    seq(|ws|, i requires 0 <= i < |ws| => ws[i].stats)
  }

  function HostsOf(ws: seq<EndpointStatsWrapper>): seq<Host> {
    seq(|ws|, i requires 0 <= i < |ws| => ws[i].host)
  }

  ghost predicate Scored(w: Weights, s: Spread, cache: map<string, real>, e: EndpointStatsWrapper)
    reads e
  {
    && e.cacheHitRate == Rate(cache, e.host)
    && e.requestLoad == RequestLoad(s, e.stats)
    && e.prefillLoad == PrefillLoad(s, e.stats)
    && e.score == Score(w, s, e.stats, e.cacheHitRate)
  }

  method MergeCacheStats(load: seq<EndpointStatsWrapper>, cache: map<string, real>, w: Weights)
    returns (ghost s: Spread)
    modifies load
    ensures SpreadOf(LoadsOf(load), s)
    ensures forall i :: 0 <= i < |load| ==> Scored(w, s, cache, load[i])
  {
    var spread := FindSpread(LoadsOf(load));
    s := spread;
    var requestLoadWeight := RequestWeight(w, spread);
    for i := 0 to |load|
      invariant forall k :: 0 <= k < i ==> Scored(w, s, cache, load[k])
    {
      var e := load[i];
      e.cacheHitRate := 0.0;
      if e.host.ip in cache {
        e.cacheHitRate := cache[e.host.ip];
      }
      e.requestLoad, e.prefillLoad := 1.0, 0.0;
      if e.stats.Some? {
        e.requestLoad := Ratio(e.stats.value.totalReqs as real - spread.minQueue, Delta(spread));
        e.prefillLoad := Ratio(e.stats.value.promptLength as real, spread.maxPrompt as real);
      }
      e.score := Times(w.cache as real, e.cacheHitRate) - Times(requestLoadWeight, e.requestLoad)
                 - Times(w.prefill as real, e.prefillLoad);
    }
  }

  ghost predicate Descending(ws: seq<EndpointStatsWrapper>)
    reads ws
  {
    forall i, j :: 0 <= i < j < |ws| ==> ws[i].score >= ws[j].score
  }

  lemma Spliced<T>(order: seq<T>, at: nat, x: T)
    requires at <= |order|
    ensures multiset(order[..at] + [x] + order[at..]) == multiset(order) + multiset{x}
  {
    assert order == order[..at] + order[at..];
  }

  /** x goes behind everything that scores at least as high. */
  lemma Inserted(order: seq<EndpointStatsWrapper>, at: nat, x: EndpointStatsWrapper)
    requires Descending(order) && at <= |order|
    requires at > 0 ==> order[at - 1].score >= x.score
    requires forall k :: at <= k < |order| ==> order[k].score < x.score
    ensures Descending(order[..at] + [x] + order[at..])
  {
    var longer := order[..at] + [x] + order[at..];
    assert forall k :: 0 <= k < at ==> longer[k] == order[k] && order[k].score >= order[at - 1].score;
    assert forall k :: at < k < |longer| ==> longer[k] == order[k - 1];
  }

  /** Any sort will do: callers rely only on the order and on nothing being lost. */
  method SortByScore(ws: seq<EndpointStatsWrapper>) returns (order: seq<EndpointStatsWrapper>)
    ensures Descending(order) && multiset(order) == multiset(ws)
  {
    hide Descending;
    order := [];
    NothingToSort();
    for i := 0 to |ws|
      invariant Descending(order) && multiset(order) == multiset(ws[..i])
    {
      var at := |order|;
      while at > 0 && order[at - 1].score < ws[i].score
        invariant 0 <= at <= |order|
        invariant forall k :: at <= k < |order| ==> order[k].score < ws[i].score
      {
        at := at - 1;
      }
      Inserted(order, at, ws[i]);
      Spliced(order, at, ws[i]);
      assert ws[..i + 1] == ws[..i] + [ws[i]];
      order := order[..at] + [ws[i]] + order[at..];
    }
    assert ws[..|ws|] == ws;
  }

  lemma NothingToSort()
    ensures Descending([])
  {
  }

  lemma HostsSpliced(front: seq<EndpointStatsWrapper>, e: EndpointStatsWrapper, back: seq<EndpointStatsWrapper>)
    ensures multiset(HostsOf(front + [e] + back)) == multiset(HostsOf(front + back)) + multiset{e.host}
  {
    assert HostsOf(front + [e] + back) == HostsOf(front) + [e.host] + HostsOf(back);
    assert HostsOf(front + back) == HostsOf(front) + HostsOf(back);
  }

  lemma {:induction false} SameHosts(a: seq<EndpointStatsWrapper>, b: seq<EndpointStatsWrapper>)
    requires multiset(a) == multiset(b)
    ensures multiset(HostsOf(a)) == multiset(HostsOf(b))
    decreases |a|
  {
    hide HostsOf;
    if a == [] {
      assert |b| == |multiset(b)| == 0;
    } else {
      var (e, rest) := (a[0], a[1..]);
      Head(a);
      var front, back := Found(b, e);
      SameHosts(rest, front + back);
      HostsSpliced([], e, rest);
      assert [] + rest == rest;
      HostsSpliced(front, e, back);
    }
  }

  /** Scoring objects and scoring hosts is the same. */
  lemma OrderOfHosts(k: Knowledge, s: Spread, order: seq<EndpointStatsWrapper>)
    requires Descending(order)
    requires forall i :: 0 <= i < |order| ==>
               order[i].score == HostScore(k, s, order[i].host)
    ensures ByScore(k, s, HostsOf(order))
  {
    hide HostScore;
  }

  /** A wrapper for each host, in the hosts' order. */
  method WrapHosts(hosts: seq<Host>, report: map<string, EndpointStats>) returns (ws: seq<EndpointStatsWrapper>)
    ensures forall i :: 0 <= i < |ws| ==> fresh(ws[i])
    ensures HostsOf(ws) == hosts && LoadsOf(ws) == Loads(report, hosts)
  {
    ws := [];
    for i := 0 to |hosts|
      invariant |ws| == i && forall k :: 0 <= k < i ==>
                  fresh(ws[k]) && ws[k].host == hosts[k] && ws[k].stats == Some(StatsOf(report, hosts[k]))
    {
      var e := new EndpointStatsWrapper(hosts[i], Some(StatsOf(report, hosts[i])));
      ws := ws + [e];
    }
  }

  /** Without a report all hosts are candidates; with one, the candidates are the first num hosts of some ordering
      by score. */
  method GetCandidateByStats(hosts: seq<Host>, report: Option<map<string, EndpointStats>>, cache: map<string, real>,
      w: Weights, num: nat)
    returns (res: seq<Host>, ghost s: Spread, ghost order: seq<Host>)
    requires num <= |hosts|
    ensures report.None? ==> res == hosts
    ensures report.Some? ==>
              && SpreadOf(Loads(report.value, hosts), s)
              && multiset(order) == multiset(hosts)
              && ByScore(Knowledge(report.value, cache, w), s, order)
              && num <= |order| && res == order[..num]
  {
    if report.None? {
      s, order := Spread(0.0, 0.0, SMALLEST_MAX_PROMPT), [];
      return hosts, s, order;
    }
    ghost var k := Knowledge(report.value, cache, w);
    var ws := WrapHosts(hosts, report.value);
    s := MergeCacheStats(ws, cache, w);
    forall i | 0 <= i < |ws|
      ensures ws[i].score == HostScore(k, s, ws[i].host)
    {
      assert Scored(w, s, cache, ws[i]) && LoadsOf(ws)[i] == Loads(report.value, hosts)[i] && HostsOf(ws)[i] == hosts[i];
    }
    var sorted := SortByScore(ws);
    order := HostsOf(sorted);
    SameHosts(sorted, ws);
    forall i | 0 <= i < |sorted|
      ensures sorted[i].score == HostScore(k, s, sorted[i].host)
    {
      assert sorted[i] in multiset(sorted);
      assert sorted[i] in multiset(ws);
    }
    OrderOfHosts(k, s, sorted);
    assert |order| == |multiset(order)| == |multiset(hosts)| == |hosts|;
    res := [];
    for i := 0 to num
      invariant res == order[..i]
    {
      res := res + [sorted[i].host];
    }
  }

  /** The host served: it matches the selector, there is none only when nothing matches, and when the balancer knows
      the load, fewer eligible hosts than there are candidates score strictly higher. */
  method ChooseHost(hosts: seq<Host>, selector: map<string, string>, loadAware: bool, percent: int,
      report: Option<map<string, EndpointStats>>, cache: map<string, real>, w: Weights)
    returns (choice: Option<Host>, ghost s: Spread)
    ensures choice.None? <==> forall h :: h in hosts ==> !Matches(h, selector)
    ensures choice.Some? ==> choice.value in hosts && Matches(choice.value, selector)
    ensures choice.Some? && loadAware && report.Some? ==>
              var (k, eligible) := (Knowledge(report.value, cache, w), Eligible(hosts, selector));
              && SpreadOf(Loads(report.value, eligible), s)
              && Higher(k, s, eligible, HostScore(k, s, choice.value)) < CandidateNum(percent, |eligible|)
  {
    hide Eligible, HostScore, Higher, Matches, SpreadOf, CandidateNum, ByScore;
    s := Spread(0.0, 0.0, SMALLEST_MAX_PROMPT);
    EligibleExact(hosts, selector);
    var candidateHosts := hosts;
    if |selector| > 0 {
      candidateHosts := FilterHostsBySelector(hosts, selector);
    } else {
      NoSelector(hosts, selector);
    }
    if |candidateHosts| == 0 {
      return None, s;
    }
    var chosen := candidateHosts;
    ghost var order: seq<Host>;
    CandidateNumBounds(percent, |candidateHosts|);
    var num := CandidateNum(percent, |candidateHosts|);
    if loadAware {
      chosen, s, order := GetCandidateByStats(candidateHosts, report, cache, w, num);
    }
    var i :| 0 <= i < |chosen|;
    choice := Some(chosen[i]);
    if loadAware && report.Some? {
      CandidatesAreTheBest(Knowledge(report.value, cache, w), s, candidateHosts, order, num, i);
    }
    assert choice.value in candidateHosts;
  }

  lemma {:induction false} NoSelector(hosts: seq<Host>, selector: map<string, string>)
    requires selector == map[]
    ensures Eligible(hosts, selector) == hosts
  {
    if hosts != [] {
      NoSelector(hosts[..|hosts| - 1], selector);
    }
  }
}
