/** The known hosts of the metadata centre, each behind a breaker: lookups, host selection, failover. */
module Discovery {
  import opened Arithmetic
  import opened Options
  import opened StringOrder
  import CB = CircuitBreaker

  datatype Node = Node(discoveredAt: int, breaker: CB.CountingCircuitBreaker)

  datatype Config = Config(coldStartDelay: int, breaker: CB.Config)

  // ---------- host selection on values ----------

  /** The hosts whose breakers allow a request now. */
  ghost function AllowedHosts(cfg: Config, b: map<string, CB.Fields>, now: int): (r: set<string>)
    ensures r <= b.Keys
  {
    set h | h in b && CB.Allowed(cfg.breaker, b[h], now)
  }

  predicate IsCold(cfg: Config, discoveredAt: int, now: int) {
    cfg.coldStartDelay > 0 && now - discoveredAt < cfg.coldStartDelay
  }

  ghost function WarmHosts(cfg: Config, allowed: set<string>, at: map<string, int>, now: int): (r: set<string>)
    requires allowed <= at.Keys
    ensures r <= allowed
  {
    set h | h in allowed && !IsCold(cfg, at[h], now)
  }

  lemma AllowedAndWarm(cfg: Config, b: map<string, CB.Fields>, at: map<string, int>, now: int, h: string)
    requires b.Keys == at.Keys && h in b
    ensures var allowed := AllowedHosts(cfg, b, now);
            && (h in allowed <==> CB.Allowed(cfg.breaker, b[h], now))
            && (h in WarmHosts(cfg, allowed, at, now) <==> h in allowed && !IsCold(cfg, at[h], now))
  {
  }

  /** The allowed warm hosts, or all allowed ones when none is warm. */
  ghost function Available(cfg: Config, b: map<string, CB.Fields>, at: map<string, int>, now: int): (r: set<string>)
    requires b.Keys == at.Keys
    ensures r <= b.Keys
  {
    var allowed := AllowedHosts(cfg, b, now);
    var warm := WarmHosts(cfg, allowed, at, now);
    if warm != {} then warm else allowed
  }

  /** In times: when some allowed host is at least as old as a positive cold-start delay, the hosts offered are exactly
      the allowed ones that old; otherwise they are all allowed hosts. */
  lemma AvailableByAge(cfg: Config, b: map<string, CB.Fields>, at: map<string, int>, now: int)
    requires b.Keys == at.Keys
    ensures var someOld := exists h :: h in b && CB.Allowed(cfg.breaker, b[h], now) && now - at[h] >= cfg.coldStartDelay;
            forall h :: h in Available(cfg, b, at, now) <==>
              && h in b && CB.Allowed(cfg.breaker, b[h], now)
              && (cfg.coldStartDelay > 0 && someOld ==> now - at[h] >= cfg.coldStartDelay)
  {
    hide CB.Allowed;
    var (allowed, warm) := (AllowedHosts(cfg, b, now), WarmHosts(cfg, AllowedHosts(cfg, b, now), at, now));
    if h :| h in b && CB.Allowed(cfg.breaker, b[h], now) && now - at[h] >= cfg.coldStartDelay {
      assert h in warm;
    } else if cfg.coldStartDelay > 0 {
      assert forall h :: h in allowed ==> h !in warm;
    }
  }

  /** A host that was old enough stays old enough, so time passing never takes an allowed warm host away. */
  lemma WarmStaysWarm(cfg: Config, b: map<string, CB.Fields>, at: map<string, int>, now: int, later: int, h: string)
    requires b.Keys == at.Keys && now <= later
    requires h in b && now - at[h] >= cfg.coldStartDelay && CB.Allowed(cfg.breaker, b[h], later)
    ensures h in Available(cfg, b, at, later)
  {
    AvailableByAge(cfg, b, at, later);
  }

  /** n entries of a ring, from position start on. */
  function Window(ring: seq<string>, start: nat, n: nat): (r: seq<string>)
    requires ring != [] && n <= |ring|
    ensures |r| == n
  {
    seq(n, i requires 0 <= i => ring[(start + i) % |ring|])
  }

  lemma IsWindow(ring: seq<string>, start: nat, n: nat, s: seq<string>)
    requires ring != [] && n <= |ring| && |s| == n && forall j :: 0 <= j < n ==> s[j] == ring[(start + j) % |ring|]
    ensures s == Window(ring, start, n)
  {
  }

  lemma Wrap(start: nat, i: nat, k: nat)
    requires start < k && i < k
    ensures (start + i) % k == if start + i < k then start + i else start + i - k
  {
    var (n, q) := (start + i, (start + i) / k);
    assert n == k * q + n % k;
    if q >= 2 {
      MultipleGrows(k, 2, q);
    } else if q < 0 {
      MultipleGrows(k, q, -1);
    }
    assert q == 0 || q == 1;
    assert k * 0 == 0 && k * 1 == k;
  }

  /** A window does not repeat entries of a duplicate-free ring. */
  lemma WindowDistinct(ring: seq<string>, start: nat, n: nat, i: nat, j: nat)
    requires ring != [] && n <= |ring| && StrictlySorted(ring) && start < |ring| && i < j < n
    ensures Window(ring, start, n)[i] != Window(ring, start, n)[j]
  {
    var k := |ring|;
    var (p, q) := ((start + i) % k, (start + j) % k);
    Wrap(start, i, k);
    Wrap(start, j, k);
    LessIrreflexive(ring[p]);
    LessIrreflexive(ring[q]);
    if p < q {
      assert Less(ring[p], ring[q]);
    } else {
      assert Less(ring[q], ring[p]);
    }
  }

  // ---------- the service ----------

  class ServiceDiscovery {
    const config: Config
    const hash: string -> nat
    var nodeMap: map<string, Node>

    constructor (config: Config, hash: string -> nat)
      ensures Valid() && nodeMap == map[] && this.config == config && this.hash == hash
    {
      this.config := config;
      this.hash := hash;
      nodeMap := map[];
    }

    ghost function Breakers(): set<CB.CountingCircuitBreaker>
      reads this
    {
      set h | h in nodeMap :: nodeMap[h].breaker
    }

    /** Hosts do not share breakers, and all breakers have the service's limits. */
    ghost predicate Valid()
      reads this
    {
      && (forall g, h :: g in nodeMap && h in nodeMap && g != h ==> nodeMap[g].breaker != nodeMap[h].breaker)
      && (forall h :: h in nodeMap ==> nodeMap[h].breaker.config == config.breaker)
    }

    ghost function States(): map<string, CB.Fields>
      reads this, Breakers()
    {
      map h | h in nodeMap :: nodeMap[h].breaker.Value()
    }

    ghost function Ages(): map<string, int>
      reads this
    {
      map h | h in nodeMap :: nodeMap[h].discoveredAt
    }

    /** One DNS answer; None is a failed lookup. Afterwards exactly the resolved hosts are known; a host known
        before keeps its breaker object, that breaker's state and its discovery time; a new one starts afresh. */
    method DnsLookUp(hosts: Option<seq<string>>, now: int)
      requires Valid()
      modifies this`nodeMap
      ensures Valid()
      ensures hosts.None? ==> nodeMap == old(nodeMap)
      ensures hosts.Some? ==> nodeMap.Keys == Elements(hosts.value)
      ensures hosts.Some? ==> forall h :: h in nodeMap ==>
                if h in old(nodeMap) then nodeMap[h] == old(nodeMap[h])
                else fresh(nodeMap[h].breaker) && nodeMap[h].breaker.Value() == CB.FRESH && nodeMap[h].discoveredAt == now
      ensures forall b :: b in old(Breakers()) ==> b.Value() == old(b.Value())
    {
      if hosts.None? {
        return;
      }
      var newHosts: set<string> := {};
      for i := 0 to |hosts.value|
        invariant newHosts == Elements(hosts.value[..i])
        invariant Valid() && nodeMap.Keys == old(nodeMap).Keys + newHosts
        invariant forall h :: h in old(nodeMap) ==> nodeMap[h] == old(nodeMap[h])
        invariant forall h :: h in nodeMap && h !in old(nodeMap) ==>
                    fresh(nodeMap[h].breaker) && nodeMap[h].breaker.Value() == CB.FRESH && nodeMap[h].discoveredAt == now
        invariant forall b :: b in old(Breakers()) ==> b.Value() == old(b.Value())
      {
        var hostStr := hosts.value[i];
        assert hosts.value[..i + 1] == hosts.value[..i] + [hostStr];
        newHosts := newHosts + {hostStr};
        if hostStr !in nodeMap {
          var breaker := new CB.CountingCircuitBreaker(config.breaker);
          nodeMap := nodeMap[hostStr := Node(now, breaker)];
        }
      }
      assert hosts.value[..|hosts.value|] == hosts.value;
      nodeMap := map h | h in nodeMap && h in newHosts :: nodeMap[h];
    }

    /** Every breaker is asked once, in whatever order the map yields; asking may move it to half-open. */
    method AskBreakers(now: int) returns (warmHosts: seq<string>, coldHosts: seq<string>)
      requires Valid()
      modifies Breakers()
      ensures var allowed := AllowedHosts(config, old(States()), now);
              var warm := WarmHosts(config, allowed, old(Ages()), now);
              Elements(warmHosts) == warm && Elements(coldHosts) == allowed - warm
      ensures NoDuplicates(warmHosts) && NoDuplicates(coldHosts)
      ensures forall h :: h in nodeMap ==>
                nodeMap[h].breaker.Value() == CB.Next(config.breaker, old(nodeMap[h].breaker.Value()), CB.Allow(now))
    {
      hide CB.Next, CB.Allowed, AllowedHosts, WarmHosts, IsCold, Elements, NoDuplicates;
      ghost var was := States();
      ghost var allowed := AllowedHosts(config, was, now);
      ghost var warm := WarmHosts(config, allowed, Ages(), now);
      NothingListed();
      warmHosts, coldHosts := [], [];
      var rest := nodeMap.Keys;
      while rest != {}
        invariant rest <= nodeMap.Keys
        invariant Elements(warmHosts) == warm - rest
        invariant Elements(coldHosts) == allowed - warm - rest
        invariant NoDuplicates(warmHosts) && NoDuplicates(coldHosts)
        invariant forall h :: h in rest ==> nodeMap[h].breaker.Value() == was[h]
        invariant forall h :: h in nodeMap && h !in rest ==>
                    nodeMap[h].breaker.Value() == CB.Next(config.breaker, was[h], CB.Allow(now))
        decreases rest
      {
        var host :| host in rest;
        var ok, cold := Ask(host, now);
        AllowedAndWarm(config, was, Ages(), now, host);
        rest := rest - {host};
        if ok {
          if cold {
            Appended(coldHosts, host);
            coldHosts := coldHosts + [host];
          } else {
            Appended(warmHosts, host);
            warmHosts := warmHosts + [host];
          }
        }
      }
    }

    /** One host's breaker is asked; the other breakers stay as they are. */
    method Ask(host: string, now: int) returns (ok: bool, cold: bool)
      requires Valid() && host in nodeMap
      modifies Breakers()
      ensures ok == CB.Allowed(config.breaker, old(nodeMap[host].breaker.Value()), now)
      ensures cold == IsCold(config, nodeMap[host].discoveredAt, now)
      ensures nodeMap[host].breaker.Value() ==
              CB.Next(config.breaker, old(nodeMap[host].breaker.Value()), CB.Allow(now))
      ensures forall h :: h in nodeMap && h != host ==>
                nodeMap[h].breaker.Value() == old(nodeMap[h].breaker.Value())
    {
      hide CB.Next, CB.Allowed;
      var node := nodeMap[host];
      assert node.breaker in Breakers();
      ok := node.breaker.Allow(now);
      cold := IsCold(config, node.discoveredAt, now);
    }

    /** The hosts a request may use now, in no particular order. */
    method GetAvailableHosts(now: int) returns (hosts: seq<string>)
      requires Valid()
      modifies Breakers()
      ensures Elements(hosts) == Available(config, old(States()), old(Ages()), now)
      ensures NoDuplicates(hosts)
      ensures forall h :: h in nodeMap ==>
                nodeMap[h].breaker.Value() == CB.Next(config.breaker, old(nodeMap[h].breaker.Value()), CB.Allow(now))
    {
      hide CB.Next, CB.Allowed;
      var warmHosts, coldHosts := AskBreakers(now);
      if |warmHosts| > 0 {
        FirstIsElement(warmHosts);
        return warmHosts;
      }
      return coldHosts;
    }

    /** Up to num hosts: `ring` is the one sorted listing of the available hosts, and the selection is the stretch
        of it that starts at the key's position. */
    method GetHosts(key: string, num: int, now: int) returns (selected: seq<string>, ghost ring: seq<string>)
      requires Valid()
      modifies Breakers()
      ensures StrictlySorted(ring) && Elements(ring) == Available(config, old(States()), old(Ages()), now)
      ensures selected == Selection(ring, hash(key), num)
      ensures forall h :: h in nodeMap ==>
                nodeMap[h].breaker.Value() == CB.Next(config.breaker, old(nodeMap[h].breaker.Value()), CB.Allow(now))
    {
      hide CB.Next, CB.Allowed, Available, Elements, StrictlySorted, Window;
      var available := GetAvailableHosts(now);
      var hosts := Sort(available);
      ring := hosts;
      if |hosts| == 0 || num <= 0 {
        return [], ring;
      }
      var hostLen := |hosts|;
      var n := if hostLen < num then hostLen else num;
      var idx := hash(key) % hostLen;
      selected := [];
      for i := 0 to n
        invariant |selected| == i && forall j :: 0 <= j < i ==> selected[j] == hosts[(idx + j) % hostLen]
      {
        selected := selected + [hosts[(idx + i) % hostLen]];
      }
      IsWindow(hosts, idx, n, selected);
    }

    method ReportSuccess(host: string)
      requires Valid()
      modifies Breakers()
      ensures forall h :: h in nodeMap ==>
                nodeMap[h].breaker.Value() ==
                var v := old(nodeMap[h].breaker.Value());
                if h == host then CB.Next(config.breaker, v, CB.Success) else v
    {
      hide CB.Next;
      if host in nodeMap {
        assert nodeMap[host].breaker in Breakers();
        nodeMap[host].breaker.RecordSuccess();
      }
    }

    method ReportFailure(host: string, now: int)
      requires Valid()
      modifies Breakers()
      ensures forall h :: h in nodeMap ==>
                nodeMap[h].breaker.Value() ==
                var v := old(nodeMap[h].breaker.Value());
                if h == host then CB.Next(config.breaker, v, CB.Failure(now)) else v
    {
      hide CB.Next;
      if host in nodeMap {
        assert nodeMap[host].breaker in Breakers();
        nodeMap[host].breaker.RecordFailure(now);
      }
    }

    /** Candidates are tried in order until one succeeds. Every tried host has exactly one outcome reported, and no
        other host has any; `send(h)` tells whether a request to h succeeds. */
    method DoRequestWithRetry(key: string, failoverRetry: int, send: string -> bool, now: int)
      returns (ok: bool, tried: seq<string>, ghost ring: seq<string>)
      requires Valid()
      modifies Breakers()
      ensures StrictlySorted(ring) && Elements(ring) == Available(config, old(States()), old(Ages()), now)
      ensures var candidates := Selection(ring, hash(key), failoverRetry + 1);
              && tried <= candidates
              && (forall i :: 0 <= i < |tried| - 1 ==> !send(tried[i]))
              && (if ok then tried != [] && send(tried[|tried| - 1])
                  else tried == candidates && forall i :: 0 <= i < |tried| ==> !send(tried[i]))
      ensures forall h :: h in nodeMap ==>
                nodeMap[h].breaker.Value() ==
                Reported(config.breaker, old(nodeMap[h].breaker.Value()), tried, send, h, now)
    {
      hide CB.Next, CB.Allowed, Selection, Available;
      var candidates;
      candidates, ring := GetHosts(key, failoverRetry + 1, now);
      SelectionDistinct(ring, hash(key), failoverRetry + 1);
      tried, ok := [], false;
      for attempt := 0 to |candidates|
        invariant tried == candidates[..attempt] && forall i :: 0 <= i < attempt ==> !send(tried[i])
        invariant forall h :: h in nodeMap ==>
                    nodeMap[h].breaker.Value() ==
                    Reported(config.breaker, old(nodeMap[h].breaker.Value()), tried, send, h, now)
      {
        var host := candidates[attempt];
        assert host !in candidates[..attempt];
        tried := tried + [host];
        if send(host) {
          ReportSuccess(host);
          return true, tried, ring;
        }
        ReportFailure(host, now);
      }
    }
  }

  /** The state of host h's breaker after it was asked and, if h was tried, after its one outcome was reported. */
  ghost function Reported(cfg: CB.Config, was: CB.Fields, tried: seq<string>, send: string -> bool,
                          h: string, now: int): CB.Fields
  {
    var asked := CB.Next(cfg, was, CB.Allow(now));
    if h !in tried then asked
    else CB.Next(cfg, asked, if send(h) then CB.Success else CB.Failure(now))
  }

  /** What is reported of a request, in terms of the breaker: nothing for a host that was not tried; a success clears
      the failures of a closed breaker and never opens one; a failure counts, carries the time, and reopens a half-open
      breaker. */
  lemma ReportedOutcome(cfg: CB.Config, was: CB.Fields, tried: seq<string>, send: string -> bool, h: string, now: int)
    ensures var (asked, r) := (CB.Next(cfg, was, CB.Allow(now)), Reported(cfg, was, tried, send, h, now));
            && (h !in tried ==> r == asked)
            && (h in tried && send(h) ==>
                  && r.lastFailureTime == was.lastFailureTime
                  && (asked.mode == CB.Closed ==> r.mode == CB.Closed && r.failureCount == 0)
                  && (asked.mode == CB.HalfOpen ==> r.mode != CB.Open)
                  && (asked.mode == CB.Open ==> r == asked))
            && (h in tried && !send(h) ==>
                  && r.lastFailureTime == now
                  && (asked.mode == CB.HalfOpen ==> r.mode == CB.Open)
                  && (asked.mode == CB.Closed ==>
                        if was.failureCount + 1 >= cfg.maxFailures then r.mode == CB.Open
                        else r.mode == CB.Closed && r.failureCount == was.failureCount + 1))
  {
  }

  /** Which hosts a key selects from the sorted listing of the available hosts. */
  function Selection(ring: seq<string>, hash: nat, num: int): (r: seq<string>) {
    if ring == [] || num <= 0 then []
    else Window(ring, hash % |ring|, if |ring| < num then |ring| else num)
  }

  /** The selected hosts are distinct, available, and as many as asked for and available. */
  lemma SelectionDistinct(ring: seq<string>, hash: nat, num: int)
    requires StrictlySorted(ring)
    ensures var r := Selection(ring, hash, num);
            && NoDuplicates(r)
            && Elements(r) <= Elements(ring)
            && |r| == if num <= 0 then 0 else if |ring| < num then |ring| else num
  {
    var r := Selection(ring, hash, num);
    if ring != [] && num > 0 {
      var k := hash % |ring|;
      forall i, j | 0 <= i < j < |r|
        ensures r[i] != r[j]
      {
        WindowDistinct(ring, k, |r|, i, j);
      }
      forall i | 0 <= i < |r|
        ensures r[i] in ring
      {
        assert r[i] == ring[(k + i) % |ring|];
      }
    }
  }

  /** Entry i of the selection is the entry of the listing at the hash plus i, wrapping around. */
  lemma SelectionAt(ring: seq<string>, hash: nat, num: int, i: nat)
    requires i < |Selection(ring, hash, num)|
    ensures ring != [] && Selection(ring, hash, num)[i] == ring[(hash + i) % |ring|]
  {
    ModuloOfSum(hash, i, |ring|);
  }

  lemma ModuloOfSum(a: nat, i: nat, n: nat)
    requires n > 0
    ensures (a % n + i) % n == (a + i) % n
  {
    var (q, r) := (a / n, a % n + i);
    var p := r / n;
    assert a + i == n * q + r && r == n * p + r % n;
    assert n * (q + p) == n * q + n * p;
    QuotientUnique(a + i, n, q + p, r % n);
  }

  /** The listing, and so the selection, depends on the available hosts only, not on any iteration order. */
  lemma SelectionIgnoresOrder(ring: seq<string>, ring': seq<string>, hash: nat, num: int)
    requires StrictlySorted(ring) && StrictlySorted(ring') && Elements(ring) == Elements(ring')
    ensures Selection(ring, hash, num) == Selection(ring', hash, num)
  {
    SortedUnique(ring, ring');
  }
}
