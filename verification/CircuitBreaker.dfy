/** The three-state circuit breaker, its counters, and what they mean in terms of the events so far. */
module CircuitBreaker {

  datatype Config = Config(maxFailures: int, cooldown: int, halfOpenRequests: int)

  datatype Mode = Closed | Open | HalfOpen

  datatype Event = Allow(now: int) | Success | Failure(now: int)

  /** The fields of a breaker. */
  datatype Fields = Fields(mode: Mode, failureCount: nat, successCount: nat, lastFailureTime: int)

  const FRESH := Fields(Closed, 0, 0, 0)

  function Allowed(cfg: Config, s: Fields, now: int): bool {
    match s.mode
    case Open => now - s.lastFailureTime > cfg.cooldown
    case HalfOpen => s.successCount < cfg.halfOpenRequests
    case Closed => true
  }

  function Next(cfg: Config, s: Fields, e: Event): Fields {
    match e
    case Allow(now) =>
      if s.mode == Open && now - s.lastFailureTime > cfg.cooldown then s.(mode := HalfOpen) else s
    case Success =>
      if s.mode == Closed then s.(failureCount := 0)
      else if s.mode == HalfOpen then
        if s.successCount + 1 >= cfg.halfOpenRequests then Fields(Closed, 0, 0, s.lastFailureTime)
        else s.(successCount := s.successCount + 1)
      else s
    case Failure(now) =>
      if (s.mode == Closed && s.failureCount + 1 >= cfg.maxFailures) || s.mode == HalfOpen then
        Fields(Open, 0, 0, now)
      else s.(failureCount := s.failureCount + 1, lastFailureTime := now)
  }

  function Run(cfg: Config, h: seq<Event>): Fields {
    if h == [] then FRESH else Next(cfg, Run(cfg, h[..|h| - 1]), h[|h| - 1])
  }

  class CountingCircuitBreaker {
    const config: Config
    var failureCount: nat
    var successCount: nat
    var lastFailureTime: int
    var state: Mode

    constructor (config: Config)
      ensures this.config == config && Value() == FRESH
    {
      this.config := config;
      failureCount, successCount, lastFailureTime, state := 0, 0, 0, Closed;
    }

    function Value(): Fields
      reads this
    {
      Fields(state, failureCount, successCount, lastFailureTime)
    }

    method Allow(now: int) returns (ok: bool)
      modifies this
      ensures ok == Allowed(config, old(Value()), now)
      ensures Value() == Next(config, old(Value()), Event.Allow(now))
    {
      match state
      case Open =>
        if now - lastFailureTime > config.cooldown {
          state := HalfOpen;
          return true;
        }
        return false;
      case HalfOpen =>
        return successCount < config.halfOpenRequests;
      case Closed =>
        return true;
    }

    method RecordSuccess()
      modifies this
      ensures Value() == Next(config, old(Value()), Success)
    {
      match state
      case Closed =>
        failureCount := 0;
      case HalfOpen =>
        successCount := successCount + 1;
        if successCount >= config.halfOpenRequests {
          state := Closed;
          ResetCounters();
        }
      case Open =>
    }

    method RecordFailure(now: int)
      modifies this
      ensures Value() == Next(config, old(Value()), Failure(now))
    {
      failureCount := failureCount + 1;
      lastFailureTime := now;
      if state == Closed && failureCount >= config.maxFailures {
        state := Open;
        ResetCounters();
        return;
      }
      if state == HalfOpen {
        state := Open;
        ResetCounters();
      }
    }

    method ResetCounters()
      modifies this`failureCount, this`successCount
      ensures failureCount == 0 && successCount == 0
    {
      failureCount, successCount := 0, 0;
    }
  }

  // ---------- the breaker described by events alone ----------

  /** Failures since the last success; calls of Allow do not matter. */
  function ConsecutiveFailures(h: seq<Event>): nat {
    if h == [] then 0
    else
      match h[|h| - 1]
      case Success => 0
      case Failure(_) => ConsecutiveFailures(h[..|h| - 1]) + 1
      case Allow(_) => ConsecutiveFailures(h[..|h| - 1])
  }

  function Successes(h: seq<Event>): nat {
    if h == [] then 0 else Successes(h[..|h| - 1]) + (if h[|h| - 1] == Success then 1 else 0)
  }

  /** The time of the last reported failure, in whatever mode it was reported. */
  function LastFailureAt(h: seq<Event>): int {
    if h == [] then FRESH.lastFailureTime
    else
      match h[|h| - 1]
      case Failure(now) => now
      case _ => LastFailureAt(h[..|h| - 1])
  }

  /** A mode, and the events since it was entered. */
  datatype Phase = Phase(mode: Mode, since: seq<Event>)

  /** The breaker without counters: mode changes are decided by looking at the events of the current phase. */
  function PhaseOf(cfg: Config, h: seq<Event>): Phase {
    if h == [] then Phase(Closed, [])
    else
      var (older, e) := (h[..|h| - 1], h[|h| - 1]);
      var Phase(mode, since) := PhaseOf(cfg, older);
      if mode == Closed && e.Failure? && ConsecutiveFailures(since + [e]) >= cfg.maxFailures then Phase(Open, [])
      else if mode == Open && e.Allow? && e.now - LastFailureAt(older) > cfg.cooldown then Phase(HalfOpen, [])
      else if mode == HalfOpen && e.Failure? then Phase(Open, [])
      else if mode == HalfOpen && e.Success? && Successes(since + [e]) >= cfg.halfOpenRequests then Phase(Closed, [])
      else Phase(mode, since + [e])
  }

  /** The counters are exactly the counts over the current phase, for every history and any limits. */
  lemma {:induction false} CountersMeanHistory(cfg: Config, h: seq<Event>)
    ensures var (s, p) := (Run(cfg, h), PhaseOf(cfg, h));
            && s.mode == p.mode
            && s.lastFailureTime == LastFailureAt(h)
            && (p.mode == Closed ==> s.failureCount == ConsecutiveFailures(p.since) && s.successCount == 0)
            && (p.mode == HalfOpen ==> s.successCount == Successes(p.since))
            && (p.mode == Open ==> s.successCount == 0)
    decreases |h|
  {
    if h != [] {
      var (older, e) := (h[..|h| - 1], h[|h| - 1]);
      CountersMeanHistory(cfg, older);
      var since := PhaseOf(cfg, older).since;
      assert (since + [e])[..|since|] == since;
    }
  }

  /** The bounds that hold inside a phase. */
  lemma {:induction false} PhaseBounds(cfg: Config, h: seq<Event>)
    ensures var p := PhaseOf(cfg, h);
            && (p.mode == Closed && cfg.maxFailures >= 1 ==> ConsecutiveFailures(p.since) < cfg.maxFailures)
            && (p.mode == HalfOpen ==> forall i :: 0 <= i < |p.since| ==> !p.since[i].Failure?)
            && (p.mode == HalfOpen && cfg.halfOpenRequests >= 1 ==> Successes(p.since) < cfg.halfOpenRequests)
    decreases |h|
  {
    if h != [] {
      var (older, e) := (h[..|h| - 1], h[|h| - 1]);
      PhaseBounds(cfg, older);
      var since := PhaseOf(cfg, older).since;
      assert (since + [e])[..|since|] == since;
    }
  }

  /** With limits of at least 1: what the next report does, in terms of the events of the current phase. */
  lemma TransitionsExact(cfg: Config, h: seq<Event>, now: int)
    requires cfg.maxFailures >= 1 && cfg.halfOpenRequests >= 1
    ensures var p := PhaseOf(cfg, h);
            var (failed, succeeded) := (Run(cfg, h + [Failure(now)]).mode, Run(cfg, h + [Success]).mode);
            && (p.mode == Closed ==>
                  (failed == Open <==> ConsecutiveFailures(p.since) + 1 == cfg.maxFailures) && succeeded == Closed)
            && (p.mode == HalfOpen ==>
                  failed == Open && (succeeded == Closed <==> Successes(p.since) + 1 == cfg.halfOpenRequests))
            && (p.mode == Open ==> failed == Open && succeeded == Open)
  {
    CountersMeanHistory(cfg, h);
    PhaseBounds(cfg, h);
    assert (h + [Failure(now)])[..|h|] == h && (h + [Success])[..|h|] == h;
  }

  /** Allow says no exactly when the breaker is open and the last reported failure is within the cooldown, or when it
      is half-open and the half-open limit is below 1. */
  lemma RefusesExactly(cfg: Config, h: seq<Event>, now: int)
    ensures !Allowed(cfg, Run(cfg, h), now) <==>
            || (PhaseOf(cfg, h).mode == Open && now - LastFailureAt(h) <= cfg.cooldown)
            || (PhaseOf(cfg, h).mode == HalfOpen && cfg.halfOpenRequests < 1)
  {
    CountersMeanHistory(cfg, h);
    PhaseBounds(cfg, h);
  }

  // ---------- half-open is never a dead end ----------

  function Repeat(e: Event, n: nat): seq<Event> {
    seq(n, _ => e)
  }

  lemma {:induction false} FailuresCount(cfg: Config, n: nat)
    ensures var s := Run(cfg, Repeat(Failure(0), n));
            if n == 0 || n < cfg.maxFailures then s.mode == Closed && s.failureCount == n else s.mode == Open
    ensures Run(cfg, Repeat(Failure(0), n)).lastFailureTime == 0
    ensures Run(cfg, Repeat(Failure(0), n)).successCount == 0
  {
    if n > 0 {
      FailuresCount(cfg, n - 1);
      assert Repeat(Failure(0), n)[..n - 1] == Repeat(Failure(0), n - 1);
    }
  }

  /** Half-open never refuses a request exactly when the half-open limit is at least 1. */
  lemma HalfOpenNeverStuckIff(cfg: Config)
    ensures (forall h: seq<Event>, now: int :: Run(cfg, h).mode == HalfOpen ==> Allowed(cfg, Run(cfg, h), now)) <==>
            cfg.halfOpenRequests >= 1
  {
    if cfg.halfOpenRequests >= 1 {
      forall h: seq<Event>, now: int | Run(cfg, h).mode == HalfOpen
        ensures Allowed(cfg, Run(cfg, h), now)
      {
        CountersMeanHistory(cfg, h);
        PhaseBounds(cfg, h);
      }
    } else {
      var h := StuckHalfOpen(cfg);
      assert !Allowed(cfg, Run(cfg, h), 0);
    }
  }

  lemma StuckHalfOpen(cfg: Config) returns (h: seq<Event>)
    requires cfg.halfOpenRequests < 1
    ensures Run(cfg, h).mode == HalfOpen && forall now :: !Allowed(cfg, Run(cfg, h), now)
  {
    var n := if cfg.maxFailures > 1 then cfg.maxFailures else 1;
    FailuresCount(cfg, n);
    h := Repeat(Failure(0), n) + [Event.Allow(cfg.cooldown + 1)];
    assert h[..n] == Repeat(Failure(0), n) && h[|h| - 1] == Event.Allow(cfg.cooldown + 1);
  }

  lemma {:induction false} SuccessesCount(cfg: Config, h: seq<Event>, n: nat)
    requires Run(cfg, h).mode == HalfOpen && Run(cfg, h).successCount == 0
    requires 1 <= n <= cfg.halfOpenRequests
    ensures var s := Run(cfg, h + Repeat(Success, n));
            if n < cfg.halfOpenRequests then s.mode == HalfOpen && s.successCount == n
            else s.mode == Closed && s.failureCount == 0 && s.successCount == 0
  {
    var g := h + Repeat(Success, n);
    if n == 1 {
      assert g[..|h|] == h;
    } else {
      SuccessesCount(cfg, h, n - 1);
      assert g[..|g| - 1] == h + Repeat(Success, n - 1);
    }
  }

  /** From any open breaker: one Allow after the cooldown and the agreed number of successes close it again. */
  lemma OpenRecovers(cfg: Config, h: seq<Event>, now: int)
    requires cfg.halfOpenRequests >= 1 && PhaseOf(cfg, h).mode == Open && now - LastFailureAt(h) > cfg.cooldown
    ensures Allowed(cfg, Run(cfg, h), now)
    ensures var s := Run(cfg, h + [Event.Allow(now)] + Repeat(Success, cfg.halfOpenRequests));
            s.mode == Closed && s.failureCount == 0
  {
    CountersMeanHistory(cfg, h);
    var g := h + [Event.Allow(now)];
    assert g[..|h|] == h;
    SuccessesCount(cfg, g, cfg.halfOpenRequests);
  }
}
