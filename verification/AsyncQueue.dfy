/** The bounded task queue as a protocol: any number of dispatchers, workers and shutdown callers, interleaved.

    A step is one atomic action of one process. The lock, the channel and the cancelled context are modelled by
    when a step is enabled. What must never happen (a send on the closed channel, a zero task received from it,
    the cancelled branch of a dispatch) is a step like any other, which leaves a mark. */
module AsyncQueue {
  import opened Options

  datatype Task = Task(id: nat, timeout: nat)

  datatype Config = Config(queueSize: nat, maxRetries: int, defaultTimeout: nat)

  datatype Dispatcher =
    | Idle
    | Locked(task: Task)   // holds the read lock
    | Checked(task: Task)  // has also seen isClosed false

  datatype Worker =
    | Waiting
    | Running(task: Task, outcomes: seq<bool>)
    | Exited

  datatype Shutdown =
    | NotStarted
    | HoldsLock
    | MarkedClosed
    | WaitsForWorkers  // has cancelled the context
    | WorkersGone
    | Done

  datatype Finished = Finished(task: Task, outcomes: seq<bool>)

  datatype Mark = SentOnClosedChannel | ReceivedZeroTask | TookCancelledBranch

  datatype State = State(
    queue: seq<Task>,
    isClosed: bool,
    cancelled: bool,
    channelClosed: bool,
    dispatchers: seq<Dispatcher>,
    workers: seq<Worker>,
    shutdowns: seq<Shutdown>,
    accepted: multiset<Task>,
    finished: seq<Finished>,
    marks: set<Mark>)

  datatype Action =
    | Lock(d: nat, task: Task)
    | CheckClosed(d: nat)
    | Send(d: nat)
    | HandOver(d: nat, w: nat)
    | SeeCancelled(d: nat)
    | SeeFull(d: nat)
    | Receive(w: nat)
    | Attempt(w: nat, ok: bool)
    | Finish(w: nat)
    | Exit(w: nat)
    | LockForShutdown(k: nat)
    | MarkClosed(k: nat)
    | Cancel(k: nat)
    | AllWorkersGone(k: nat)
    | CloseChannel(k: nat)

  const ZERO_TASK := Task(0, 0)

  function Init(dispatchers: nat, workers: nat, shutdowns: nat): State {
    State([], false, false, false,
          seq(dispatchers, _ => Idle), seq(workers, _ => Waiting), seq(shutdowns, _ => NotStarted),
          multiset{}, [], {})
  }

  /** The write lock is held from taking it until the channel is closed. */
  predicate Holds(p: Shutdown) {
    p.HoldsLock? || p.MarkedClosed? || p.WaitsForWorkers? || p.WorkersGone?
  }

  predicate WriteLocked(s: State) {
    exists k :: 0 <= k < |s.shutdowns| && Holds(s.shutdowns[k])
  }

  predicate ReadLocked(s: State) {
    exists d :: 0 <= d < |s.dispatchers| && s.dispatchers[d] != Idle
  }

  /** How often a task may be tried: MaxRetries + 1, and never for a negative MaxRetries. */
  function Attempts(cfg: Config): nat {
    if cfg.maxRetries < 0 then 0 else cfg.maxRetries + 1
  }

  predicate Succeeded(outcomes: seq<bool>) {
    outcomes != [] && outcomes[|outcomes| - 1]
  }

  predicate Complete(cfg: Config, outcomes: seq<bool>) {
    Succeeded(outcomes) || |outcomes| >= Attempts(cfg)
  }

  // ---------- steps ----------

  function DispatchStep(cfg: Config, s: State, a: Action): Option<State>
    requires a.Lock? || a.CheckClosed? || a.Send? || a.HandOver? || a.SeeCancelled? || a.SeeFull?
  {
    if a.d >= |s.dispatchers| then None
    else
      var p := s.dispatchers[a.d];
      match a
      case Lock(d, task) =>
        if p == Idle && !WriteLocked(s) then Some(s.(dispatchers := s.dispatchers[d := Locked(task)])) else None
      case CheckClosed(d) =>
        if !p.Locked? then None
        else if s.isClosed then Some(s.(dispatchers := s.dispatchers[d := Idle]))
        else
          var task := if p.task.timeout == 0 then p.task.(timeout := cfg.defaultTimeout) else p.task;
          Some(s.(dispatchers := s.dispatchers[d := Checked(task)]))
      case Send(d) =>
        if !p.Checked? then None
        else if s.channelClosed then Some(s.(marks := s.marks + {SentOnClosedChannel}))
        else if |s.queue| < cfg.queueSize then
          Some(s.(queue := s.queue + [p.task], accepted := s.accepted + multiset{p.task},
                  dispatchers := s.dispatchers[d := Idle]))
        else None
      case HandOver(d, w) =>
        if p.Checked? && !s.channelClosed && s.queue == [] && w < |s.workers| && s.workers[w] == Waiting then
          Some(s.(workers := s.workers[w := Running(p.task, [])], accepted := s.accepted + multiset{p.task},
                  dispatchers := s.dispatchers[d := Idle]))
        else None
      case SeeCancelled(d) =>
        if p.Checked? && s.cancelled then
          Some(s.(marks := s.marks + {TookCancelledBranch}, dispatchers := s.dispatchers[d := Idle]))
        else None
      case SeeFull(d) =>
        if p.Checked? && !s.channelClosed && |s.queue| >= cfg.queueSize then
          Some(s.(dispatchers := s.dispatchers[d := Idle]))
        else None
  }

  function WorkerStep(cfg: Config, s: State, a: Action): Option<State>
    requires a.Receive? || a.Attempt? || a.Finish? || a.Exit?
  {
    if a.w >= |s.workers| then None
    else
      var p := s.workers[a.w];
      match a
      case Receive(w) =>
        if p != Waiting then None
        else if s.queue != [] then
          Some(s.(queue := s.queue[1..], workers := s.workers[w := Running(s.queue[0], [])]))
        else if s.channelClosed then
          Some(s.(marks := s.marks + {ReceivedZeroTask}, workers := s.workers[w := Running(ZERO_TASK, [])]))
        else None
      case Attempt(w, ok) =>
        if p.Running? && !Complete(cfg, p.outcomes) then
          Some(s.(workers := s.workers[w := Running(p.task, p.outcomes + [ok])]))
        else None
      case Finish(w) =>
        if p.Running? && Complete(cfg, p.outcomes) then
          Some(s.(finished := s.finished + [Finished(p.task, p.outcomes)], workers := s.workers[w := Waiting]))
        else None
      case Exit(w) =>
        if p == Waiting && s.cancelled then Some(s.(workers := s.workers[w := Exited])) else None
  }

  predicate AllExited(s: State) {
    forall w :: 0 <= w < |s.workers| ==> s.workers[w] == Exited
  }

  function ShutdownStep(s: State, a: Action): Option<State>
    requires a.LockForShutdown? || a.MarkClosed? || a.Cancel? || a.AllWorkersGone? || a.CloseChannel?
  {
    if a.k >= |s.shutdowns| then None
    else
      var p := s.shutdowns[a.k];
      match a
      case LockForShutdown(k) =>
        if p == NotStarted && !WriteLocked(s) && !ReadLocked(s) then
          Some(s.(shutdowns := s.shutdowns[k := HoldsLock]))
        else None
      case MarkClosed(k) =>
        if p != HoldsLock then None
        else if s.isClosed then Some(s.(shutdowns := s.shutdowns[k := Done]))
        else Some(s.(isClosed := true, shutdowns := s.shutdowns[k := MarkedClosed]))
      case Cancel(k) =>
        if p == MarkedClosed then Some(s.(cancelled := true, shutdowns := s.shutdowns[k := WaitsForWorkers])) else None
      case AllWorkersGone(k) =>
        if p == WaitsForWorkers && AllExited(s) then Some(s.(shutdowns := s.shutdowns[k := WorkersGone])) else None
      case CloseChannel(k) =>
        if p == WorkersGone then Some(s.(channelClosed := true, shutdowns := s.shutdowns[k := Done])) else None
  }

  function Step(cfg: Config, s: State, a: Action): Option<State> {
    match a
    case Lock(_, _) => DispatchStep(cfg, s, a)
    case CheckClosed(_) => DispatchStep(cfg, s, a)
    case Send(_) => DispatchStep(cfg, s, a)
    case HandOver(_, _) => DispatchStep(cfg, s, a)
    case SeeCancelled(_) => DispatchStep(cfg, s, a)
    case SeeFull(_) => DispatchStep(cfg, s, a)
    case Receive(_) => WorkerStep(cfg, s, a)
    case Attempt(_, _) => WorkerStep(cfg, s, a)
    case Finish(_) => WorkerStep(cfg, s, a)
    case Exit(_) => WorkerStep(cfg, s, a)
    case LockForShutdown(_) => ShutdownStep(s, a)
    case MarkClosed(_) => ShutdownStep(s, a)
    case Cancel(_) => ShutdownStep(s, a)
    case AllWorkersGone(_) => ShutdownStep(s, a)
    case CloseChannel(_) => ShutdownStep(s, a)
  }

  /** A run: the states after each of the actions, every one of them enabled. */
  ghost predicate Reaches(cfg: Config, s: State, actions: seq<Action>, t: State)
    decreases |actions|
  {
    if actions == [] then s == t
    else Step(cfg, s, actions[0]).Some? && Reaches(cfg, Step(cfg, s, actions[0]).value, actions[1..], t)
  }

  // ---------- the invariant ----------

  function TaskOf(w: Worker): multiset<Task> {
    if w.Running? then multiset{w.task} else multiset{}
  }

  /** The tasks being worked on. */
  function InFlight(ws: seq<Worker>): multiset<Task> {
    if ws == [] then multiset{} else TaskOf(ws[0]) + InFlight(ws[1..])
  }

  function FinishedTasks(fs: seq<Finished>): multiset<Task> {
    if fs == [] then multiset{} else FinishedTasks(fs[..|fs| - 1]) + multiset{fs[|fs| - 1].task}
  }

  /** Failures, and at most one success, which is the last outcome. */
  ghost predicate StopsAtSuccess(cfg: Config, outcomes: seq<bool>) {
    |outcomes| <= Attempts(cfg) && forall i :: 0 <= i < |outcomes| - 1 ==> !outcomes[i]
  }

  /** The lock excludes what it should, and the closing flags follow each other. */
  ghost predicate LockInv(s: State) {
    && (forall k, l :: 0 <= k < |s.shutdowns| && 0 <= l < |s.shutdowns| && Holds(s.shutdowns[k]) && Holds(s.shutdowns[l])
          ==> k == l)
    && (WriteLocked(s) ==> !ReadLocked(s))
    && (forall d :: 0 <= d < |s.dispatchers| && s.dispatchers[d].Checked? ==> !s.isClosed)
  }

  ghost predicate CloseInv(s: State) {
    && (s.cancelled ==> s.isClosed)
    && (s.channelClosed ==> AllExited(s) && s.cancelled)
    && (forall k :: 0 <= k < |s.shutdowns| ==>
          match s.shutdowns[k]
          case MarkedClosed => s.isClosed && !s.cancelled && !s.channelClosed
          case WaitsForWorkers => s.cancelled && !s.channelClosed
          case WorkersGone => s.cancelled && AllExited(s)
          case _ => true)
  }

  ghost predicate Conserved(s: State) {
    s.accepted == multiset(s.queue) + InFlight(s.workers) + FinishedTasks(s.finished)
  }

  ghost predicate OutcomeInv(cfg: Config, s: State) {
    && |s.queue| <= cfg.queueSize
    && (forall w :: 0 <= w < |s.workers| && s.workers[w].Running? ==> StopsAtSuccess(cfg, s.workers[w].outcomes))
    && (forall i :: 0 <= i < |s.finished| ==>
          StopsAtSuccess(cfg, s.finished[i].outcomes) && Complete(cfg, s.finished[i].outcomes))
  }

  ghost predicate Inv(cfg: Config, s: State) {
    LockInv(s) && CloseInv(s) && Conserved(s) && OutcomeInv(cfg, s) && s.marks == {}
  }

  // ---------- every step keeps it ----------

  /** Replacing one worker: `rest` is what the others are working on. */
  lemma {:induction false} InFlightSplit(ws: seq<Worker>, i: nat, w: Worker) returns (rest: multiset<Task>)
    requires i < |ws|
    ensures InFlight(ws) == rest + TaskOf(ws[i]) && InFlight(ws[i := w]) == rest + TaskOf(w)
    decreases |ws|
  {
    hide TaskOf;
    var ws' := ws[i := w];
    if i == 0 {
      assert ws'[1..] == ws[1..];
      rest := InFlight(ws[1..]);
    } else {
      var others := InFlightSplit(ws[1..], i - 1, w);
      assert ws'[1..] == ws[1..][i - 1 := w];
      rest := TaskOf(ws[0]) + others;
      Regroup(TaskOf(ws[0]), others, TaskOf(ws[i]));
      Regroup(TaskOf(ws[0]), others, TaskOf(w));
    }
  }

  lemma Regroup(a: multiset<Task>, b: multiset<Task>, c: multiset<Task>)
    ensures a + (b + c) == a + b + c == a + c + b
  {
  }

  lemma DispatchKeepsLocks(cfg: Config, s: State, a: Action)
    requires a.Lock? || a.CheckClosed? || a.Send? || a.HandOver? || a.SeeCancelled? || a.SeeFull?
    requires LockInv(s) && CloseInv(s) && DispatchStep(cfg, s, a).Some?
    ensures var t := DispatchStep(cfg, s, a).value; LockInv(t) && CloseInv(t) && t.marks == s.marks
  {
    var t := DispatchStep(cfg, s, a).value;
    assert t.shutdowns == s.shutdowns;
    assert s.dispatchers[a.d].Checked? ==> !s.isClosed && !s.cancelled && !s.channelClosed;
    assert WriteLocked(t) == WriteLocked(s);
    if ReadLocked(t) && !a.Lock? {
      var d :| 0 <= d < |t.dispatchers| && t.dispatchers[d] != Idle;
      assert s.dispatchers[d] != Idle;
    }
  }

  lemma AcceptInQueue(q: seq<Task>, task: Task, i: multiset<Task>, f: multiset<Task>)
    ensures multiset(q) + i + f + multiset{task} == multiset(q + [task]) + i + f
  {
  }

  lemma AcceptInWorker(q: multiset<Task>, task: Task, i: multiset<Task>, f: multiset<Task>)
    ensures q + i + f + multiset{task} == q + (i + multiset{task}) + f
  {
  }

  lemma DispatchConserves(cfg: Config, s: State, a: Action)
    requires a.Lock? || a.CheckClosed? || a.Send? || a.HandOver? || a.SeeCancelled? || a.SeeFull?
    requires Conserved(s) && DispatchStep(cfg, s, a).Some?
    ensures Conserved(DispatchStep(cfg, s, a).value)
  {
    hide InFlight, FinishedTasks;
    match a
    case Send(d) =>
      AcceptInQueue(s.queue, s.dispatchers[d].task, InFlight(s.workers), FinishedTasks(s.finished));
    case HandOver(d, w) =>
      HandOverConserves(multiset(s.queue), s.workers, w, s.dispatchers[d].task, FinishedTasks(s.finished));
    case _ =>
  }

  lemma HandOverConserves(q: multiset<Task>, ws: seq<Worker>, w: nat, task: Task, f: multiset<Task>)
    requires w < |ws| && ws[w] == Waiting
    ensures q + InFlight(ws) + f + multiset{task} == q + InFlight(ws[w := Running(task, [])]) + f
  {
    var rest := InFlightSplit(ws, w, Running(task, []));
    AcceptInWorker(q, task, rest, f);
  }

  lemma DispatchKeepsOutcomes(cfg: Config, s: State, a: Action)
    requires a.Lock? || a.CheckClosed? || a.Send? || a.HandOver? || a.SeeCancelled? || a.SeeFull?
    requires OutcomeInv(cfg, s) && DispatchStep(cfg, s, a).Some?
    ensures OutcomeInv(cfg, DispatchStep(cfg, s, a).value)
  {
  }

  lemma WorkerKeepsLocks(cfg: Config, s: State, a: Action)
    requires a.Receive? || a.Attempt? || a.Finish? || a.Exit?
    requires LockInv(s) && CloseInv(s) && WorkerStep(cfg, s, a).Some?
    ensures var t := WorkerStep(cfg, s, a).value; LockInv(t) && CloseInv(t) && t.marks == s.marks
  {
    var t := WorkerStep(cfg, s, a).value;
    assert t.shutdowns == s.shutdowns && t.dispatchers == s.dispatchers;
    assert s.workers[a.w] != Exited && !AllExited(s);
    assert WriteLocked(t) == WriteLocked(s) && ReadLocked(t) == ReadLocked(s);
  }

  lemma MoveToWorker(q: seq<Task>, i: multiset<Task>, f: multiset<Task>)
    requires q != []
    ensures multiset(q) + i + f == multiset(q[1..]) + (i + multiset{q[0]}) + f
  {
    assert q == [q[0]] + q[1..];
  }

  lemma MoveToFinished(q: multiset<Task>, task: Task, i: multiset<Task>, f: multiset<Task>)
    ensures q + (i + multiset{task}) + f == q + (i + multiset{}) + (f + multiset{task})
  {
  }

  /** A worker that could receive from the closed channel would have exited before it was closed. */
  lemma ReceiveFindsTask(cfg: Config, s: State, a: Action)
    requires a.Receive? && CloseInv(s) && WorkerStep(cfg, s, a).Some?
    ensures s.queue != []
  {
    assert s.workers[a.w] == Waiting;
    assert !AllExited(s);
  }

  lemma ReceiveConserves(q: seq<Task>, ws: seq<Worker>, w: nat, f: multiset<Task>)
    requires q != [] && w < |ws| && ws[w] == Waiting
    ensures multiset(q) + InFlight(ws) + f == multiset(q[1..]) + InFlight(ws[w := Running(q[0], [])]) + f
  {
    var rest := InFlightSplit(ws, w, Running(q[0], []));
    MoveToWorker(q, rest, f);
  }

  lemma FinishConserves(q: multiset<Task>, ws: seq<Worker>, w: nat, fs: seq<Finished>)
    requires w < |ws| && ws[w].Running?
    ensures var fs' := fs + [Finished(ws[w].task, ws[w].outcomes)];
            q + InFlight(ws) + FinishedTasks(fs) == q + InFlight(ws[w := Waiting]) + FinishedTasks(fs')
  {
    var fs' := fs + [Finished(ws[w].task, ws[w].outcomes)];
    assert fs'[..|fs|] == fs;
    var rest := InFlightSplit(ws, w, Waiting);
    MoveToFinished(q, ws[w].task, rest, FinishedTasks(fs));
  }

  lemma SameTaskConserves(ws: seq<Worker>, w: nat, p: Worker)
    requires w < |ws| && TaskOf(ws[w]) == TaskOf(p)
    ensures InFlight(ws[w := p]) == InFlight(ws)
  {
    var rest := InFlightSplit(ws, w, p);
  }

  lemma WorkerConserves(cfg: Config, s: State, a: Action)
    requires a.Receive? || a.Attempt? || a.Finish? || a.Exit?
    requires Conserved(s) && WorkerStep(cfg, s, a).Some? && (a.Receive? ==> s.queue != [])
    ensures Conserved(WorkerStep(cfg, s, a).value)
  {
    hide InFlight, FinishedTasks, Complete;
    match a
    case Receive(w) =>
      ReceiveConserves(s.queue, s.workers, w, FinishedTasks(s.finished));
    case Finish(w) =>
      FinishConserves(multiset(s.queue), s.workers, w, s.finished);
    case Attempt(w, ok) =>
      SameTaskConserves(s.workers, w, Running(s.workers[w].task, s.workers[w].outcomes + [ok]));
    case Exit(w) =>
      SameTaskConserves(s.workers, w, Exited);
  }

  lemma WorkerKeepsOutcomes(cfg: Config, s: State, a: Action)
    requires a.Receive? || a.Attempt? || a.Finish? || a.Exit?
    requires OutcomeInv(cfg, s) && WorkerStep(cfg, s, a).Some?
    ensures OutcomeInv(cfg, WorkerStep(cfg, s, a).value)
  {
  }

  /** While k holds the write lock, nobody else holds it and nobody reads. */
  lemma HolderExcludes(s: State, k: nat)
    requires LockInv(s) && k < |s.shutdowns| && Holds(s.shutdowns[k])
    ensures !ReadLocked(s) && forall l :: 0 <= l < |s.shutdowns| && l != k ==> !Holds(s.shutdowns[l])
  {
    assert WriteLocked(s);
  }

  lemma ShutdownKeepsLocks(s: State, a: Action)
    requires a.LockForShutdown? || a.MarkClosed? || a.Cancel? || a.AllWorkersGone? || a.CloseChannel?
    requires LockInv(s) && ShutdownStep(s, a).Some?
    ensures LockInv(ShutdownStep(s, a).value)
  {
    var t := ShutdownStep(s, a).value;
    assert t.dispatchers == s.dispatchers && ReadLocked(t) == ReadLocked(s);
    if Holds(s.shutdowns[a.k]) {
      HolderExcludes(s, a.k);
    }
    assert forall l :: 0 <= l < |s.shutdowns| && l != a.k ==> t.shutdowns[l] == s.shutdowns[l] && !Holds(t.shutdowns[l]);
    assert forall d :: 0 <= d < |s.dispatchers| && s.dispatchers[d].Checked? ==> ReadLocked(s);
  }

  lemma ShutdownKeepsClosing(s: State, a: Action)
    requires a.LockForShutdown? || a.MarkClosed? || a.Cancel? || a.AllWorkersGone? || a.CloseChannel?
    requires LockInv(s) && CloseInv(s) && ShutdownStep(s, a).Some?
    ensures CloseInv(ShutdownStep(s, a).value)
  {
    var t := ShutdownStep(s, a).value;
    assert t.workers == s.workers && AllExited(t) == AllExited(s);
    if Holds(s.shutdowns[a.k]) {
      HolderExcludes(s, a.k);
    }
    assert forall l :: 0 <= l < |s.shutdowns| && l != a.k ==> t.shutdowns[l] == s.shutdowns[l];
  }

  lemma ShutdownKeepsInv(cfg: Config, s: State, a: Action)
    requires a.LockForShutdown? || a.MarkClosed? || a.Cancel? || a.AllWorkersGone? || a.CloseChannel?
    requires Inv(cfg, s) && ShutdownStep(s, a).Some?
    ensures Inv(cfg, ShutdownStep(s, a).value)
  {
    hide LockInv, CloseInv, InFlight, FinishedTasks;
    var t := ShutdownStep(s, a).value;
    ShutdownKeepsLocks(s, a);
    ShutdownKeepsClosing(s, a);
    assert t.queue == s.queue && t.workers == s.workers && t.finished == s.finished && t.accepted == s.accepted;
  }

  lemma StepKeepsInv(cfg: Config, s: State, a: Action)
    requires Inv(cfg, s) && Step(cfg, s, a).Some?
    ensures Inv(cfg, Step(cfg, s, a).value)
  {
    hide LockInv, CloseInv, Conserved, OutcomeInv, DispatchStep, WorkerStep, ShutdownStep;
    if a.Lock? || a.CheckClosed? || a.Send? || a.HandOver? || a.SeeCancelled? || a.SeeFull? {
      DispatchKeepsLocks(cfg, s, a);
      DispatchConserves(cfg, s, a);
      DispatchKeepsOutcomes(cfg, s, a);
    } else if a.Receive? || a.Attempt? || a.Finish? || a.Exit? {
      WorkerKeepsLocks(cfg, s, a);
      if a.Receive? {
        ReceiveFindsTask(cfg, s, a);
      }
      WorkerConserves(cfg, s, a);
      WorkerKeepsOutcomes(cfg, s, a);
    } else {
      ShutdownKeepsInv(cfg, s, a);
    }
  }

  lemma {:induction false} InitInFlight(n: nat)
    ensures InFlight(seq(n, _ => Waiting)) == multiset{}
  {
    var ws: seq<Worker> := seq(n, _ => Waiting);
    if n > 0 {
      InitInFlight(n - 1);
      assert ws[1..] == seq(n - 1, _ => Waiting);
    }
  }

  lemma InitSatisfies(cfg: Config, n: nat, m: nat, l: nat)
    ensures Inv(cfg, Init(n, m, l))
  {
    InitInFlight(m);
  }

  lemma {:induction false} RunKeepsInv(cfg: Config, s: State, actions: seq<Action>, t: State)
    requires Inv(cfg, s) && Reaches(cfg, s, actions, t)
    ensures Inv(cfg, t)
    decreases |actions|
  {
    if actions != [] {
      StepKeepsInv(cfg, s, actions[0]);
      RunKeepsInv(cfg, Step(cfg, s, actions[0]).value, actions[1..], t);
    }
  }

  // ---------- main results ----------

  /** Over every interleaving: accepted tasks are exactly the queued, in-flight and finished ones, with multiplicity;
      the queue stays within its size; a finished task ended at its first success or after exactly the allowed number
      of failures; and none of the three impossible events has happened. */
  lemma QueueIsSafe(cfg: Config, n: nat, m: nat, l: nat, actions: seq<Action>, t: State)
    requires Reaches(cfg, Init(n, m, l), actions, t)
    ensures t.accepted == multiset(t.queue) + InFlight(t.workers) + FinishedTasks(t.finished)
    ensures |t.queue| <= cfg.queueSize
    ensures forall i :: 0 <= i < |t.finished| ==>
              var o := t.finished[i].outcomes;
              (forall j :: 0 <= j < |o| - 1 ==> !o[j]) &&
              (Succeeded(o) || |o| == Attempts(cfg)) && |o| <= Attempts(cfg)
    ensures t.marks == {}
  {
    InitSatisfies(cfg, n, m, l);
    RunKeepsInv(cfg, Init(n, m, l), actions, t);
  }

  lemma {:induction false} NothingInFlight(ws: seq<Worker>)
    requires forall w :: 0 <= w < |ws| ==> ws[w] == Exited
    ensures InFlight(ws) == multiset{}
  {
    if ws != [] {
      NothingInFlight(ws[1..]);
    }
  }

  /** After a completed shutdown nothing is being worked on: what was accepted has finished or lies in the queue. */
  lemma ShutdownLeavesOnlyTheQueue(cfg: Config, n: nat, m: nat, l: nat, actions: seq<Action>, t: State)
    requires Reaches(cfg, Init(n, m, l), actions, t) && t.channelClosed
    ensures t.accepted == multiset(t.queue) + FinishedTasks(t.finished)
    ensures forall a: Action :: a.Receive? || a.Send? ==> Step(cfg, t, a) == None
  {
    hide LockInv, InFlight, FinishedTasks, OutcomeInv;
    InitSatisfies(cfg, n, m, l);
    RunKeepsInv(cfg, Init(n, m, l), actions, t);
    NothingInFlight(t.workers);
    forall a: Action | a.Receive? || a.Send?
      ensures Step(cfg, t, a) == None
    {
      NothingAfterClosing(cfg, t, a);
    }
  }

  lemma NothingAfterClosing(cfg: Config, s: State, a: Action)
    requires Inv(cfg, s) && s.channelClosed && (a.Receive? || a.Send?)
    ensures Step(cfg, s, a) == None
  {
  }

  // ---------- a shutdown that waits for the workers comes to an end ----------

  /** The steps a worker can still take on its own. */
  function Weight(cfg: Config, w: Worker): nat {
    match w
    case Waiting => 1
    case Running(_, outcomes) => 2 + (if |outcomes| < Attempts(cfg) then Attempts(cfg) - |outcomes| else 0)
    case Exited => 0
  }

  function Weights(cfg: Config, ws: seq<Worker>): nat {
    if ws == [] then 0 else Weight(cfg, ws[0]) + Weights(cfg, ws[1..])
  }

  function Remaining(cfg: Config, s: State): nat {
    |s.queue| * (Attempts(cfg) + 2) + Weights(cfg, s.workers)
  }

  lemma {:induction false} WeightsUpdate(cfg: Config, ws: seq<Worker>, i: nat, w: Worker)
    requires i < |ws|
    ensures Weights(cfg, ws[i := w]) + Weight(cfg, ws[i]) == Weights(cfg, ws) + Weight(cfg, w)
    decreases |ws|
  {
    var ws' := ws[i := w];
    if i == 0 {
      assert ws'[1..] == ws[1..];
    } else {
      WeightsUpdate(cfg, ws[1..], i - 1, w);
      assert ws'[1..] == ws[1..][i - 1 := w];
    }
  }

  ghost predicate SomeoneWaits(s: State) {
    exists k :: 0 <= k < |s.shutdowns| && s.shutdowns[k] == WaitsForWorkers
  }

  lemma WorkerStepDecreases(cfg: Config, s: State, a: Action)
    requires a.Receive? || a.Attempt? || a.Finish? || a.Exit?
    requires !s.channelClosed && WorkerStep(cfg, s, a).Some?
    ensures Remaining(cfg, WorkerStep(cfg, s, a).value) < Remaining(cfg, s)
  {
    var t := WorkerStep(cfg, s, a).value;
    WeightsUpdate(cfg, s.workers, a.w, t.workers[a.w]);
    assert t.workers == s.workers[a.w := t.workers[a.w]];
    if a.Receive? {
      var c := Attempts(cfg) + 2;
      assert |s.queue| == |t.queue| + 1;
      assert (|t.queue| + 1) * c == |t.queue| * c + c;
    }
  }

  /** While a shutdown waits, every step that does not end the waiting is a worker's and uses up some of a finite
      amount. */
  lemma WaitingStepDecreases(cfg: Config, s: State, a: Action)
    requires Inv(cfg, s) && SomeoneWaits(s) && Step(cfg, s, a).Some? && SomeoneWaits(Step(cfg, s, a).value)
    ensures a.Receive? || a.Attempt? || a.Finish? || a.Exit?
    ensures Remaining(cfg, Step(cfg, s, a).value) < Remaining(cfg, s)
  {
    hide Remaining;
    var t := Step(cfg, s, a).value;
    var k :| 0 <= k < |s.shutdowns| && s.shutdowns[k] == WaitsForWorkers;
    HolderExcludes(s, k);
    if a.Receive? || a.Attempt? || a.Finish? || a.Exit? {
      WorkerStepDecreases(cfg, s, a);
    } else if a.LockForShutdown? || a.MarkClosed? || a.Cancel? || a.AllWorkersGone? || a.CloseChannel? {
      OnlyTheWaiterSteps(s, a, k);
    } else {
      NoDispatchWhileWaiting(cfg, s, a, k);
    }
  }

  lemma NoDispatchWhileWaiting(cfg: Config, s: State, a: Action, k: nat)
    requires a.Lock? || a.CheckClosed? || a.Send? || a.HandOver? || a.SeeCancelled? || a.SeeFull?
    requires LockInv(s) && k < |s.shutdowns| && s.shutdowns[k] == WaitsForWorkers
    ensures DispatchStep(cfg, s, a) == None
  {
    assert Holds(s.shutdowns[k]) && WriteLocked(s);
    assert a.d < |s.dispatchers| && s.dispatchers[a.d] != Idle ==> ReadLocked(s);
  }

  /** The waiting caller is the only shutdown caller that can step, and its step ends the waiting. */
  lemma OnlyTheWaiterSteps(s: State, a: Action, k: nat)
    requires a.LockForShutdown? || a.MarkClosed? || a.Cancel? || a.AllWorkersGone? || a.CloseChannel?
    requires LockInv(s) && k < |s.shutdowns| && s.shutdowns[k] == WaitsForWorkers && ShutdownStep(s, a).Some?
    ensures a.k == k && !SomeoneWaits(ShutdownStep(s, a).value)
  {
    HolderExcludes(s, k);
    assert WriteLocked(s);
  }

  /** And until the workers are gone, some worker can step; then the shutdown itself can. */
  lemma WaitingCanMove(cfg: Config, s: State) returns (a: Action)
    requires Inv(cfg, s) && SomeoneWaits(s)
    ensures Step(cfg, s, a).Some?
    ensures if AllExited(s) then a.AllWorkersGone? else a.Attempt? || a.Finish? || a.Exit?
  {
    var k :| 0 <= k < |s.shutdowns| && s.shutdowns[k] == WaitsForWorkers;
    if AllExited(s) {
      a := AllWorkersGone(k);
    } else {
      var w :| 0 <= w < |s.workers| && s.workers[w] != Exited;
      match s.workers[w]
      case Waiting => a := Exit(w);
      case Running(_, outcomes) => a := if Complete(cfg, outcomes) then Finish(w) else Attempt(w, true);
    }
  }

  ghost predicate WaitsThroughout(cfg: Config, s: State, actions: seq<Action>)
    decreases |actions|
  {
    SomeoneWaits(s) &&
    (actions == [] ||
     (Step(cfg, s, actions[0]).Some? && WaitsThroughout(cfg, Step(cfg, s, actions[0]).value, actions[1..])))
  }

  /** Every run during which a shutdown keeps waiting is bounded: the waiting ends, whatever the scheduler
      and the handlers do, as long as handlers return. */
  lemma {:induction false} WaitingIsBounded(cfg: Config, s: State, actions: seq<Action>)
    requires Inv(cfg, s) && WaitsThroughout(cfg, s, actions)
    ensures |actions| <= Remaining(cfg, s)
    decreases |actions|
  {
    if actions != [] {
      var t := Step(cfg, s, actions[0]).value;
      WaitingStepDecreases(cfg, s, actions[0]);
      StepKeepsInv(cfg, s, actions[0]);
      WaitingIsBounded(cfg, t, actions[1..]);
    }
  }

  // ---------- what a dispatch does ----------

  /** A dispatch that finds the queue open and with room: its task, a zero timeout replaced by the default one, ends up
      behind the queued ones, and nothing else changes. */
  lemma DispatchQueues(cfg: Config, s: State, d: nat, task: Task)
    requires Inv(cfg, s) && d < |s.dispatchers| && s.dispatchers[d] == Idle && !WriteLocked(s)
    requires !s.isClosed && |s.queue| < cfg.queueSize
    ensures var queued := Task(task.id, if task.timeout == 0 then cfg.defaultTimeout else task.timeout);
            var t := s.(queue := s.queue + [queued], accepted := s.accepted + multiset{queued});
            Reaches(cfg, s, [Lock(d, task), CheckClosed(d), Send(d)], t)
  {
    var queued := Task(task.id, if task.timeout == 0 then cfg.defaultTimeout else task.timeout);
    var a := s.(dispatchers := s.dispatchers[d := Locked(task)]);
    var b := s.(dispatchers := s.dispatchers[d := Checked(queued)]);
    assert a.dispatchers[d := Checked(queued)] == b.dispatchers && b.dispatchers[d := Idle] == s.dispatchers;
    ThreeSteps(cfg, s, Lock(d, task), a, CheckClosed(d), b, Send(d),
               s.(queue := s.queue + [queued], accepted := s.accepted + multiset{queued}));
  }

  lemma ThreeSteps(cfg: Config, s: State, x: Action, a: State, y: Action, b: State, z: Action, t: State)
    requires Step(cfg, s, x) == Some(a) && Step(cfg, a, y) == Some(b) && Step(cfg, b, z) == Some(t)
    ensures Reaches(cfg, s, [x, y, z], t)
  {
    hide Step;
    TwoSteps(cfg, a, y, b, z, t);
    assert [x, y, z][1..] == [y, z];
  }

  lemma TwoSteps(cfg: Config, s: State, x: Action, a: State, y: Action, t: State)
    requires Step(cfg, s, x) == Some(a) && Step(cfg, a, y) == Some(t)
    ensures Reaches(cfg, s, [x, y], t)
  {
    hide Step;
    assert [x, y][1..] == [y] && [y][1..] == [];
    assert Reaches(cfg, t, [], t);
  }

  /** A dispatch that finds no room, or a closed queue, changes nothing at all; without room it can do nothing else. */
  lemma DispatchRefused(cfg: Config, s: State, d: nat, task: Task)
    requires Inv(cfg, s) && d < |s.dispatchers| && s.dispatchers[d] == Idle && !WriteLocked(s)
    ensures s.isClosed ==> Reaches(cfg, s, [Lock(d, task), CheckClosed(d)], s)
    ensures !s.isClosed && |s.queue| >= cfg.queueSize ==> Reaches(cfg, s, [Lock(d, task), CheckClosed(d), SeeFull(d)], s)
    ensures |s.queue| >= cfg.queueSize ==> Step(cfg, s, Send(d)) == None
  {
    var queued := Task(task.id, if task.timeout == 0 then cfg.defaultTimeout else task.timeout);
    var a := s.(dispatchers := s.dispatchers[d := Locked(task)]);
    var b := s.(dispatchers := s.dispatchers[d := Checked(queued)]);
    assert a.dispatchers[d := Checked(queued)] == b.dispatchers && b.dispatchers[d := Idle] == s.dispatchers;
    assert a.dispatchers[d := Idle] == s.dispatchers;
    if s.isClosed {
      TwoSteps(cfg, s, Lock(d, task), a, CheckClosed(d), s);
    } else if |s.queue| >= cfg.queueSize {
      ThreeSteps(cfg, s, Lock(d, task), a, CheckClosed(d), b, SeeFull(d), s);
    }
  }

  // ---------- first in, first out ----------

  /** The task a dispatcher is about to hand in. */
  function Offered(s: State, d: nat): seq<Task> {
    if d < |s.dispatchers| && s.dispatchers[d].Checked? then [s.dispatchers[d].task] else []
  }

  /** The tasks of the run's sends into the queue, in order. */
  ghost function Queued(cfg: Config, s: State, actions: seq<Action>): seq<Task>
    decreases |actions|
  {
    if actions == [] || Step(cfg, s, actions[0]).None? then []
    else
      (if actions[0].Send? then Offered(s, actions[0].d) else []) +
      Queued(cfg, Step(cfg, s, actions[0]).value, actions[1..])
  }

  /** The tasks of the run that a waiting worker is handed directly, in order. */
  ghost function HandedOver(cfg: Config, s: State, actions: seq<Action>): seq<Task>
    decreases |actions|
  {
    if actions == [] || Step(cfg, s, actions[0]).None? then []
    else
      (if actions[0].HandOver? then Offered(s, actions[0].d) else []) +
      HandedOver(cfg, Step(cfg, s, actions[0]).value, actions[1..])
  }

  /** The tasks that workers start on from the queue, in order. */
  ghost function Taken(cfg: Config, s: State, actions: seq<Action>): seq<Task>
    decreases |actions|
  {
    if actions == [] || Step(cfg, s, actions[0]).None? then []
    else
      var t := Step(cfg, s, actions[0]).value;
      (if actions[0].Receive? && actions[0].w < |t.workers| && t.workers[actions[0].w].Running?
       then [t.workers[actions[0].w].task] else []) +
      Taken(cfg, t, actions[1..])
  }

  /** One step's contribution to the order of tasks and to the accepted ones. */
  lemma StepOrder(cfg: Config, s: State, a: Action)
    requires Inv(cfg, s) && Step(cfg, s, a).Some?
    ensures var t := Step(cfg, s, a).value;
            var sent := if a.Send? then Offered(s, a.d) else [];
            var handed := if a.HandOver? then Offered(s, a.d) else [];
            var taken := if a.Receive? && a.w < |t.workers| && t.workers[a.w].Running? then [t.workers[a.w].task] else [];
            && s.queue + sent == taken + t.queue
            && t.accepted == s.accepted + multiset(sent) + multiset(handed)
  {
    hide Inv, Step;
    if a.Receive? {
      ReceiveOrder(cfg, s, a);
    } else if a.Send? {
      SendOrder(cfg, s, a);
    } else {
      OtherOrder(cfg, s, a);
      assert s.queue + [] == [] + s.queue;
    }
  }

  lemma ReceiveOrder(cfg: Config, s: State, a: Action)
    requires Inv(cfg, s) && a.Receive? && Step(cfg, s, a).Some?
    ensures var t := Step(cfg, s, a).value;
            && a.w < |t.workers| && t.workers[a.w].Running? && t.accepted == s.accepted
            && s.queue + [] == [t.workers[a.w].task] + t.queue
  {
    hide Conserved, OutcomeInv, LockInv, CloseInv;
    ReceiveFindsTask(cfg, s, a);
    assert s.queue + [] == [s.queue[0]] + s.queue[1..];
  }

  lemma SendOrder(cfg: Config, s: State, a: Action)
    requires Inv(cfg, s) && a.Send? && Step(cfg, s, a).Some?
    ensures var t := Step(cfg, s, a).value;
            && s.queue + Offered(s, a.d) == [] + t.queue
            && t.accepted == s.accepted + multiset(Offered(s, a.d)) + multiset([])
  {
    hide Conserved, OutcomeInv;
    SendIsOpen(cfg, s, a);
    assert Offered(s, a.d) == [s.dispatchers[a.d].task];
    assert [] + (s.queue + Offered(s, a.d)) == s.queue + Offered(s, a.d);
  }

  lemma OtherOrder(cfg: Config, s: State, a: Action)
    requires Step(cfg, s, a).Some? && !a.Receive? && !a.Send?
    ensures var t := Step(cfg, s, a).value;
            var handed := if a.HandOver? then Offered(s, a.d) else [];
            t.queue == s.queue && t.accepted == s.accepted + multiset([]) + multiset(handed)
  {
    if a.HandOver? {
      assert multiset([s.dispatchers[a.d].task]) == multiset{s.dispatchers[a.d].task};
    }
  }

  lemma SendIsOpen(cfg: Config, s: State, a: Action)
    requires Inv(cfg, s) && a.Send? && Step(cfg, s, a).Some?
    ensures !s.channelClosed
  {
    assert s.dispatchers[a.d].Checked? && !s.isClosed;
  }

  /** Over every run: what was queued and what is sent comes out of the queue in that very order, the rest still lying in
      it; and the accepted tasks are exactly those sent or handed over. */
  lemma {:induction false} FirstInFirstOut(cfg: Config, s: State, actions: seq<Action>, t: State)
    requires Inv(cfg, s) && Reaches(cfg, s, actions, t)
    ensures s.queue + Queued(cfg, s, actions) == Taken(cfg, s, actions) + t.queue
    ensures t.accepted ==
            s.accepted + multiset(Queued(cfg, s, actions)) + multiset(HandedOver(cfg, s, actions))
    decreases |actions|
  {
    hide Inv, Step, Offered;
    if actions == [] {
      assert s.queue + [] == [] + s.queue;
    } else {
      var (a, rest) := (actions[0], actions[1..]);
      var m := Step(cfg, s, a).value;
      StepKeepsInv(cfg, s, a);
      StepOrder(cfg, s, a);
      FirstInFirstOut(cfg, m, rest, t);
      var sent := if a.Send? then Offered(s, a.d) else [];
      var taken := if a.Receive? && a.w < |m.workers| && m.workers[a.w].Running? then [m.workers[a.w].task] else [];
      OrderJoins(s.queue, sent, taken, m.queue, Queued(cfg, m, rest), Taken(cfg, m, rest), t.queue);
      MultisetJoins(s.accepted, sent, if a.HandOver? then Offered(s, a.d) else [],
                    Queued(cfg, m, rest), HandedOver(cfg, m, rest));
    }
  }

  lemma OrderJoins(q: seq<Task>, sent: seq<Task>, taken: seq<Task>, m: seq<Task>, later: seq<Task>, takenLater: seq<Task>,
      end: seq<Task>)
    requires q + sent == taken + m && m + later == takenLater + end
    ensures q + (sent + later) == (taken + takenLater) + end
  {
    calc {
      q + (sent + later);
      (q + sent) + later;
      taken + (m + later);
      (taken + takenLater) + end;
    }
  }

  lemma MultisetJoins(a: multiset<Task>, x: seq<Task>, y: seq<Task>, u: seq<Task>, v: seq<Task>)
    ensures a + multiset(x) + multiset(y) + multiset(u) + multiset(v) == a + multiset(x + u) + multiset(y + v)
  {
  }

  // ---------- what a worker does ----------

  function Attempting(w: nat, outcomes: seq<bool>): seq<Action> {
    if outcomes == [] then [Finish(w)] else [Attempt(w, outcomes[0])] + Attempting(w, outcomes[1..])
  }

  lemma {:induction false} AttemptsRun(cfg: Config, s: State, w: nat, task: Task, done: seq<bool>, todo: seq<bool>)
    requires w < |s.workers| && s.workers[w] == Running(task, done)
    requires Complete(cfg, done + todo) && forall k :: |done| <= k < |done + todo| ==> !Complete(cfg, (done + todo)[..k])
    ensures var t := s.(finished := s.finished + [Finished(task, done + todo)], workers := s.workers[w := Waiting]);
            Reaches(cfg, s, Attempting(w, todo), t)
    decreases |todo|
  {
    var t := s.(finished := s.finished + [Finished(task, done + todo)], workers := s.workers[w := Waiting]);
    if todo == [] {
      assert done + todo == done;
      assert [Finish(w)][1..] == [] && Reaches(cfg, t, [], t);
    } else {
      var done' := done + [todo[0]];
      assert done' + todo[1..] == done + todo && (done + todo)[..|done|] == done;
      var m := s.(workers := s.workers[w := Running(task, done')]);
      assert m.workers[w := Waiting] == s.workers[w := Waiting];
      AttemptsRun(cfg, m, w, task, done', todo[1..]);
      var actions := Attempting(w, todo);
      assert actions[0] == Attempt(w, todo[0]) && actions[1..] == Attempting(w, todo[1..]);
    }
  }

  /** A waiting worker serves the oldest queued task: any outcomes that end at the first success or after all allowed
      attempts, and nothing shorter, take it from the queue to the finished ones with exactly these outcomes. */
  lemma WorkerServes(cfg: Config, s: State, w: nat, outcomes: seq<bool>)
    requires w < |s.workers| && s.workers[w] == Waiting && s.queue != []
    requires Complete(cfg, outcomes) && forall k :: 0 <= k < |outcomes| ==> !Complete(cfg, outcomes[..k])
    ensures var t := s.(queue := s.queue[1..], finished := s.finished + [Finished(s.queue[0], outcomes)]);
            Reaches(cfg, s, [Receive(w)] + Attempting(w, outcomes), t)
  {
    var m := s.(queue := s.queue[1..], workers := s.workers[w := Running(s.queue[0], [])]);
    assert [] + outcomes == outcomes && m.workers[w := Waiting] == s.workers;
    AttemptsRun(cfg, m, w, s.queue[0], [], outcomes);
    var actions := [Receive(w)] + Attempting(w, outcomes);
    assert actions[0] == Receive(w) && actions[1..] == Attempting(w, outcomes);
  }

  /** Which outcomes those are: failures up to a first success, or as many failures as MaxRetries + 1. */
  lemma CompleteExactly(cfg: Config, outcomes: seq<bool>)
    ensures (Complete(cfg, outcomes) && forall k :: 0 <= k < |outcomes| ==> !Complete(cfg, outcomes[..k])) <==>
            && (forall i :: 0 <= i < |outcomes| - 1 ==> !outcomes[i])
            && (if outcomes != [] && outcomes[|outcomes| - 1] then |outcomes| <= cfg.maxRetries + 1
                else |outcomes| == if cfg.maxRetries < 0 then 0 else cfg.maxRetries + 1)
  {
    var n := |outcomes|;
    if forall k :: 0 <= k < n ==> !Complete(cfg, outcomes[..k]) {
      forall i | 0 <= i < n - 1
        ensures !outcomes[i]
      {
        assert !Complete(cfg, outcomes[..i + 1]);
        assert outcomes[..i + 1][i] == outcomes[i];
      }
      if n > 0 {
        assert !Complete(cfg, outcomes[..n - 1]);
      }
    }
    assert forall k :: 0 < k < n ==> outcomes[..k][k - 1] == outcomes[k - 1];
  }

  // ---------- what a shutdown does ----------

  /** A shutdown that finds the queue open and nobody inside closes it and waits; one that finds it closed returns. */
  lemma ShutdownBegins(cfg: Config, s: State, k: nat)
    requires Inv(cfg, s) && k < |s.shutdowns| && s.shutdowns[k] == NotStarted && !WriteLocked(s) && !ReadLocked(s)
    ensures var actions := [LockForShutdown(k), MarkClosed(k)];
            if s.isClosed then Reaches(cfg, s, actions, s.(shutdowns := s.shutdowns[k := Done]))
            else Reaches(cfg, s, actions + [Cancel(k)],
                         s.(isClosed := true, cancelled := true, shutdowns := s.shutdowns[k := WaitsForWorkers]))
  {
    var a := s.(shutdowns := s.shutdowns[k := HoldsLock]);
    if s.isClosed {
      assert a.shutdowns[k := Done] == s.shutdowns[k := Done];
      TwoSteps(cfg, s, LockForShutdown(k), a, MarkClosed(k), s.(shutdowns := s.shutdowns[k := Done]));
    } else {
      var b := s.(isClosed := true, shutdowns := s.shutdowns[k := MarkedClosed]);
      var c := s.(isClosed := true, cancelled := true, shutdowns := s.shutdowns[k := WaitsForWorkers]);
      assert a.shutdowns[k := MarkedClosed] == b.shutdowns && b.shutdowns[k := WaitsForWorkers] == c.shutdowns;
      ThreeSteps(cfg, s, LockForShutdown(k), a, MarkClosed(k), b, Cancel(k), c);
      assert [LockForShutdown(k), MarkClosed(k)] + [Cancel(k)] == [LockForShutdown(k), MarkClosed(k), Cancel(k)];
    }
  }

  /** Once all workers have exited, the waiting shutdown closes the channel and returns. */
  lemma ShutdownEnds(cfg: Config, s: State, k: nat)
    requires k < |s.shutdowns| && s.shutdowns[k] == WaitsForWorkers && AllExited(s)
    ensures Reaches(cfg, s, [AllWorkersGone(k), CloseChannel(k)],
                    s.(channelClosed := true, shutdowns := s.shutdowns[k := Done]))
  {
    var a := s.(shutdowns := s.shutdowns[k := WorkersGone]);
    assert a.shutdowns[k := Done] == s.shutdowns[k := Done];
    var t := s.(channelClosed := true, shutdowns := s.shutdowns[k := Done]);
    TwoSteps(cfg, s, AllWorkersGone(k), a, CloseChannel(k), t);
  }

  // ---------- the retry loop of one worker ----------

  /** `handler(i)` tells whether attempt i succeeds. The loop's outcomes are those of a finished task; with a
      negative MaxRetries the handler is never called and the task counts as done without an error. */
  method HandleTask(cfg: Config, handler: nat -> bool) returns (outcomes: seq<bool>, failed: bool)
    ensures Complete(cfg, outcomes) && |outcomes| <= Attempts(cfg)
    ensures forall i :: 0 <= i < |outcomes| ==> outcomes[i] == handler(i)
    ensures forall i :: 0 <= i < |outcomes| - 1 ==> !handler(i)
    ensures outcomes == [] <==> cfg.maxRetries < 0
    ensures failed || Succeeded(outcomes) <==> cfg.maxRetries >= 0
    ensures failed <==> cfg.maxRetries >= 0 && forall i: nat :: i <= cfg.maxRetries ==> !handler(i)
  {
    outcomes, failed := [], false;
    var attempt := 0;
    while attempt <= cfg.maxRetries
      invariant |outcomes| == attempt <= Attempts(cfg)
      invariant forall i :: 0 <= i < attempt ==> !handler(i) && !outcomes[i]
      invariant failed <==> attempt > 0
      decreases cfg.maxRetries + 1 - attempt
    {
      var ok := handler(attempt);
      outcomes := outcomes + [ok];
      failed := !ok;
      if ok {
        break;
      }
      attempt := attempt + 1;
    }
  }
}
