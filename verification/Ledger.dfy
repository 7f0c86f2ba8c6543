/** The load ledger: when a request's add, prompt delete and delete are sent to the metadata centre, which may
    refuse any of them. Callbacks of one request are atomic; those of different requests interleave freely. */
module Ledger {
  import opened Options

  datatype Kind = Add | DeletePrompt | Delete

  /** One call to the metadata centre, with the request id it carried. */
  datatype Call = Call(kind: Kind, id: nat, accepted: bool)

  datatype Phase = Created | Decoded | Logged

  /** The per-request fields. A timer is armed or not; `enabled` is the model's load-aware setting. */
  datatype Fields = Fields(
    enabled: bool,
    uniqueId: Option<nat>,
    isStream: bool,
    isIncreaseRecorded: bool,
    isPromptLengthDeleted: bool,
    timerArmed: bool,
    sawToken: bool,
    phase: Phase)

  function Fresh(enabled: bool): Fields {
    Fields(enabled, None, false, false, false, false, false, Created)
  }

  /** What can happen to a request. `accept` is the centre's answer should the callback call it; newId is the
      identifier drawn should one be needed. */
  datatype Event =
    | Decode(stream: bool, newId: nat, accept: bool)
    | Token(accept: bool)
    | Response(accept: bool)
    | TimerFires(accept: bool)
    | OnLog(accept: bool)

  // ---------- callbacks as functions ----------

  datatype Effect = Effect(fields: Fields, calls: seq<Call>)

  function AddRequest(f: Fields, newId: nat, accept: bool): Effect {
    if !f.enabled then Effect(f, [])
    else
      var id := if f.uniqueId.Some? then f.uniqueId.value else newId;
      var g := f.(uniqueId := Some(id));
      if !accept then Effect(g, [Call(Add, id, false)])
      else Effect(g.(isIncreaseRecorded := true, timerArmed := f.timerArmed || !f.isStream), [Call(Add, id, true)])
  }

  function DeletePromptLength(f: Fields, accept: bool): Effect {
    if !f.enabled || !f.isIncreaseRecorded || f.isPromptLengthDeleted || f.uniqueId.None? then Effect(f, [])
    else
      Effect(f.(timerArmed := false, isPromptLengthDeleted := accept), [Call(DeletePrompt, f.uniqueId.value, accept)])
  }

  function DecreaseMetaDataCenter(f: Fields, accept: bool): Effect {
    if !f.enabled || f.uniqueId.None? then Effect(f, [])
    else Effect(f.(timerArmed := false), [Call(Delete, f.uniqueId.value, accept)])
  }

  function Apply(f: Fields, e: Event): Effect {
    match e
    case Decode(stream, newId, accept) => AddRequest(f.(isStream := stream, phase := Decoded), newId, accept)
    case Token(accept) => if f.sawToken then Effect(f, []) else DeletePromptLength(f.(sawToken := true), accept)
    case Response(accept) => DeletePromptLength(f, accept)
    case TimerFires(accept) => DeletePromptLength(f, accept)
    case OnLog(accept) =>
      var g := f.(phase := Logged);
      if f.isIncreaseRecorded then DecreaseMetaDataCenter(g, accept) else Effect(g, [])
  }

  // ---------- the objects ----------

  class MetadataCenter {
    var calls: seq<Call>

    constructor ()
      ensures calls == []
    {
      calls := [];
    }

    method Dispatch(call: Call) returns (ok: bool)
      modifies this
      ensures calls == old(calls) + [call] && ok == call.accepted
    {
      calls := calls + [call];
      ok := call.accepted;
    }
  }

  class Filter {
    const enabled: bool
    const mc: MetadataCenter
    var uniqueId: Option<nat>
    var isStream: bool
    var isIncreaseRecorded: bool
    var isPromptLengthDeleted: bool
    var timerArmed: bool
    var sawToken: bool
    ghost var phase: Phase

    constructor (enabled: bool, mc: MetadataCenter)
      ensures Value() == Fresh(enabled) && this.mc == mc
    {
      this.enabled := enabled;
      this.mc := mc;
      uniqueId := None;
      isStream, isIncreaseRecorded, isPromptLengthDeleted, timerArmed, sawToken := false, false, false, false, false;
      phase := Created;
    }

    ghost function Value(): Fields
      reads this
    {
      Fields(enabled, uniqueId, isStream, isIncreaseRecorded, isPromptLengthDeleted, timerArmed, sawToken, phase)
    }

    /** A request is recorded only under an identifier. */
    ghost predicate Valid()
      reads this
    {
      isIncreaseRecorded ==> uniqueId.Some?
    }

    method UniqueId(newId: nat) returns (id: nat)
      modifies this`uniqueId
      ensures uniqueId == Some(id)
      ensures id == if old(uniqueId).Some? then old(uniqueId).value else newId
    {
      if uniqueId == None {
        uniqueId := Some(newId);
      }
      id := uniqueId.value;
    }

    method Add(newId: nat, accept: bool)
      requires Valid()
      modifies this, mc
      ensures Valid() && Value() == AddRequest(old(Value()), newId, accept).fields
      ensures mc.calls == old(mc.calls) + AddRequest(old(Value()), newId, accept).calls
    {
      if !enabled {
        return;
      }
      var id := UniqueId(newId);
      var ok := mc.Dispatch(Call(Kind.Add, id, accept));
      if !ok {
        return;
      }
      isIncreaseRecorded := true;
      if !isStream {
        timerArmed := true;
      }
    }

    method StopPromptDecreaseTimer()
      modifies this`timerArmed
      ensures !timerArmed
    {
      if timerArmed {
        timerArmed := false;
      }
    }

    method DeletePrompt(accept: bool)
      requires Valid()
      modifies this, mc
      ensures Valid() && Value() == DeletePromptLength(old(Value()), accept).fields
      ensures mc.calls == old(mc.calls) + DeletePromptLength(old(Value()), accept).calls
    {
      if !enabled || !isIncreaseRecorded || isPromptLengthDeleted {
        return;
      }
      StopPromptDecreaseTimer();
      var id := UniqueId(0);
      var ok := mc.Dispatch(Call(Kind.DeletePrompt, id, accept));
      if !ok {
        return;
      }
      isPromptLengthDeleted := true;
    }

    method Decrease(accept: bool)
      requires Valid() && isIncreaseRecorded
      modifies this, mc
      ensures Valid() && Value() == DecreaseMetaDataCenter(old(Value()), accept).fields
      ensures mc.calls == old(mc.calls) + DecreaseMetaDataCenter(old(Value()), accept).calls
    {
      if !enabled {
        return;
      }
      StopPromptDecreaseTimer();
      var id := UniqueId(0);
      var ok := mc.Dispatch(Call(Kind.Delete, id, accept));
    }

    /** Whatever the callback, the fields and the calls sent are those of `Apply`. */
    method Callback(e: Event)
      requires Valid()
      modifies this, mc
      ensures Valid() && Value() == Apply(old(Value()), e).fields
      ensures mc.calls == old(mc.calls) + Apply(old(Value()), e).calls
    {
      match e
      case Decode(stream, newId, accept) =>
        isStream := stream;
        phase := Decoded;
        Add(newId, accept);
      case Token(accept) =>
        if !sawToken {
          sawToken := true;
          DeletePrompt(accept);
        }
      case Response(accept) =>
        DeletePrompt(accept);
      case TimerFires(accept) =>
        DeletePrompt(accept);
      case OnLog(accept) =>
        phase := Logged;
        if isIncreaseRecorded {
          Decrease(accept);
        }
    }
  }

  // ---------- many requests ----------

  /** A call and the request whose callback sent it. */
  datatype Entry = Entry(req: nat, call: Call)

  datatype System = System(filters: map<nat, Fields>, log: seq<Entry>)

  datatype Action = New(req: nat, on: bool) | Happens(req: nat, event: Event)

  /** Callback order: one decode, nothing after the log callback, a timer fires only while armed,
      and identifiers are never drawn twice. */
  predicate Enabled(s: System, a: Action) {
    match a
    case New(r, _) => r !in s.filters
    case Happens(r, e) =>
      && r in s.filters && s.filters[r].phase != Logged
      && (e.Decode? ==> s.filters[r].phase == Created &&
                        forall q :: q in s.filters ==> s.filters[q].uniqueId != Some(e.newId))
      && (e.TimerFires? ==> s.filters[r].timerArmed)
  }

  function Tagged(r: nat, calls: seq<Call>): seq<Entry> {
    seq(|calls|, i requires 0 <= i < |calls| => Entry(r, calls[i]))
  }

  function Step(s: System, a: Action): System
    requires Enabled(s, a)
  {
    match a
    case New(r, on) => s.(filters := s.filters[r := Fresh(on)])
    case Happens(r, e) =>
      var effect := Apply(s.filters[r], e);
      System(s.filters[r := effect.fields], s.log + Tagged(r, effect.calls))
  }

  const START := System(map[], [])

  ghost predicate Reaches(s: System, actions: seq<Action>, t: System)
    decreases |actions|
  {
    if actions == [] then s == t else Enabled(s, actions[0]) && Reaches(Step(s, actions[0]), actions[1..], t)
  }

  /** The calls one request has made, in order. */
  function CallsOf(log: seq<Entry>, r: nat): seq<Call> {
    if log == [] then []
    else
      var e := log[|log| - 1];
      CallsOf(log[..|log| - 1], r) + (if e.req == r then [e.call] else [])
  }

  // ---------- one request ----------

  /** The calls before the final delete. */
  function Body(f: Fields, calls: seq<Call>): seq<Call> {
    if f.phase == Logged && calls != [] then calls[..|calls| - 1] else calls
  }

  /** An accepted add, then prompt deletes of which at most the last is accepted. */
  ghost predicate AddThenPromptDeletes(calls: seq<Call>, promptDeleted: bool) {
    && calls != [] && calls[0].kind == Add && calls[0].accepted
    && (promptDeleted ==> |calls| >= 2)
    && forall i :: 1 <= i < |calls| ==>
         calls[i].kind == DeletePrompt && (calls[i].accepted <==> promptDeleted && i == |calls| - 1)
  }

  /** The life of one request as the centre sees it, and how the flags reflect it. */
  ghost predicate Shape(f: Fields, calls: seq<Call>) {
    && (forall i :: 0 <= i < |calls| ==> f.uniqueId == Some(calls[i].id))
    && (f.isIncreaseRecorded ==> f.enabled && f.uniqueId.Some? && f.phase != Created)
    && (f.timerArmed ==> f.isIncreaseRecorded && !f.isPromptLengthDeleted && f.phase == Decoded)
    && (f.phase == Created ==> f.uniqueId == None)
    && (!f.isIncreaseRecorded ==>
          !f.isPromptLengthDeleted && (calls == [] || (|calls| == 1 && calls[0].kind == Add && !calls[0].accepted)))
    && (f.isIncreaseRecorded ==>
          && AddThenPromptDeletes(Body(f, calls), f.isPromptLengthDeleted)
          && (f.phase == Logged ==> |calls| >= 2 && calls[|calls| - 1].kind == Delete))
  }

  lemma ApplyKeepsShape(f: Fields, calls: seq<Call>, e: Event)
    requires Shape(f, calls) && f.phase != Logged && (e.Decode? ==> f.phase == Created)
    ensures Shape(Apply(f, e).fields, calls + Apply(f, e).calls)
  {
    var effect := Apply(f, e);
    var calls' := calls + effect.calls;
    if e.OnLog? && f.isIncreaseRecorded {
      assert calls'[..|calls'| - 1] == calls;
    }
  }

  // ---------- the whole system ----------

  lemma CallsOfStep(log: seq<Entry>, r: nat, calls: seq<Call>, q: nat)
    requires |calls| <= 1
    ensures CallsOf(log + Tagged(r, calls), q) == CallsOf(log, q) + (if q == r then calls else [])
  {
    var log' := log + Tagged(r, calls);
    if calls == [] {
      assert log' == log;
    } else {
      assert log'[..|log|] == log;
    }
  }

  ghost predicate Inv(s: System) {
    && (forall r :: r in s.filters ==> Shape(s.filters[r], CallsOf(s.log, r)))
    && (forall r :: r !in s.filters ==> CallsOf(s.log, r) == [])
    && (forall q, r :: q in s.filters && r in s.filters && q != r && s.filters[q].uniqueId.Some? ==>
          s.filters[q].uniqueId != s.filters[r].uniqueId)
  }

  lemma StepLog(s: System, r: nat, e: Event, q: nat)
    requires Enabled(s, Happens(r, e))
    ensures CallsOf(Step(s, Happens(r, e)).log, q) ==
            CallsOf(s.log, q) + (if q == r then Apply(s.filters[r], e).calls else [])
  {
    CallsOfStep(s.log, r, Apply(s.filters[r], e).calls, q);
  }

  lemma StepKeepsInv(s: System, a: Action)
    requires Inv(s) && Enabled(s, a)
    ensures Inv(Step(s, a))
  {
    hide Shape, CallsOf, Apply;
    var t := Step(s, a);
    match a
    case New(r, on) =>
      FreshHasShape(on);
    case Happens(r, e) =>
      var f := s.filters[r];
      ApplyKeepsShape(f, CallsOf(s.log, r), e);
      IdentifierKept(f, CallsOf(s.log, r), e);
      forall q
        ensures q != r ==> CallsOf(t.log, q) == CallsOf(s.log, q)
        ensures q == r ==> CallsOf(t.log, q) == CallsOf(s.log, q) + Apply(f, e).calls
      {
        StepLog(s, r, e, q);
        assert CallsOf(s.log, q) + [] == CallsOf(s.log, q);
      }
  }

  lemma FreshHasShape(on: bool)
    ensures Shape(Fresh(on), [])
  {
  }

  /** Only a decode gives a request its identifier, and it is the one drawn. */
  lemma IdentifierKept(f: Fields, calls: seq<Call>, e: Event)
    requires Shape(f, calls) && (e.Decode? ==> f.phase == Created)
    ensures var id := Apply(f, e).fields.uniqueId;
            id == f.uniqueId || (e.Decode? && id == Some(e.newId))
  {
  }

  lemma {:induction false} RunKeepsInv(s: System, actions: seq<Action>, t: System)
    requires Inv(s) && Reaches(s, actions, t)
    ensures Inv(t)
    decreases |actions|
  {
    if actions != [] {
      StepKeepsInv(s, actions[0]);
      RunKeepsInv(Step(s, actions[0]), actions[1..], t);
    }
  }

  /** The calls of one request, spelled out. Without an accepted add there are no deletes at all; with one, it comes
      first, at most one prompt delete is accepted and no other prompt delete follows it, and the delete comes last,
      exactly when the request has been logged. After logging no timer is armed. */
  ghost predicate Life(f: Fields, calls: seq<Call>) {
    && (forall i :: 0 <= i < |calls| ==> f.uniqueId == Some(calls[i].id))
    && (!f.isIncreaseRecorded ==> forall i :: 0 <= i < |calls| ==> calls[i].kind == Add && !calls[i].accepted)
    && (f.isIncreaseRecorded ==>
          && calls != [] && calls[0].kind == Add && calls[0].accepted
          && (f.phase == Logged ==> |calls| >= 2)
          && (forall i :: 1 <= i < |calls| ==>
                calls[i].kind == if i == |calls| - 1 && f.phase == Logged then Delete else DeletePrompt)
          && (forall i, j :: 1 <= i < j < |calls| && calls[i].kind == DeletePrompt && calls[i].accepted ==>
                calls[j].kind == Delete))
    && (f.phase == Logged ==> !f.timerArmed)
  }

  lemma ShapeIsLife(f: Fields, calls: seq<Call>)
    requires Shape(f, calls)
    ensures Life(f, calls)
  {
    var body := Body(f, calls);
    assert forall i :: 0 <= i < |body| ==> body[i] == calls[i];
  }

  /** For any number of interleaved requests and any refusals, every request lives like that, and the identifier its
      calls carry is carried by no other request's calls. */
  lemma RequestLife(actions: seq<Action>, t: System, r: nat)
    requires Reaches(START, actions, t) && r in t.filters
    ensures Life(t.filters[r], CallsOf(t.log, r))
    ensures forall q :: q in t.filters && q != r && t.filters[q].uniqueId.Some? ==>
              t.filters[q].uniqueId != t.filters[r].uniqueId
  {
    hide Shape, Life;
    StartSatisfies();
    RunKeepsInv(START, actions, t);
    ShapeIsLife(t.filters[r], CallsOf(t.log, r));
  }

  lemma StartSatisfies()
    ensures Inv(START) && Balance(START)
  {
    assert Recorded(START) == {} && Ended(START) == {};
  }

  // ---------- the balance ----------

  function Count(log: seq<Entry>, kind: Kind, accepted: bool): nat {
    if log == [] then 0
    else
      var c := log[|log| - 1].call;
      Count(log[..|log| - 1], kind, accepted) + (if c.kind == kind && c.accepted == accepted then 1 else 0)
  }

  ghost function Recorded(s: System): set<nat> {
    set r | r in s.filters && s.filters[r].isIncreaseRecorded
  }

  /** Requests whose load the centre has been told about and not yet told to forget. */
  ghost function Live(s: System): set<nat> {
    set r | r in s.filters && s.filters[r].isIncreaseRecorded && s.filters[r].phase != Logged
  }

  ghost function Ended(s: System): set<nat> {
    set r | r in s.filters && s.filters[r].isIncreaseRecorded && s.filters[r].phase == Logged
  }

  ghost predicate Balance(s: System) {
    && |Recorded(s)| == Count(s.log, Add, true)
    && |Ended(s)| == Count(s.log, Delete, true) + Count(s.log, Delete, false)
  }

  lemma CountStep(log: seq<Entry>, r: nat, calls: seq<Call>, kind: Kind, accepted: bool)
    requires |calls| <= 1
    ensures Count(log + Tagged(r, calls), kind, accepted) ==
            Count(log, kind, accepted) +
            (if calls != [] && calls[0].kind == kind && calls[0].accepted == accepted then 1 else 0)
  {
    var log' := log + Tagged(r, calls);
    if calls == [] {
      assert log' == log;
    } else {
      assert log'[..|log|] == log && log'[|log|] == Entry(r, calls[0]);
    }
  }

  /** One callback's effect on the flags and on the counted calls go together. */
  lemma EffectCounts(f: Fields, calls: seq<Call>, e: Event)
    requires Shape(f, calls) && f.phase != Logged && (e.Decode? ==> f.phase == Created)
    ensures var (g, cs) := (Apply(f, e).fields, Apply(f, e).calls);
            && |cs| <= 1
            && (g.isIncreaseRecorded <==> f.isIncreaseRecorded || (cs != [] && cs[0].kind == Add && cs[0].accepted))
            && (cs != [] && cs[0].kind == Add ==> !f.isIncreaseRecorded)
            && (cs != [] && cs[0].kind == Delete <==> g.isIncreaseRecorded && g.phase == Logged)
  {
  }

  lemma SetsStep(s: System, r: nat, e: Event, g: Fields)
    requires Enabled(s, Happens(r, e)) && g == Apply(s.filters[r], e).fields
    requires s.filters[r].isIncreaseRecorded ==> g.isIncreaseRecorded
    ensures var t := Step(s, Happens(r, e));
            && Recorded(t) == (if g.isIncreaseRecorded then Recorded(s) + {r} else Recorded(s))
            && Ended(t) == (if g.isIncreaseRecorded && g.phase == Logged then Ended(s) + {r} else Ended(s))
    ensures r !in Ended(s) && (r in Recorded(s) <==> s.filters[r].isIncreaseRecorded)
  {
    hide Apply;
  }

  lemma StepKeepsBalance(s: System, a: Action)
    requires Inv(s) && Balance(s) && Enabled(s, a)
    ensures Balance(Step(s, a))
  {
    hide Apply, Shape, CallsOf, Recorded, Ended;
    match a
    case New(r, on) =>
      NewKeepsSets(s, r, on);
    case Happens(r, e) =>
      var (f, effect) := (s.filters[r], Apply(s.filters[r], e));
      EffectCounts(f, CallsOf(s.log, r), e);
      SetsStep(s, r, e, effect.fields);
      CountStep(s.log, r, effect.calls, Add, true);
      CountStep(s.log, r, effect.calls, Delete, true);
      CountStep(s.log, r, effect.calls, Delete, false);
      assert Step(s, a).log == s.log + Tagged(r, effect.calls);
      SizeWith(Recorded(s), r);
      SizeWith(Ended(s), r);
  }

  lemma SizeWith(xs: set<nat>, x: nat)
    ensures |xs + {x}| == |xs| + (if x in xs then 0 else 1)
  {
    if x in xs {
      assert xs + {x} == xs;
    }
  }

  lemma NewKeepsSets(s: System, r: nat, on: bool)
    requires Enabled(s, New(r, on))
    ensures var t := Step(s, New(r, on)); Recorded(t) == Recorded(s) && Ended(t) == Ended(s)
  {
  }

  lemma {:induction false} RunKeepsBalance(s: System, actions: seq<Action>, t: System)
    requires Inv(s) && Balance(s) && Reaches(s, actions, t)
    ensures Balance(t)
    decreases |actions|
  {
    if actions != [] {
      StepKeepsInv(s, actions[0]);
      StepKeepsBalance(s, actions[0]);
      RunKeepsBalance(Step(s, actions[0]), actions[1..], t);
    }
  }

  /** Accepted adds minus accepted deletes are the live requests plus the deletes the centre refused. */
  lemma LoadBalance(actions: seq<Action>, t: System)
    requires Reaches(START, actions, t)
    ensures Count(t.log, Add, true) - Count(t.log, Delete, true) == |Live(t)| + Count(t.log, Delete, false)
  {
    StartSatisfies();
    RunKeepsBalance(START, actions, t);
    assert Recorded(t) == Live(t) + Ended(t) && Live(t) !! Ended(t);
  }
}
