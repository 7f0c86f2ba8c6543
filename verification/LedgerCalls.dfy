/** Exactly which calls a request makes, told from its events alone: no flags, no timers. */
module LedgerCalls {
  import opened Ledger
  import opened Options

  /** The events of one request in a run. */
  function EventsOf(actions: seq<Action>, r: nat): seq<Event> {
    if actions == [] then []
    else
      (if actions[0].Happens? && actions[0].req == r then [actions[0].event] else []) + EventsOf(actions[1..], r)
  }

  // ---------- the calls, from the events ----------

  /** Before the add: a decode sends it, if load awareness is on; `seen` tells whether a token has been seen. */
  function Expected(on: bool, events: seq<Event>, seen: bool): seq<Call>
    decreases |events|
  {
    if !on || events == [] then []
    else
      match events[0]
      case Decode(_, id, accept) => [Call(Add, id, accept)] + (if accept then Prompting(id, events[1..], seen) else [])
      case Token(_) => Expected(on, events[1..], true)
      case OnLog(_) => []
      case _ => Expected(on, events[1..], seen)
  }

  /** After an accepted add: the first token, every response and every timer send a prompt delete, up to the first that
      is accepted. */
  function Prompting(id: nat, events: seq<Event>, seen: bool): seq<Call>
    decreases |events|, 0
  {
    if events == [] then []
    else
      match events[0]
      case OnLog(accept) => [Call(Delete, id, accept)]
      case Decode(_, _, _) => []
      case Token(accept) => if seen then Prompting(id, events[1..], true) else PromptDelete(id, accept, events[1..], true)
      case Response(accept) => PromptDelete(id, accept, events[1..], seen)
      case TimerFires(accept) => PromptDelete(id, accept, events[1..], seen)
  }

  function PromptDelete(id: nat, accept: bool, later: seq<Event>, seen: bool): seq<Call>
    decreases |later|, 1
  {
    [Call(DeletePrompt, id, accept)] + (if accept then Closing(id, later) else Prompting(id, later, seen))
  }

  /** After that only the log callback sends anything: the delete. */
  function Closing(id: nat, events: seq<Event>): seq<Call> {
    if events == [] then []
    else if events[0].OnLog? then [Call(Delete, id, events[0].accept)]
    else Closing(id, events[1..])
  }

  // ---------- one request on its own ----------

  function Replayed(f: Fields, events: seq<Event>): Effect
    decreases |events|
  {
    if events == [] then Effect(f, [])
    else
      var first := Apply(f, events[0]);
      var later := Replayed(first.fields, events[1..]);
      Effect(later.fields, first.calls + later.calls)
  }

  /** The callback order for one request. */
  ghost predicate Legal(f: Fields, events: seq<Event>)
    decreases |events|
  {
    events == [] ||
    (f.phase != Logged && (events[0].Decode? ==> f.phase == Created) && (events[0].TimerFires? ==> f.timerArmed) &&
     Legal(Apply(f, events[0]).fields, events[1..]))
  }

  lemma EnabledStays(f: Fields, e: Event)
    ensures Apply(f, e).fields.enabled == f.enabled
  {
  }

  lemma {:induction false} ReplayEnabled(f: Fields, events: seq<Event>)
    ensures Replayed(f, events).fields.enabled == f.enabled
    decreases |events|
  {
    hide Apply;
    if events != [] {
      EnabledStays(f, events[0]);
      ReplayEnabled(Apply(f, events[0]).fields, events[1..]);
    }
  }

  /** The requests of a run do not interfere: each one's fields and calls are those of its own events alone. */
  lemma {:induction false} RunIsReplay(s: System, actions: seq<Action>, t: System, r: nat)
    requires Reaches(s, actions, t) && r in s.filters
    ensures var (f, events) := (s.filters[r], EventsOf(actions, r));
            && Legal(f, events) && r in t.filters
            && t.filters[r] == Replayed(f, events).fields
            && CallsOf(t.log, r) == CallsOf(s.log, r) + Replayed(f, events).calls
    decreases |actions|
  {
    hide Apply, CallsOf;
    if actions != [] {
      var m := Step(s, actions[0]);
      RunIsReplay(m, actions[1..], t, r);
      var (later, before) := (EventsOf(actions[1..], r), CallsOf(s.log, r));
      match actions[0]
      case New(q, _) =>
        assert EventsOf(actions, r) == [] + later == later;
      case Happens(q, e) =>
        StepLog(s, q, e, r);
        if q == r {
          var f := s.filters[r];
          assert EventsOf(actions, r) == [e] + later && ([e] + later)[1..] == later;
          AssociateCalls(before, Apply(f, e).calls, Replayed(Apply(f, e).fields, later).calls);
        } else {
          assert EventsOf(actions, r) == [] + later == later && before + [] == before;
        }
    }
  }

  lemma AssociateCalls(a: seq<Call>, b: seq<Call>, c: seq<Call>)
    ensures a + b + c == a + (b + c)
  {
  }

  lemma {:induction false} RunFromCreation(s: System, actions: seq<Action>, t: System, r: nat) returns (on: bool)
    requires Reaches(s, actions, t) && r !in s.filters && r in t.filters
    ensures var events := EventsOf(actions, r);
            && Legal(Fresh(on), events)
            && t.filters[r] == Replayed(Fresh(on), events).fields
            && CallsOf(t.log, r) == CallsOf(s.log, r) + Replayed(Fresh(on), events).calls
    decreases |actions|
  {
    hide Apply, CallsOf, Replayed, Legal, Fresh;
    var m := Step(s, actions[0]);
    var later := EventsOf(actions[1..], r);
    assert EventsOf(actions, r) == [] + later == later;
    if actions[0].New? && actions[0].req == r {
      on := actions[0].on;
      RunIsReplay(m, actions[1..], t, r);
    } else {
      on := RunFromCreation(m, actions[1..], t, r);
      if actions[0].Happens? {
        StepLog(s, actions[0].req, actions[0].event, r);
        assert CallsOf(s.log, r) + [] == CallsOf(s.log, r);
      }
    }
  }

  // ---------- the flags do what the events say ----------

  lemma {:induction false} QuietCalls(f: Fields, events: seq<Event>)
    requires Legal(f, events) && f.phase != Created && !f.isIncreaseRecorded
    ensures Replayed(f, events).calls == []
    decreases |events|
  {
    if events != [] {
      QuietCalls(Apply(f, events[0]).fields, events[1..]);
    }
  }

  lemma {:induction false} ClosingCalls(f: Fields, events: seq<Event>, id: nat)
    requires Legal(f, events) && f.phase == Decoded && f.enabled && f.uniqueId == Some(id)
    requires f.isIncreaseRecorded && f.isPromptLengthDeleted
    ensures Replayed(f, events).calls == Closing(id, events)
    decreases |events|
  {
    if events != [] {
      var first := Apply(f, events[0]);
      if events[0].OnLog? {
        NothingAfterLog(first.fields, events[1..]);
      } else {
        ClosingCalls(first.fields, events[1..], id);
      }
    }
  }

  lemma NothingAfterLog(f: Fields, events: seq<Event>)
    requires Legal(f, events) && f.phase == Logged
    ensures events == [] && Replayed(f, events).calls == []
  {
  }

  lemma {:induction false} PromptingCalls(f: Fields, events: seq<Event>, id: nat)
    requires Legal(f, events) && f.phase == Decoded && f.enabled && f.uniqueId == Some(id)
    requires f.isIncreaseRecorded && !f.isPromptLengthDeleted
    ensures Replayed(f, events).calls == Prompting(id, events, f.sawToken)
    decreases |events|
  {
    hide Closing;
    if events != [] {
      var first := Apply(f, events[0]);
      if events[0].OnLog? {
        NothingAfterLog(first.fields, events[1..]);
      } else if first.fields.isPromptLengthDeleted {
        ClosingCalls(first.fields, events[1..], id);
      } else {
        PromptingCalls(first.fields, events[1..], id);
      }
    }
  }

  lemma {:induction false} ExpectedCalls(f: Fields, events: seq<Event>)
    requires Legal(f, events) && f.phase == Created && f.uniqueId == None
    requires !f.isIncreaseRecorded && !f.isPromptLengthDeleted
    ensures Replayed(f, events).calls == Expected(f.enabled, events, f.sawToken)
    decreases |events|
  {
    hide Prompting;
    if events != [] {
      var first := Apply(f, events[0]);
      if events[0].OnLog? {
        NothingAfterLog(first.fields, events[1..]);
      } else if events[0].Decode? {
        if first.fields.isIncreaseRecorded {
          PromptingCalls(first.fields, events[1..], events[0].newId);
        } else {
          QuietCalls(first.fields, events[1..]);
        }
      } else {
        ExpectedCalls(first.fields, events[1..]);
      }
    }
  }

  // ---------- main results ----------

  /** In every run, a request's calls are exactly those its own events ask for, with its own identifier and the centre's
      own answers. */
  lemma CallsExactly(actions: seq<Action>, t: System, r: nat)
    requires Reaches(START, actions, t) && r in t.filters
    ensures CallsOf(t.log, r) == Expected(t.filters[r].enabled, EventsOf(actions, r), false)
  {
    hide Replayed, Legal, Expected, Apply;
    var on := RunFromCreation(START, actions, t, r);
    var events := EventsOf(actions, r);
    ReplayEnabled(Fresh(on), events);
    ExpectedCalls(Fresh(on), events);
    assert [] + Replayed(Fresh(on), events).calls == Replayed(Fresh(on), events).calls;
  }

  /** Event j asks for a prompt delete: a response, a timer, or the first token. */
  predicate Asks(events: seq<Event>, j: nat)
    requires j < |events|
  {
    || events[j].Response? || events[j].TimerFires?
    || (events[j].Token? && forall k :: 0 <= k < j ==> !events[k].Token?)
  }

  ghost predicate HasPromptDelete(calls: seq<Call>) {
    exists k :: 0 <= k < |calls| && calls[k].kind == DeletePrompt
  }

  lemma HasPromptDeleteLater(c: Call, calls: seq<Call>)
    requires c.kind == DeletePrompt || HasPromptDelete(calls)
    ensures HasPromptDelete([c] + calls)
  {
    if c.kind == DeletePrompt {
      assert ([c] + calls)[0].kind == DeletePrompt;
    } else {
      var k :| 0 <= k < |calls| && calls[k].kind == DeletePrompt;
      assert ([c] + calls)[k + 1].kind == DeletePrompt;
    }
  }

  lemma {:induction false} PromptingSends(id: nat, events: seq<Event>, seen: bool, j: nat)
    requires j < |events| && Asks(events, j) && (seen ==> !events[j].Token?)
    requires forall k :: 0 <= k < j ==> !events[k].OnLog? && !events[k].Decode?
    ensures HasPromptDelete(Prompting(id, events, seen))
    decreases |events|
  {
    hide Closing, HasPromptDelete;
    match events[0]
    case Token(accept) =>
      if seen {
        assert Asks(events[1..], j - 1);
        PromptingSends(id, events[1..], true, j - 1);
      } else {
        HasPromptDeleteLater(Call(DeletePrompt, id, accept),
                             if accept then Closing(id, events[1..]) else Prompting(id, events[1..], true));
      }
    case Response(accept) =>
      HasPromptDeleteLater(Call(DeletePrompt, id, accept),
                           if accept then Closing(id, events[1..]) else Prompting(id, events[1..], seen));
    case TimerFires(accept) =>
      HasPromptDeleteLater(Call(DeletePrompt, id, accept),
                           if accept then Closing(id, events[1..]) else Prompting(id, events[1..], seen));
  }

  lemma {:induction false} ExpectedSends(events: seq<Event>, seen: bool, i: nat, j: nat)
    requires i < j < |events| && events[i].Decode? && events[i].accept
    requires Asks(events, j) && (seen ==> !events[j].Token?)
    requires forall k :: 0 <= k < j ==> !events[k].OnLog? && (events[k].Decode? ==> k == i)
    ensures HasPromptDelete(Expected(true, events, seen))
    decreases |events|
  {
    hide HasPromptDelete, Prompting;
    assert Asks(events[1..], j - 1) && (events[0].Token? ==> !events[j].Token?);
    if i == 0 {
      var (id, rest) := (events[0].newId, events[1..]);
      PromptingSends(id, rest, seen, j - 1);
      HasPromptDeleteLater(Call(Add, id, true), Prompting(id, rest, seen));
    } else {
      ExpectedSends(events[1..], seen || events[0].Token?, i - 1, j - 1);
    }
  }

  lemma {:induction false} LegalOrder(f: Fields, events: seq<Event>)
    requires Legal(f, events)
    ensures forall k :: 0 <= k < |events| - 1 ==> !events[k].OnLog?
    ensures forall k, l :: 0 <= k < l < |events| ==> !(events[k].Decode? && events[l].Decode?)
    ensures f.phase != Created ==> forall k :: 0 <= k < |events| ==> !events[k].Decode?
    decreases |events|
  {
    if events != [] {
      var g := Apply(f, events[0]).fields;
      LegalOrder(g, events[1..]);
      if events[0].OnLog? {
        NothingAfterLog(g, events[1..]);
      }
    }
  }

  /** In every run, a request whose add was accepted has sent a prompt delete as soon as a response or a timer event, or
      its first token, has followed. */
  lemma PromptDeleteIsSent(actions: seq<Action>, t: System, r: nat, i: nat, j: nat)
    requires Reaches(START, actions, t) && r in t.filters && t.filters[r].enabled
    requires i < j < |EventsOf(actions, r)| && Asks(EventsOf(actions, r), j)
    requires EventsOf(actions, r)[i].Decode? && EventsOf(actions, r)[i].accept
    ensures exists k :: 0 <= k < |CallsOf(t.log, r)| && CallsOf(t.log, r)[k].kind == DeletePrompt
  {
    hide Legal, Expected, Apply, Replayed;
    var events := EventsOf(actions, r);
    var on := RunFromCreation(START, actions, t, r);
    LegalOrder(Fresh(on), events);
    CallsExactly(actions, t, r);
    ExpectedSends(events, false, i, j);
  }

  // ---------- the timer ----------

  /** A timer is armed exactly while an accepted add of a non-stream request is all that was sent. */
  ghost predicate TimerTells(f: Fields, calls: seq<Call>) {
    f.timerArmed <==> |calls| == 1 && calls[0].kind == Add && calls[0].accepted && !f.isStream
  }

  lemma ApplyKeepsTimer(f: Fields, calls: seq<Call>, e: Event)
    requires Shape(f, calls) && TimerTells(f, calls)
    requires f.phase != Logged && (e.Decode? ==> f.phase == Created)
    ensures TimerTells(Apply(f, e).fields, calls + Apply(f, e).calls)
  {
  }

  lemma {:induction false} ReplayKeepsTimer(f: Fields, calls: seq<Call>, events: seq<Event>)
    requires Legal(f, events) && Shape(f, calls) && TimerTells(f, calls)
    ensures TimerTells(Replayed(f, events).fields, calls + Replayed(f, events).calls)
    decreases |events|
  {
    hide Apply, Shape, TimerTells;
    if events == [] {
      assert calls + [] == calls;
    } else {
      var first := Apply(f, events[0]);
      ApplyKeepsShape(f, calls, events[0]);
      ApplyKeepsTimer(f, calls, events[0]);
      ReplayKeepsTimer(first.fields, calls + first.calls, events[1..]);
      AssociateCalls(calls, first.calls, Replayed(first.fields, events[1..]).calls);
    }
  }

  lemma {:induction false} StreamKept(f: Fields, events: seq<Event>)
    requires Legal(f, events)
    ensures forall i :: 0 <= i < |events| && events[i].Decode? ==> Replayed(f, events).fields.isStream == events[i].stream
    ensures f.phase != Created ==> Replayed(f, events).fields.isStream == f.isStream
    decreases |events|
  {
    if events != [] {
      StreamKept(Apply(f, events[0]).fields, events[1..]);
      if events[0].Decode? {
        LegalOrder(f, events);
      }
    }
  }

  /** In every run, a request's timer is armed exactly when its only call so far is an accepted add and its decode was
      that of a non-stream request: no prompt delete attempted, and not yet logged. */
  lemma TimerArmedIff(actions: seq<Action>, t: System, r: nat)
    requires Reaches(START, actions, t) && r in t.filters
    ensures t.filters[r].timerArmed <==>
            var calls := CallsOf(t.log, r);
            && |calls| == 1 && calls[0].kind == Add && calls[0].accepted
            && exists i :: 0 <= i < |EventsOf(actions, r)| && EventsOf(actions, r)[i].Decode? &&
                 !EventsOf(actions, r)[i].stream
  {
    hide Legal, Apply, Replayed, Shape, CallsOf;
    var on := RunFromCreation(START, actions, t, r);
    var (events, calls) := (EventsOf(actions, r), CallsOf(t.log, r));
    assert CallsOf([], r) == [] by {
      CallsOfNothing(r);
    }
    var replayed := Replayed(Fresh(on), events);
    assert [] + replayed.calls == replayed.calls == calls;
    FreshHasShape(on);
    ReplayKeepsTimer(Fresh(on), [], events);
    StreamKept(Fresh(on), events);
    CallsExactly(actions, t, r);
    ReplayEnabled(Fresh(on), events);
    if calls != [] {
      AddHasDecode(on, events, false);
    }
  }

  lemma CallsOfNothing(r: nat)
    ensures CallsOf([], r) == []
  {
  }

  lemma {:induction false} AddHasDecode(on: bool, events: seq<Event>, seen: bool)
    requires Expected(on, events, seen) != []
    ensures exists i :: 0 <= i < |events| && events[i].Decode?
    decreases |events|
  {
    if !events[0].Decode? {
      AddHasDecode(on, events[1..], seen || events[0].Token?);
      var i :| 0 <= i < |events[1..]| && events[1..][i].Decode?;
      assert events[i + 1].Decode?;
    }
  }
}
