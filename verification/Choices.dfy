/** Splitting the reasoning off the choices of a streamed completion. All choices share one think state, so what becomes
    of one depends on the others. */
module Choices {
  import opened Options
  import opened Text
  import opened Think

  /** One choice's part of a chunk; the index tells which choice it belongs to. */
  datatype Delta = Delta(index: int, content: Option<bytes>, reasoning: Option<bytes>)

  function ContentOf(d: Delta): bytes {
    OrEmpty(d.content)
  }

  function ConvertDelta(st: ThinkState, d: Delta): (ThinkState, Delta) {
    if OrEmpty(d.reasoning) == [] && d.content.Some? then
      var (next, out) := ChunkStep(st, d.content.value);
      (next, d.(content := out.content, reasoning := out.reasoning))
    else
      (st, d)
  }

  /** All choices of one chunk, in order, over one think state. */
  function ConvertDeltas(st: ThinkState, ds: seq<Delta>): (ThinkState, seq<Delta>)
    decreases |ds|
  {
    if ds == [] then (st, [])
    else
      var (mid, older) := ConvertDeltas(st, ds[..|ds| - 1]);
      var (next, d) := ConvertDelta(mid, ds[|ds| - 1]);
      (next, older + [d])
  }

  /** The same from the front, for deltas of any number of chunks. */
  function ConvertStream(st: ThinkState, ds: seq<Delta>): (r: seq<Delta>)
    ensures |r| == |ds|
    decreases |ds|
  {
    if ds == [] then []
    else
      var (next, d) := ConvertDelta(st, ds[0]);
      [d] + ConvertStream(next, ds[1..])
  }

  /** The think state after a list of deltas. */
  function After(st: ThinkState, ds: seq<Delta>): ThinkState
    decreases |ds|
  {
    if ds == [] then st else After(ConvertDelta(st, ds[0]).0, ds[1..])
  }

  lemma {:induction false} ConvertStreamAppend(st: ThinkState, a: seq<Delta>, b: seq<Delta>)
    ensures ConvertStream(st, a + b) == ConvertStream(st, a) + ConvertStream(After(st, a), b)
    ensures After(st, a + b) == After(After(st, a), b)
    decreases |a|
  {
    hide ConvertDelta;
    if a == [] {
      assert a + b == b;
    } else {
      assert (a + b)[1..] == a[1..] + b && (a + b)[0] == a[0];
      ConvertStreamAppend(ConvertDelta(st, a[0]).0, a[1..], b);
    }
  }

  lemma ConvertOne(st: ThinkState, d: Delta)
    ensures ConvertStream(st, [d]) == [ConvertDelta(st, d).1] && After(st, [d]) == ConvertDelta(st, d).0
  {
    hide ConvertDelta;
    assert [d][1..] == [];
    assert ConvertStream(ConvertDelta(st, d).0, []) == [];
  }

  /** Chunk by chunk or delta by delta is the same. */
  lemma {:induction false} ConvertDeltasIsStream(st: ThinkState, ds: seq<Delta>)
    ensures ConvertDeltas(st, ds) == (After(st, ds), ConvertStream(st, ds))
    decreases |ds|
  {
    hide ConvertDelta;
    if ds != [] {
      var (older, d) := (ds[..|ds| - 1], ds[|ds| - 1]);
      assert ds == older + [d];
      ConvertDeltasIsStream(st, older);
      ConvertStreamAppend(st, older, [d]);
      ConvertOne(After(st, older), d);
    }
  }

  /** A delta with reasoning of its own, or without content, passes as it is, and the others are converted as if it were
      not there. */
  lemma OwnReasoningPasses(st: ThinkState, a: seq<Delta>, d: Delta, b: seq<Delta>)
    requires d.content.None? || (d.reasoning.Some? && d.reasoning.value != [])
    ensures var (before, after) := (ConvertStream(st, a), ConvertStream(st, a + b)[|a|..]);
            && ConvertStream(st, a + [d] + b) == before + [d] + after
            && ConvertStream(st, a + b) == before + after
  {
    ConvertStreamAppend(st, a, b);
    ConvertStreamAppend(st, a + [d], b);
    ConvertStreamAppend(st, a, [d]);
    ConvertOne(After(st, a), d);
    assert ConvertStream(st, a + b)[|a|..] == ConvertStream(After(st, a), b);
  }

  // ---------- what one choice receives ----------

  function Piece(d: Delta): Split {
    Split(OrEmpty(d.content), OrEmpty(d.reasoning))
  }

  function Join(a: Split, b: Split): Split {
    Split(a.content + b.content, a.reasoning + b.reasoning)
  }

  function Collected(ds: seq<Delta>): Split {
    if ds == [] then Split([], []) else Join(Piece(ds[0]), Collected(ds[1..]))
  }

  function OfIndex(ds: seq<Delta>, j: int): seq<Delta> {
    if ds == [] then []
    else (if ds[0].index == j then [ds[0]] else []) + OfIndex(ds[1..], j)
  }

  function Texts(ds: seq<Delta>): seq<bytes> {
    if ds == [] then [] else [ContentOf(ds[0])] + Texts(ds[1..])
  }

  /** Everything the backend sends for choice j, chunk by chunk. */
  function ChunksOf(ds: seq<Delta>, j: int): seq<bytes> {
    Texts(OfIndex(ds, j))
  }

  /** Everything the client receives for choice j, put together. */
  function Received(st: ThinkState, ds: seq<Delta>, j: int): Split {
    Collected(OfIndex(ConvertStream(st, ds), j))
  }

  ghost predicate NoOwnReasoning(ds: seq<Delta>) {
    forall i :: 0 <= i < |ds| ==> OrEmpty(ds[i].reasoning) == []
  }

  /** The client receives the whole-text split of what the backend sends for choice j. */
  ghost predicate Agrees(ds: seq<Delta>, j: int) {
    Received(INITIAL, ds, j) == ExtractReasoningContent(Concat(ChunksOf(ds, j)))
  }

  lemma CollectedCons(d: Delta, ds: seq<Delta>)
    ensures Collected([d] + ds) == Join(Piece(d), Collected(ds))
    ensures Texts([d] + ds) == [ContentOf(d)] + Texts(ds)
  {
    assert ([d] + ds)[1..] == ds;
  }

  lemma ReceivedCons(st: ThinkState, ds: seq<Delta>, j: int)
    requires ds != []
    ensures var (next, d) := ConvertDelta(st, ds[0]);
            var later := Received(next, ds[1..], j);
            Received(st, ds, j) == if ds[0].index == j then Join(Piece(d), later) else later
    ensures var later := ChunksOf(ds[1..], j);
            ChunksOf(ds, j) == if ds[0].index == j then [ContentOf(ds[0])] + later else later
  {
    hide Collected, Texts, ChunkStep;
    var (next, d) := ConvertDelta(st, ds[0]);
    var out := ConvertStream(st, ds);
    assert out[0] == d && out[1..] == ConvertStream(next, ds[1..]) && d.index == ds[0].index;
    CollectedCons(d, OfIndex(out[1..], j));
    CollectedCons(ds[0], OfIndex(ds[1..], j));
    assert [] + OfIndex(out[1..], j) == OfIndex(out[1..], j) && [] + OfIndex(ds[1..], j) == OfIndex(ds[1..], j);
  }

  lemma ConcatCons(c: bytes, rest: seq<bytes>)
    ensures Concat([c] + rest) == c + Concat(rest)
  {
    assert ([c] + rest)[1..] == rest;
  }

  // ---------- single deltas ----------

  const OUTSIDE := ThinkState(true, false)
  const INSIDE := ThinkState(true, true)

  lemma OutsideStep(d: Delta)
    requires OrEmpty(d.reasoning) == []
    ensures var (next, out) := ConvertDelta(OUTSIDE, d); next == OUTSIDE && Piece(out) == Split(ContentOf(d), [])
  {
    hide Index;
  }

  lemma NoTagInNothing()
    ensures Index([], END_TAG) == -1
  {
  }

  lemma InsideStep(d: Delta)
    requires OrEmpty(d.reasoning) == []
    ensures var (next, out) := ConvertDelta(INSIDE, d);
            && next == ThinkState(true, Index(ContentOf(d), END_TAG) == -1)
            && Piece(out) == SplitAtEndTag(ContentOf(d))
  {
    hide Index;
    NoTagInNothing();
  }

  lemma InitialStep(d: Delta)
    requires OrEmpty(d.reasoning) == []
    ensures var (next, out) := ConvertDelta(INITIAL, d);
            var text := ContentOf(d);
            && (text == [] ==> next == INITIAL)
            && (text != [] && !HasPrefix(text, START_TAG) ==> next == OUTSIDE)
            && (HasPrefix(text, START_TAG) ==> next == ThinkState(true, Index(text, END_TAG) == -1))
            && Piece(out) == ExtractReasoningContent(text)
  {
    hide Index;
  }

  // ---------- all choices outside reasoning, or one inside ----------

  lemma {:induction false} ReceivedOutside(ds: seq<Delta>, j: int)
    requires NoOwnReasoning(ds)
    ensures Received(OUTSIDE, ds, j) == Split(Concat(ChunksOf(ds, j)), [])
    decreases |ds|
  {
    hide Received, ChunksOf, ConvertDelta, Concat;
    if ds == [] {
      NothingReceived(OUTSIDE, j);
    } else {
      OutsideStep(ds[0]);
      ReceivedCons(OUTSIDE, ds, j);
      ReceivedOutside(ds[1..], j);
      ConcatCons(ContentOf(ds[0]), ChunksOf(ds[1..], j));
    }
  }

  lemma NothingReceived(st: ThinkState, j: int)
    ensures Received(st, [], j) == Split([], []) && ChunksOf([], j) == [] && Concat([]) == []
  {
  }

  /** Until the first end tag, only choice a sends any text. */
  predicate Uninterrupted(ds: seq<Delta>, a: int)
    decreases |ds|
  {
    ds == []
    || (ContentOf(ds[0]) == [] && Uninterrupted(ds[1..], a))
    || (ds[0].index == a && (Index(ContentOf(ds[0]), END_TAG) != -1 || Uninterrupted(ds[1..], a)))
  }

  /** What every choice but a receives while a is reasoning undisturbed. */
  lemma {:induction false} BystanderInside(ds: seq<Delta>, a: int, j: int)
    requires NoOwnReasoning(ds) && Uninterrupted(ds, a) && j != a
    ensures Received(INSIDE, ds, j) == Split(Concat(ChunksOf(ds, j)), [])
    decreases |ds|
  {
    hide Received, ChunksOf, ConvertDelta, Concat, Index;
    if ds == [] {
      NothingReceived(INSIDE, j);
    } else {
      InsideStep(ds[0]);
      ReceivedCons(INSIDE, ds, j);
      NoTagInNothing();
      ConcatCons(ContentOf(ds[0]), ChunksOf(ds[1..], j));
      if Index(ContentOf(ds[0]), END_TAG) != -1 {
        ReceivedOutside(ds[1..], j);
      } else {
        BystanderInside(ds[1..], a, j);
      }
    }
  }

  lemma InsideStreamed(c: bytes, rest: seq<bytes>)
    ensures Streamed(INSIDE, [c] + rest) ==
            Join(SplitAtEndTag(c), Streamed(ThinkState(true, Index(c, END_TAG) == -1), rest))
  {
    hide Index, Streamed;
    StreamedCons(INSIDE, c, rest);
  }

  /** And what a receives: the streaming split of its own chunks. */
  lemma {:induction false} OwnInside(ds: seq<Delta>, a: int)
    requires NoOwnReasoning(ds) && Uninterrupted(ds, a)
    ensures Received(INSIDE, ds, a) == Streamed(INSIDE, ChunksOf(ds, a))
    decreases |ds|
  {
    hide Received, ChunksOf, ConvertDelta, Concat, Index, Streamed, SplitAtEndTag;
    if ds == [] {
      NothingReceived(INSIDE, a);
      NothingStreamed(INSIDE);
    } else {
      var (c, rest) := (ContentOf(ds[0]), ds[1..]);
      InsideStep(ds[0]);
      ReceivedCons(INSIDE, ds, a);
      InsideStreamed(c, ChunksOf(rest, a));
      NoTagInNothing();
      if Index(c, END_TAG) != -1 {
        ReceivedOutside(rest, a);
        StreamedContent(ChunksOf(rest, a));
      } else {
        OwnInside(rest, a);
      }
    }
  }

  lemma NothingStreamed(st: ThinkState)
    ensures Streamed(st, []) == Split([], [])
  {
  }

  // ---------- an interrupted choice ----------

  function Total(x: Split): nat {
    |x.content| + |x.reasoning|
  }

  /** Inside reasoning a choice loses an end tag or nothing. */
  lemma {:induction false} TotalInside(ds: seq<Delta>, j: int)
    requires NoOwnReasoning(ds)
    ensures var (n, m) := (Total(Received(INSIDE, ds, j)), |Concat(ChunksOf(ds, j))|); n == m || n + |END_TAG| == m
    decreases |ds|
  {
    hide Received, ChunksOf, ConvertDelta, Concat, Index;
    if ds == [] {
      NothingReceived(INSIDE, j);
    } else {
      InsideStep(ds[0]);
      ReceivedCons(INSIDE, ds, j);
      ConcatCons(ContentOf(ds[0]), ChunksOf(ds[1..], j));
      if Index(ContentOf(ds[0]), END_TAG) != -1 {
        ReceivedOutside(ds[1..], j);
      } else {
        TotalInside(ds[1..], j);
      }
    }
  }

  /** The whole-text split loses nothing, or a start tag, or both tags. */
  lemma WholeTotal(text: bytes)
    ensures var (x, n) := (ExtractReasoningContent(text), Total(ExtractReasoningContent(text)));
            if HasPrefix(text, START_TAG)
            then n + |START_TAG| == |text| || n + |START_TAG| + |END_TAG| == |text|
            else n == |text| && x == Split(text, [])
  {
    hide Index;
    if HasPrefix(text, START_TAG) {
      EndTagAfterStartTag(text);
    }
  }

  lemma SpoiltAtOnce(ds: seq<Delta>)
    requires NoOwnReasoning(ds) && ds != [] && ContentOf(ds[0]) != []
    ensures var j := ds[0].index; Received(INSIDE, ds, j) != ExtractReasoningContent(Concat(ChunksOf(ds, j)))
  {
    hide Received, ChunksOf, ConvertDelta, Concat, Index, ExtractReasoningContent;
    var (j, c) := (ds[0].index, ContentOf(ds[0]));
    InsideStep(ds[0]);
    ReceivedCons(INSIDE, ds, j);
    ConcatCons(c, ChunksOf(ds[1..], j));
    TotalInside(ds, j);
    WholeTotal(Concat(ChunksOf(ds, j)));
    if Index(c, END_TAG) != -1 {
      ReceivedOutside(ds[1..], j);
    }
  }

  /** Some choice that speaks while a is reasoning does not receive its whole-text split. */
  lemma {:induction false} Interrupter(ds: seq<Delta>, a: int) returns (j: int)
    requires NoOwnReasoning(ds) && !Uninterrupted(ds, a)
    ensures j != a && Received(INSIDE, ds, j) != ExtractReasoningContent(Concat(ChunksOf(ds, j)))
    decreases |ds|
  {
    hide Received, ChunksOf, ConvertDelta, Concat, Index, ExtractReasoningContent;
    var c := ContentOf(ds[0]);
    InsideStep(ds[0]);
    NoTagInNothing();
    if c != [] && ds[0].index != a {
      j := ds[0].index;
      SpoiltAtOnce(ds);
    } else {
      j := Interrupter(ds[1..], a);
      ReceivedCons(INSIDE, ds, j);
      ConcatCons(c, ChunksOf(ds[1..], j));
      var later := Received(INSIDE, ds[1..], j);
      assert [] + Concat(ChunksOf(ds[1..], j)) == Concat(ChunksOf(ds[1..], j));
      assert Join(Split([], []), later) == later;
    }
  }

  // ---------- from the beginning of a stream ----------

  /** The first delta with any text. */
  function First(ds: seq<Delta>): Option<Delta> {
    if ds == [] then None else if ContentOf(ds[0]) != [] then Some(ds[0]) else First(ds[1..])
  }

  ghost predicate Tagged(d: Delta) {
    HasPrefix(ContentOf(d), START_TAG)
  }

  lemma LeadingEmpty(ds: seq<Delta>, j: int)
    requires NoOwnReasoning(ds) && ds != [] && ContentOf(ds[0]) == []
    ensures Received(INITIAL, ds, j) == Received(INITIAL, ds[1..], j)
    ensures Concat(ChunksOf(ds, j)) == Concat(ChunksOf(ds[1..], j))
    ensures Streamed(INITIAL, ChunksOf(ds, j)) == Streamed(INITIAL, ChunksOf(ds[1..], j))
  {
    hide Received, ChunksOf, ConvertDelta, Concat, Index, Streamed;
    InitialStep(ds[0]);
    ReceivedCons(INITIAL, ds, j);
    ConcatCons([], ChunksOf(ds[1..], j));
    StreamedCons(INITIAL, [], ChunksOf(ds[1..], j));
    NoTagInNothing();
  }

  /** What the first text does to every choice. */
  lemma AfterFirst(ds: seq<Delta>, j: int)
    requires NoOwnReasoning(ds) && ds != [] && ContentOf(ds[0]) != []
    ensures var (c, own) := (ContentOf(ds[0]), ds[0].index == j);
            var next := ThinkState(true, HasPrefix(c, START_TAG) && Index(c, END_TAG) == -1);
            var later := Received(next, ds[1..], j);
            Received(INITIAL, ds, j) == if own then Join(ExtractReasoningContent(c), later) else later
    ensures var (c, own, later) := (ContentOf(ds[0]), ds[0].index == j, ChunksOf(ds[1..], j));
            && ChunksOf(ds, j) == (if own then [c] + later else later)
            && Concat(ChunksOf(ds, j)) == (if own then c + Concat(later) else Concat(later))
  {
    hide Received, ChunksOf, ConvertDelta, Concat, Index, ExtractReasoningContent;
    InitialStep(ds[0]);
    ReceivedCons(INITIAL, ds, j);
    ConcatCons(ContentOf(ds[0]), ChunksOf(ds[1..], j));
  }

  lemma FirstStreamed(c: bytes, rest: seq<bytes>)
    requires c != []
    ensures var next := ThinkState(true, HasPrefix(c, START_TAG) && Index(c, END_TAG) == -1);
            Streamed(INITIAL, [c] + rest) == Join(ExtractReasoningContent(c), Streamed(next, rest))
  {
    hide Index, Streamed, Concat;
    if HasPrefix(c, START_TAG) {
      StartTagEntersThinking(c, rest);
      InsideStreamed(c[|START_TAG|..], rest);
      WholeAfterStartTag(c);
      EndTagAfterStartTag(c);
    } else {
      AgreesWithoutStartTag(c, rest);
      StreamedContent(rest);
    }
  }

  lemma {:induction false} OthersReceive(ds: seq<Delta>, j: int)
    requires NoOwnReasoning(ds) && First(ds).Some? && First(ds).value.index != j
    requires Tagged(First(ds).value) ==> Uninterrupted(ds, First(ds).value.index)
    ensures Received(INITIAL, ds, j) == Split(Concat(ChunksOf(ds, j)), [])
    decreases |ds|
  {
    hide Received, ChunksOf, ConvertDelta, Concat, Index;
    NoTagInNothing();
    if ContentOf(ds[0]) == [] {
      LeadingEmpty(ds, j);
      OthersReceive(ds[1..], j);
    } else {
      AfterFirst(ds, j);
      if Tagged(ds[0]) && Index(ContentOf(ds[0]), END_TAG) == -1 {
        BystanderInside(ds[1..], ds[0].index, j);
      } else {
        ReceivedOutside(ds[1..], j);
      }
    }
  }

  lemma {:induction false} OwnReceives(ds: seq<Delta>, a: int)
    requires NoOwnReasoning(ds) && First(ds).Some? && First(ds).value.index == a
    requires Tagged(First(ds).value) ==> Uninterrupted(ds, a)
    ensures Received(INITIAL, ds, a) == Streamed(INITIAL, ChunksOf(ds, a))
    decreases |ds|
  {
    hide Received, ChunksOf, ConvertDelta, Concat, Index, Streamed, ExtractReasoningContent;
    NoTagInNothing();
    if ContentOf(ds[0]) == [] {
      LeadingEmpty(ds, a);
      OwnReceives(ds[1..], a);
    } else {
      var (c, later) := (ContentOf(ds[0]), ChunksOf(ds[1..], a));
      AfterFirst(ds, a);
      FirstStreamed(c, later);
      if Tagged(ds[0]) && Index(c, END_TAG) == -1 {
        OwnInside(ds[1..], a);
      } else {
        ReceivedOutside(ds[1..], a);
        StreamedContent(later);
      }
    }
  }

  lemma {:induction false} InterruptedFails(ds: seq<Delta>, a: int) returns (j: int)
    requires NoOwnReasoning(ds) && First(ds).Some? && First(ds).value.index == a
    requires Tagged(First(ds).value) && !Uninterrupted(ds, a)
    ensures !Agrees(ds, j)
    decreases |ds|
  {
    hide Received, ChunksOf, ConvertDelta, Concat, Index, ExtractReasoningContent;
    NoTagInNothing();
    if ContentOf(ds[0]) == [] {
      j := InterruptedFails(ds[1..], a);
      LeadingEmpty(ds, j);
    } else {
      j := Interrupter(ds[1..], a);
      AfterFirst(ds, j);
    }
  }

  lemma {:induction false} SilentReceives(ds: seq<Delta>, j: int)
    requires NoOwnReasoning(ds) && First(ds).None?
    ensures Agrees(ds, j)
    decreases |ds|
  {
    hide Received, ChunksOf, ConvertDelta, Concat;
    if ds == [] {
      NothingReceived(INITIAL, j);
    } else {
      LeadingEmpty(ds, j);
      SilentReceives(ds[1..], j);
    }
  }

  // ---------- main results ----------

  /** The choice that speaks first keeps its tags whole and, if it starts with the start tag, nobody else speaks until
      its end tag; and no other choice's text starts with the start tag. */
  ghost predicate Separable(ds: seq<Delta>) {
    match First(ds)
    case None => true
    case Some(d) =>
      && TagsWhole(ChunksOf(ds, d.index))
      && (Tagged(d) ==> Uninterrupted(ds, d.index))
      && forall j :: j != d.index ==> !HasPrefix(Concat(ChunksOf(ds, j)), START_TAG)
  }

  lemma OthersAgreeIff(ds: seq<Delta>, j: int)
    requires NoOwnReasoning(ds) && First(ds).Some? && First(ds).value.index != j
    requires Tagged(First(ds).value) ==> Uninterrupted(ds, First(ds).value.index)
    ensures Agrees(ds, j) <==> !HasPrefix(Concat(ChunksOf(ds, j)), START_TAG)
  {
    hide Received, ChunksOf, ExtractReasoningContent;
    OthersReceive(ds, j);
    WholeTotal(Concat(ChunksOf(ds, j)));
  }

  lemma OwnAgreesIff(ds: seq<Delta>, a: int)
    requires NoOwnReasoning(ds) && First(ds).Some? && First(ds).value.index == a
    requires Tagged(First(ds).value) ==> Uninterrupted(ds, a)
    ensures Agrees(ds, a) <==> TagsWhole(ChunksOf(ds, a))
  {
    hide Received, ChunksOf, ExtractReasoningContent, TagsWhole;
    OwnReceives(ds, a);
    StreamingAgreesIff(ChunksOf(ds, a));
  }

  /** For any number of choices, interleaved over any chunks: every choice receives the whole-text split of its own text
      exactly when the choices are separable. */
  lemma EveryChoiceAgreesIff(ds: seq<Delta>)
    requires NoOwnReasoning(ds)
    ensures (forall j :: Agrees(ds, j)) <==> Separable(ds)
  {
    hide Agrees, ChunksOf, TagsWhole, Uninterrupted, First;
    match First(ds)
    case None =>
      forall j
        ensures Agrees(ds, j)
      {
        SilentReceives(ds, j);
      }
    case Some(d) =>
      if Tagged(d) && !Uninterrupted(ds, d.index) {
        var j := InterruptedFails(ds, d.index);
      } else {
        OwnAgreesIff(ds, d.index);
        forall j | j != d.index
          ensures Agrees(ds, j) <==> !HasPrefix(Concat(ChunksOf(ds, j)), START_TAG)
        {
          OthersAgreeIff(ds, j);
        }
      }
  }

  // ---------- one choice ----------

  lemma StreamedPiece(st: ThinkState, d: Delta, rest: seq<bytes>)
    requires OrEmpty(d.reasoning) == []
    ensures var (next, out) := ConvertDelta(st, d);
            Streamed(st, [ContentOf(d)] + rest) == Join(Piece(out), Streamed(next, rest))
  {
    hide Index, Streamed;
    StreamedCons(st, ContentOf(d), rest);
    NoTagInNothing();
  }

  lemma {:induction false} ConvertStreamCollects(st: ThinkState, ds: seq<Delta>)
    requires NoOwnReasoning(ds)
    ensures Collected(ConvertStream(st, ds)) == Streamed(st, Texts(ds))
    decreases |ds|
  {
    hide ConvertDelta, Streamed;
    if ds == [] {
      NothingStreamed(st);
    } else {
      StreamedPiece(st, ds[0], Texts(ds[1..]));
      ConvertStreamCollects(ConvertDelta(st, ds[0]).0, ds[1..]);
      assert ConvertStream(st, ds)[1..] == ConvertStream(ConvertDelta(st, ds[0]).0, ds[1..]);
    }
  }

  /** The deltas of one choice on their own: they add up to the whole-text split exactly when no chunk boundary breaks a
      tag that matters. */
  lemma ReasoningStreamIff(ds: seq<Delta>)
    requires NoOwnReasoning(ds)
    ensures Collected(ConvertStream(INITIAL, ds)) == ExtractReasoningContent(Concat(Texts(ds))) <==>
            TagsWhole(Texts(ds))
  {
    hide TagsWhole, ExtractReasoningContent;
    ConvertStreamCollects(INITIAL, ds);
    StreamingAgreesIff(Texts(ds));
  }

  lemma {:induction false} OnlyIndex(ds: seq<Delta>, a: int, j: int)
    requires forall i :: 0 <= i < |ds| ==> ds[i].index == a
    ensures OfIndex(ds, j) == (if j == a then ds else []) && Uninterrupted(ds, a)
    ensures First(ds).Some? ==> First(ds).value.index == a
    ensures First(ds).None? ==> Concat(Texts(ds)) == []
  {
    hide Index;
    if ds != [] {
      OnlyIndex(ds[1..], a, j);
    }
  }

  /** A stream with a single choice is separable exactly when its tags are whole. */
  lemma SingleChoiceSeparableIff(ds: seq<Delta>, a: int)
    requires forall i :: 0 <= i < |ds| ==> ds[i].index == a
    ensures Separable(ds) <==> TagsWhole(Texts(ds))
  {
    hide OfIndex, Uninterrupted, First, Texts, TagsWhole, Concat, HasPrefix;
    OnlyIndex(ds, a, a);
    NothingTagged();
    forall j | j != a
      ensures OfIndex(ds, j) == []
    {
      OnlyIndex(ds, a, j);
    }
    if First(ds).None? {
      SilentTagsWhole(Texts(ds));
    }
  }

  lemma NothingTagged()
    ensures !HasPrefix(Concat(Texts([])), START_TAG)
  {
  }

  lemma SilentTagsWhole(chunks: seq<bytes>)
    requires Concat(chunks) == []
    ensures TagsWhole(chunks)
  {
  }

  // ---------- one chunk ----------

  ghost predicate PieceAgrees(d: Delta, out: Delta) {
    Piece(out) == ExtractReasoningContent(ContentOf(d))
  }

  ghost predicate EachAgrees(st: ThinkState, ds: seq<Delta>) {
    forall i :: 0 <= i < |ds| ==> PieceAgrees(ds[i], ConvertStream(st, ds)[i])
  }

  lemma EachAgreesCons(st: ThinkState, ds: seq<Delta>)
    requires ds != []
    ensures var (next, d) := ConvertDelta(st, ds[0]);
            EachAgrees(st, ds) <==> PieceAgrees(ds[0], d) && EachAgrees(next, ds[1..])
  {
    hide ConvertDelta, PieceAgrees;
    var (next, d) := ConvertDelta(st, ds[0]);
    var (out, later) := (ConvertStream(st, ds), ConvertStream(next, ds[1..]));
    assert out == [d] + later;
    if EachAgrees(st, ds) {
      forall i | 0 <= i < |later|
        ensures PieceAgrees(ds[1..][i], later[i])
      {
        assert PieceAgrees(ds[i + 1], out[i + 1]);
      }
      assert PieceAgrees(ds[0], out[0]);
    } else {
      var i :| 0 <= i < |ds| && !PieceAgrees(ds[i], out[i]);
      assert i > 0 ==> ds[i] == ds[1..][i - 1] && out[i] == later[i - 1];
    }
  }

  ghost predicate NoneTagged(ds: seq<Delta>) {
    forall i :: 0 <= i < |ds| ==> !Tagged(ds[i])
  }

  ghost predicate AllSilent(ds: seq<Delta>) {
    forall i :: 0 <= i < |ds| ==> ContentOf(ds[i]) == []
  }

  lemma {:induction false} EachOutside(ds: seq<Delta>)
    requires NoOwnReasoning(ds)
    ensures EachAgrees(OUTSIDE, ds) <==> NoneTagged(ds)
  {
    hide ConvertDelta, Index, EachAgrees, ExtractReasoningContent;
    if ds == [] {
      NothingToConvert(OUTSIDE);
    } else {
      EachAgreesCons(OUTSIDE, ds);
      OutsideStep(ds[0]);
      WholeTotal(ContentOf(ds[0]));
      EachOutside(ds[1..]);
    }
  }

  lemma NothingToConvert(st: ThinkState)
    ensures EachAgrees(st, [])
  {
  }

  lemma {:induction false} EachInside(ds: seq<Delta>)
    requires NoOwnReasoning(ds)
    ensures EachAgrees(INSIDE, ds) <==> AllSilent(ds)
  {
    hide ConvertDelta, Index, EachAgrees, ExtractReasoningContent;
    if ds == [] {
      NothingToConvert(INSIDE);
    } else {
      EachAgreesCons(INSIDE, ds);
      InsideStep(ds[0]);
      WholeTotal(ContentOf(ds[0]));
      NoTagInNothing();
      EachInside(ds[1..]);
    }
  }

  /** After the first text no other starts with the start tag, and if it opens reasoning without closing it, no other
      follows. */
  ghost predicate ChunkSeparable(ds: seq<Delta>) {
    if ds == [] then true
    else if ContentOf(ds[0]) == [] then ChunkSeparable(ds[1..])
    else
      && NoneTagged(ds[1..])
      && (Tagged(ds[0]) && Index(ContentOf(ds[0]), END_TAG) == -1 ==> AllSilent(ds[1..]))
  }

  lemma SilentNotTagged(ds: seq<Delta>)
    requires AllSilent(ds)
    ensures NoneTagged(ds)
  {
  }

  /** In the first chunk of a stream, every choice gets its whole-text split exactly when the chunk is separable. */
  lemma {:induction false} FirstChunkAgreesIff(ds: seq<Delta>)
    requires NoOwnReasoning(ds)
    ensures EachAgrees(INITIAL, ds) <==> ChunkSeparable(ds)
    decreases |ds|
  {
    hide ConvertDelta, Index, EachAgrees, ExtractReasoningContent, NoneTagged, AllSilent;
    if ds == [] {
      NothingToConvert(INITIAL);
    } else {
      EachAgreesCons(INITIAL, ds);
      InitialStep(ds[0]);
      if ContentOf(ds[0]) == [] {
        FirstChunkAgreesIff(ds[1..]);
      } else if Tagged(ds[0]) && Index(ContentOf(ds[0]), END_TAG) == -1 {
        EachInside(ds[1..]);
        if AllSilent(ds[1..]) {
          SilentNotTagged(ds[1..]);
        }
      } else {
        EachOutside(ds[1..]);
      }
    }
  }

  /** For instance, of two choices that each carry a whole reasoning block, sent in one chunk or in two, not both are
      split. */
  lemma SecondChoiceUnsplit(text: bytes, j: int, k: int)
    requires HasPrefix(text, START_TAG) && Index(text, END_TAG) != -1 && j != k
    ensures var ds := [Delta(j, Some(text), None), Delta(k, Some(text), None)];
            Agrees(ds, j) && !Agrees(ds, k) && Received(INITIAL, ds, k) == Split(text, [])
  {
    hide Received, ExtractReasoningContent, Index, InOneChunk;
    var (d, e) := (Delta(j, Some(text), None), Delta(k, Some(text), None));
    var ds := [d, e];
    assert ds[1..] == [e] && [e][1..] == [];
    assert First(ds) == Some(d) && Uninterrupted(ds, j);
    TwoChunks(d, e, j);
    TwoChunks(d, e, k);
    assert [text] + [] == [text] && Concat([text]) == text + [] == text;
    OwnAgreesIff(ds, j);
    WholeTag(text);
    OthersReceive(ds, k);
    OthersAgreeIff(ds, k);
  }

  lemma TwoChunks(d: Delta, e: Delta, j: int)
    ensures ChunksOf([d, e], j) ==
            (if d.index == j then [ContentOf(d)] else []) + (if e.index == j then [ContentOf(e)] else [])
  {
    hide ConvertDelta, Received, ChunksOf;
    assert [d, e][1..] == [e] && [e][1..] == [];
    ReceivedCons(INITIAL, [d, e], j);
    ReceivedCons(INITIAL, [e], j);
    NothingReceived(INITIAL, j);
  }

  lemma WholeTag(text: bytes)
    ensures TagsWhole([text])
  {
    assert Concat([text]) == text + [] == text;
    IndexIsFirst(text, END_TAG);
  }
}
