/** Splitting `<think>...</think>` reasoning off a completion: from the whole text, and chunk by chunk. */
module Think {
  import opened Options
  import opened Text

  const START_TAG := "<think>"
  const END_TAG := "</think>"

  datatype Split = Split(content: bytes, reasoning: bytes)

  /** The two flags kept between chunks. */
  datatype ThinkState = ThinkState(metFirstChunk: bool, isThinking: bool)

  const INITIAL := ThinkState(false, false)

  /** What one chunk contributes; None is a nil pointer. */
  datatype Emitted = Emitted(content: Option<bytes>, reasoning: Option<bytes>)

  lemma OccursShifted(c: bytes, t: bytes, p: bytes, i: nat)
    requires i <= |t|
    ensures OccursAt(c + t, p, |c| + i) == OccursAt(t, p, i)
  {
    assert (c + t)[|c| + i..] == t[i..];
  }

  lemma OccursInside(c: bytes, t: bytes, p: bytes, i: nat)
    requires i + |p| <= |c|
    ensures OccursAt(c + t, p, i) == OccursAt(c, p, i)
  {
    assert (c + t)[i..] == c[i..] + t;
    PrefixExtend(c[i..], t, p);
  }

  /** The first occurrence in c + t, when c has none. */
  lemma IndexAcross(c: bytes, t: bytes, p: bytes)
    requires p != [] && Index(c, p) == -1
    ensures Index(c + t, p) == -1 ==> Index(t, p) == -1
    ensures Index(c + t, p) >= |c| ==> Index(t, p) == Index(c + t, p) - |c|
    ensures Index(c + t, p) >= 0 ==> Index(c + t, p) + |p| > |c|
  {
    var (s, i, j) := (c + t, Index(c + t, p), Index(t, p));
    IndexIsFirst(s, p);
    IndexIsFirst(t, p);
    IndexIsFirst(c, p);
    if j >= 0 {
      OccursShifted(c, t, p, j);
    }
    if i >= |c| {
      OccursShifted(c, t, p, i - |c|);
    } else if i >= 0 && i + |p| <= |c| {
      OccursInside(c, t, p, i);
    }
  }

  /** No end tag begins inside the start tag. */
  lemma NoEarlyEndTag(text: bytes, i: nat)
    requires HasPrefix(text, START_TAG) && i < |START_TAG|
    ensures !OccursAt(text, END_TAG, i)
  {
    OccursBytes(text, END_TAG, i);
    var head := text[..7];
    assert text[i] == head[i] == START_TAG[i] && text[1] == head[1] == 't';
    if i == 0 {
      assert text[i + 1] != END_TAG[1];
    } else {
      assert text[i + 0] != END_TAG[0];
    }
  }

  /** So the reasoning slice after a leading start tag is always well formed. */
  lemma EndTagAfterStartTag(text: bytes)
    requires HasPrefix(text, START_TAG)
    ensures var i := Index(text[|START_TAG|..], END_TAG);
            Index(text, END_TAG) == if i == -1 then -1 else i + |START_TAG|
  {
    var (t, i, k) := (text[|START_TAG|..], Index(text[|START_TAG|..], END_TAG), Index(text, END_TAG));
    assert text == START_TAG + t;
    IndexIsFirst(text, END_TAG);
    IndexIsFirst(t, END_TAG);
    if 0 <= k < |START_TAG| {
      NoEarlyEndTag(text, k);
    } else if k >= 0 {
      OccursShifted(START_TAG, t, END_TAG, k - |START_TAG|);
    }
    if i >= 0 {
      OccursShifted(START_TAG, t, END_TAG, i);
    }
  }

  function ExtractReasoningContent(text: bytes): Split {
    if HasPrefix(text, START_TAG) then
      EndTagAfterStartTag(text);
      var end := Index(text, END_TAG);
      if end != -1 then Split(text[end + |END_TAG|..], text[|START_TAG|..end])
      else Split([], text[|START_TAG|..])
    else Split(text, [])
  }

  /** An end tag behind a text without one is the first: the tag does not overlap itself. */
  lemma FirstEndTag(reasoning: bytes, content: bytes)
    requires Index(reasoning, END_TAG) == -1
    ensures Index(reasoning + END_TAG + content, END_TAG) == |reasoning|
  {
    hide Index;
    var (n, s) := (|reasoning|, reasoning + END_TAG + content);
    IndexIsFirst(s, END_TAG);
    IndexIsFirst(reasoning, END_TAG);
    OccursBytes(s, END_TAG, n);
    forall i: nat | i < n
      ensures !OccursAt(s, END_TAG, i)
    {
      OccursBytes(s, END_TAG, i);
      if i + 8 <= n {
        Associate(reasoning, END_TAG, content);
        OccursInside(reasoning, END_TAG + content, END_TAG, i);
      } else {
        assert s[i + (n - i)] == '<' != END_TAG[n - i];
      }
    }
  }

  /** What the whole-text split is: a reasoning block and a rest come apart again, a block that is never closed is all
      reasoning, and any other text is all content. */
  lemma ExtractTakesApart(reasoning: bytes, content: bytes)
    requires Index(reasoning, "</think>") == -1
    ensures ExtractReasoningContent("<think>" + reasoning + "</think>" + content) == Split(content, reasoning)
    ensures ExtractReasoningContent("<think>" + reasoning) == Split([], reasoning)
    ensures !HasPrefix(content, "<think>") ==> ExtractReasoningContent(content) == Split(content, [])
  {
    hide Index;
    var (closed, open) := ("<think>" + reasoning + "</think>" + content, "<think>" + reasoning);
    assert closed[..7] == "<think>" && closed[7..] == reasoning + "</think>" + content;
    assert open[..7] == "<think>" && open[7..] == reasoning;
    FirstEndTag(reasoning, content);
    EndTagAfterStartTag(closed);
    EndTagAfterStartTag(open);
    var n := |reasoning|;
    assert closed[7..7 + n] == reasoning && closed[7 + n + 8..] == content;
  }

  function ChunkStep(st: ThinkState, chunk: bytes): (ThinkState, Emitted) {
    var end := Index(chunk, END_TAG);
    if !st.metFirstChunk && chunk != [] && HasPrefix(chunk, START_TAG) then
      EndTagAfterStartTag(chunk);
      if end != -1 then
        var (reasoning, content) := (chunk[|START_TAG|..end], chunk[end + |END_TAG|..]);
        (ThinkState(true, false), Emitted(if content == [] then None else Some(content), Some(reasoning)))
      else
        (ThinkState(true, true), Emitted(None, Some(chunk[|START_TAG|..])))
    else
      var met := st.metFirstChunk || chunk != [];
      if !st.isThinking then
        (ThinkState(met, false), Emitted(Some(chunk), None))
      else if end != -1 then
        var (reasoning, content) := (chunk[..end], chunk[end + |END_TAG|..]);
        (ThinkState(met, false), Emitted(Some(content), if reasoning == [] then None else Some(reasoning)))
      else
        (ThinkState(met, true), Emitted(None, Some(chunk)))
  }

  function OrEmpty(o: Option<bytes>): bytes {
    match o
    case None => []
    case Some(s) => s
  }

  /** Everything a stream of chunks contributes, contents and reasonings each put together. */
  function Streamed(st: ThinkState, chunks: seq<bytes>): Split
    decreases |chunks|
  {
    if chunks == [] then Split([], [])
    else
      var (next, out) := ChunkStep(st, chunks[0]);
      var later := Streamed(next, chunks[1..]);
      Split(OrEmpty(out.content) + later.content, OrEmpty(out.reasoning) + later.reasoning)
  }

  // ---------- where the tags lie ----------

  /** The stretch of n bytes at position pos lies inside a single chunk. */
  predicate InOneChunk(chunks: seq<bytes>, pos: nat, n: nat)
    decreases |chunks|
  {
    chunks != [] &&
    (pos + n <= |chunks[0]| || (pos >= |chunks[0]| && InOneChunk(chunks[1..], pos - |chunks[0]|, n)))
  }

  function FirstNonEmpty(chunks: seq<bytes>): bytes {
    if chunks == [] then [] else if chunks[0] != [] then chunks[0] else FirstNonEmpty(chunks[1..])
  }

  /** No tag that matters is broken across chunks: the leading start tag is whole in the first
      non-empty chunk, and the first end tag after it lies in one chunk. */
  predicate TagsWhole(chunks: seq<bytes>) {
    var text := Concat(chunks);
    HasPrefix(text, START_TAG) ==>
      && HasPrefix(FirstNonEmpty(chunks), START_TAG)
      && (Index(text, END_TAG) != -1 ==> InOneChunk(chunks, Index(text, END_TAG), |END_TAG|))
  }

  // ---------- the streaming splitter ----------

  /** Outside reasoning everything passes through as content. */
  lemma {:induction false} StreamedContent(chunks: seq<bytes>)
    ensures Streamed(ThinkState(true, false), chunks) == Split(Concat(chunks), [])
    decreases |chunks|
  {
    if chunks != [] {
      StreamedContent(chunks[1..]);
    }
  }

  /** What streaming makes of a text inside reasoning. */
  ghost predicate ThinkingOutcome(chunks: seq<bytes>, text: bytes, out: Split) {
    var end := Index(text, END_TAG);
    if end == -1 then out == Split([], text)
    else if InOneChunk(chunks, end, |END_TAG|) then out == Split(text[end + |END_TAG|..], text[..end])
    else |out.reasoning| > end
  }

  lemma EndTagInFirstChunk(chunks: seq<bytes>)
    requires chunks != [] && Index(chunks[0], END_TAG) != -1
    ensures ThinkingOutcome(chunks, Concat(chunks), Streamed(ThinkState(true, true), chunks))
  {
    hide Index;
    var (c, t, i) := (chunks[0], Concat(chunks[1..]), Index(chunks[0], END_TAG));
    IndexExtend(c, t, END_TAG);
    StreamedContent(chunks[1..]);
    assert (c + t)[..i] == c[..i] && (c + t)[i + 8..] == c[i + 8..] + t;
  }

  lemma StillThinking(chunks: seq<bytes>)
    requires chunks != [] && Index(chunks[0], END_TAG) == -1
    ensures var later := Streamed(ThinkState(true, true), chunks[1..]);
            Streamed(ThinkState(true, true), chunks) == Split(later.content, chunks[0] + later.reasoning)
  {
    hide Index;
  }

  lemma EndTagInLaterChunk(chunks: seq<bytes>, later: Split)
    requires chunks != [] && Index(chunks[0], END_TAG) == -1
    requires ThinkingOutcome(chunks[1..], Concat(chunks[1..]), later)
    ensures ThinkingOutcome(chunks, Concat(chunks), Split(later.content, chunks[0] + later.reasoning))
  {
    hide Index, Streamed;
    var (c, t) := (chunks[0], Concat(chunks[1..]));
    IndexAcross(c, t, END_TAG);
    var end := Index(c + t, END_TAG);
    if end >= |c| {
      assert (c + t)[..end] == c + t[..end - |c|];
      assert end + 8 <= |c + t| ==> (c + t)[end + 8..] == t[end - |c| + 8..];
    }
  }

  /** Inside reasoning the split falls at the first end tag if that tag lies in one chunk, and later if not. */
  lemma {:induction false} StreamedThinking(chunks: seq<bytes>)
    ensures ThinkingOutcome(chunks, Concat(chunks), Streamed(ThinkState(true, true), chunks))
    decreases |chunks|
  {
    hide Index, ThinkingOutcome;
    if chunks == [] {
      EmptyHasNoEndTag();
    } else {
      var rest := chunks[1..];
      if Index(chunks[0], END_TAG) != -1 {
        EndTagInFirstChunk(chunks);
      } else {
        StreamedThinking(rest);
        StillThinking(chunks);
        EndTagInLaterChunk(chunks, Streamed(ThinkState(true, true), rest));
      }
    }
  }

  lemma EmptyHasNoEndTag()
    ensures ThinkingOutcome([], [], Split([], []))
  {
  }

  // ---------- main result ----------

  /** Empty chunks before the first one with text contribute nothing. */
  lemma {:induction false} SkipEmpty(chunks: seq<bytes>) returns (rest: seq<bytes>)
    ensures Streamed(INITIAL, chunks) == Streamed(INITIAL, rest) && Concat(chunks) == Concat(rest)
    ensures FirstNonEmpty(chunks) == FirstNonEmpty(rest)
    ensures rest == [] || rest[0] != []
    ensures forall pos: nat, n: nat :: n > 0 ==> InOneChunk(chunks, pos, n) == InOneChunk(rest, pos, n)
    decreases |chunks|
  {
    if chunks == [] || chunks[0] != [] {
      rest := chunks;
    } else {
      rest := SkipEmpty(chunks[1..]);
    }
  }

  lemma StreamedCons(st: ThinkState, c: bytes, rest: seq<bytes>)
    ensures var (next, out) := ChunkStep(st, c);
            var later := Streamed(next, rest);
            Streamed(st, [c] + rest) ==
            Split(OrEmpty(out.content) + later.content, OrEmpty(out.reasoning) + later.reasoning)
  {
    hide ChunkStep;
    assert ([c] + rest)[1..] == rest;
  }

  lemma StartTagStep(c: bytes)
    requires HasPrefix(c, START_TAG)
    ensures var (next, out) := ChunkStep(INITIAL, c);
            var (next', out') := ChunkStep(ThinkState(true, true), c[|START_TAG|..]);
            && next == next' && OrEmpty(out.content) == OrEmpty(out'.content)
            && OrEmpty(out.reasoning) == OrEmpty(out'.reasoning)
  {
    hide Index;
    EndTagAfterStartTag(c);
    var (d, end) := (c[|START_TAG|..], Index(c, END_TAG));
    if end != -1 {
      assert c[|START_TAG|..end] == d[..end - |START_TAG|] && c[end + |END_TAG|..] == d[end - |START_TAG| + |END_TAG|..];
    }
  }

  /** A first chunk with a start tag behaves like its remainder inside reasoning. */
  lemma StartTagEntersThinking(c: bytes, rest: seq<bytes>)
    requires HasPrefix(c, START_TAG)
    ensures Streamed(INITIAL, [c] + rest) == Streamed(ThinkState(true, true), [c[|START_TAG|..]] + rest)
  {
    hide ChunkStep, Streamed;
    StartTagStep(c);
    StreamedCons(INITIAL, c, rest);
    StreamedCons(ThinkState(true, true), c[|START_TAG|..], rest);
  }

  /** The whole-text split of what follows the start tag. */
  function SplitAtEndTag(inner: bytes): Split {
    var i := Index(inner, END_TAG);
    if i == -1 then Split([], inner) else Split(inner[i + |END_TAG|..], inner[..i])
  }

  lemma WholeAfterStartTag(text: bytes)
    requires HasPrefix(text, START_TAG)
    ensures ExtractReasoningContent(text) == SplitAtEndTag(text[|START_TAG|..])
  {
    hide Index;
    EndTagAfterStartTag(text);
    var (inner, end) := (text[|START_TAG|..], Index(text, END_TAG));
    if end != -1 {
      assert text[|START_TAG|..end] == inner[..end - |START_TAG|];
      assert text[end + |END_TAG|..] == inner[end - |START_TAG| + |END_TAG|..];
    }
  }

  lemma InOneChunkShift(c: bytes, rest: seq<bytes>, k: nat, pos: nat, n: nat)
    requires k <= |c| && n > 0
    ensures InOneChunk([c] + rest, pos + k, n) == InOneChunk([c[k..]] + rest, pos, n)
  {
    assert ([c] + rest)[1..] == rest == ([c[k..]] + rest)[1..];
  }

  lemma OutcomeAgreesIff(chunks: seq<bytes>, inner: bytes, out: Split)
    requires ThinkingOutcome(chunks, inner, out)
    ensures out == SplitAtEndTag(inner) <==>
            (Index(inner, END_TAG) != -1 ==> InOneChunk(chunks, Index(inner, END_TAG), |END_TAG|))
  {
    hide Index, InOneChunk;
  }

  lemma ConcatFirst(chunks: seq<bytes>)
    requires chunks != []
    ensures Concat(chunks) == chunks[0] + Concat(chunks[1..])
  {
  }

  /** The split when the first chunk carries the whole start tag. */
  lemma AgreesAfterStartTag(c: bytes, rest: seq<bytes>)
    requires HasPrefix(c, START_TAG)
    ensures var text := c + Concat(rest);
            var end := Index(text, END_TAG);
            Streamed(INITIAL, [c] + rest) == ExtractReasoningContent(text) <==>
            (end != -1 ==> InOneChunk([c] + rest, end, |END_TAG|))
  {
    hide Index, InOneChunk, ThinkingOutcome, Streamed, ExtractReasoningContent, SplitAtEndTag;
    var (t, chunks) := (Concat(rest), [c[|START_TAG|..]] + rest);
    var text := c + t;
    PrefixExtend(c, t, START_TAG);
    StartTagEntersThinking(c, rest);
    StreamedThinking(chunks);
    assert chunks[1..] == rest;
    assert Concat(chunks) == text[|START_TAG|..];
    WholeAfterStartTag(text);
    EndTagAfterStartTag(text);
    OutcomeAgreesIff(chunks, text[|START_TAG|..], Streamed(ThinkState(true, true), chunks));
    if Index(text, END_TAG) != -1 {
      InOneChunkShift(c, rest, |START_TAG|, Index(text[|START_TAG|..], END_TAG), |END_TAG|);
    }
  }

  /** The split when it does not. */
  lemma AgreesWithoutStartTag(c: bytes, rest: seq<bytes>)
    requires c != [] && !HasPrefix(c, START_TAG)
    ensures var text := c + Concat(rest);
            && Streamed(INITIAL, [c] + rest) == Split(text, [])
            && (ExtractReasoningContent(text) == Split(text, []) <==> !HasPrefix(text, START_TAG))
  {
    hide Index;
    StreamedCons(INITIAL, c, rest);
    StreamedContent(rest);
  }

  lemma StreamedNothing()
    ensures Streamed(INITIAL, []) == ExtractReasoningContent([]) && TagsWhole([])
  {
  }

  /** Over any chunking of a text, the contents and reasonings emitted add up to the whole-text split
      exactly when no chunk boundary breaks a tag that matters. */
  lemma StreamingAgreesIff(chunks: seq<bytes>)
    ensures Streamed(INITIAL, chunks) == ExtractReasoningContent(Concat(chunks)) <==> TagsWhole(chunks)
  {
    hide Index, InOneChunk, Streamed;
    var r := SkipEmpty(chunks);
    if r == [] {
      StreamedNothing();
    } else {
      var (c, rest) := (r[0], r[1..]);
      assert r == [c] + rest;
      ConcatFirst(r);
      if HasPrefix(c, START_TAG) {
        PrefixExtend(c, Concat(rest), START_TAG);
        AgreesAfterStartTag(c, rest);
      } else {
        AgreesWithoutStartTag(c, rest);
      }
    }
  }
}
