/** The event-stream splitter: line endings unified, messages cut at blank lines, a partial message kept for later. */
module Sse {
  import opened Text
  import opened Trim

  const BLANK_LINE := "\n\n"
  const PREFIX_LENGTH := |"data:"|

  /** CR LF and lone CR both become LF, in two passes as the code does it. */
  function UnifySSEChunk(data: bytes): bytes {
    ReplaceAll(ReplaceAll(data, "\r\n", "\n"), "\r", "\n")
  }

  /** The same in one pass over the bytes. */
  function Unify(s: bytes): bytes {
    if s == [] then []
    else if s[0] != '\r' then [s[0]] + Unify(s[1..])
    else if |s| > 1 && s[1] == '\n' then "\n" + Unify(s[2..])
    else "\n" + Unify(s[1..])
  }

  lemma BlankLineAt(s: bytes, i: nat)
    ensures OccursAt(s, BLANK_LINE, i) <==> i + 2 <= |s| && s[i] == '\n' && s[i + 1] == '\n'
  {
    OccursBytes(s, BLANK_LINE, i);
    if i + 2 <= |s| {
      assert s[i] == s[i + 0] && BLANK_LINE[0] == '\n' && BLANK_LINE[1] == '\n';
    }
  }

  /** The complete messages of a text, and what is left after its last blank line. */
  datatype Pieces = Pieces(messages: seq<bytes>, rest: bytes)

  function Cut(s: bytes): Pieces
    decreases |s|
  {
    var i := Index(s, BLANK_LINE);
    if i == -1 then Pieces([], s)
    else
      var tail := Cut(s[i + 2..]);
      Pieces([s[..i]] + tail.messages, tail.rest)
  }

  // ---------- the two passes are the one pass ----------

  lemma CRLFPrefix(s: bytes)
    ensures HasPrefix(s, "\r\n") <==> |s| > 1 && s[0] == '\r' && s[1] == '\n'
  {
    if |s| > 1 {
      assert s[..2] == [s[0], s[1]];
    }
  }

  lemma {:induction false} UnifyHead(s: bytes)
    requires s != []
    ensures UnifySSEChunk(s) ==
            if s[0] != '\r' then [s[0]] + UnifySSEChunk(s[1..])
            else if |s| > 1 && s[1] == '\n' then "\n" + UnifySSEChunk(s[2..])
            else "\n" + UnifySSEChunk(s[1..])
  {
    CRLFPrefix(s);
    if HasPrefix(s, "\r\n") {
      var t := ReplaceAll(s[2..], "\r\n", "\n");
      assert ReplaceAll(s, "\r\n", "\n") == "\n" + t;
      PassOver('\n', t);
    } else {
      var t := ReplaceAll(s[1..], "\r\n", "\n");
      assert ReplaceAll(s, "\r\n", "\n") == [s[0]] + t;
      if s[0] == '\r' {
        assert ([s[0]] + t)[..1] == "\r" && ([s[0]] + t)[1..] == t;
      } else {
        PassOver(s[0], t);
      }
    }
  }

  lemma PassOver(c: char, t: bytes)
    requires c != '\r'
    ensures ReplaceAll([c] + t, "\r", "\n") == [c] + ReplaceAll(t, "\r", "\n")
  {
    assert ([c] + t)[..1][0] == c;
    assert ([c] + t)[1..] == t;
  }

  lemma {:induction false} UnifyIsOnePass(s: bytes)
    ensures UnifySSEChunk(s) == Unify(s)
    decreases |s|
  {
    if s != [] {
      UnifyHead(s);
      UnifyIsOnePass(s[1..]);
      if |s| > 1 {
        UnifyIsOnePass(s[2..]);
      }
    }
  }

  // ---------- unifying piece by piece ----------

  predicate EndsInCR(s: bytes) {
    s != [] && s[|s| - 1] == '\r'
  }

  predicate StartsWithLF(s: bytes) {
    s != [] && s[0] == '\n'
  }

  lemma {:induction false} UnifyNoCR(s: bytes)
    ensures '\r' !in Unify(s)
    ensures '\r' !in s ==> Unify(s) == s
    decreases |s|
  {
    if s != [] {
      UnifyNoCR(s[1..]);
      if |s| > 1 {
        UnifyNoCR(s[2..]);
      }
      assert '\r' !in s ==> s == [s[0]] + s[1..] && s[0] != '\r';
    }
  }

  /** Does the boundary between a and b separate a CR from its LF? */
  predicate SplitsCRLF(a: bytes, b: bytes) {
    EndsInCR(a) && StartsWithLF(b)
  }

  /** Unifying a text whose two halves meet inside a CR LF pair drops the LF of the second half. */
  lemma {:induction false} UnifyAppend(a: bytes, b: bytes)
    ensures Unify(a + b) == Unify(a) + Unify(if SplitsCRLF(a, b) then b[1..] else b)
    decreases |a|
  {
    hide Unify;
    var b' := if SplitsCRLF(a, b) then b[1..] else b;
    UnifyDef(a);
    UnifyDef(a + b);
    if a == [] {
      assert a + b == b;
    } else if |a| == 1 {
      UnifyDef([]);
      assert a[1..] == [] && (a + b)[1..] == b;
      assert StartsWithLF(b) ==> (a + b)[2..] == b[1..];
    } else if a[0] == '\r' && a[1] == '\n' {
      UnifyAppend(a[2..], b);
      assert (a + b)[2..] == a[2..] + b;
      Associate("\n", Unify(a[2..]), Unify(b'));
    } else {
      UnifyAppend(a[1..], b);
      assert (a + b)[1..] == a[1..] + b;
      Associate(if a[0] == '\r' then "\n" else [a[0]], Unify(a[1..]), Unify(b'));
    }
  }

  /** One unfolding of `Unify`. */
  lemma UnifyDef(s: bytes)
    ensures s == [] ==> Unify(s) == []
    ensures s != [] && s[0] != '\r' ==> Unify(s) == [s[0]] + Unify(s[1..])
    ensures |s| > 1 && s[0] == '\r' && s[1] == '\n' ==> Unify(s) == "\n" + Unify(s[2..])
    ensures s != [] && s[0] == '\r' && !(|s| > 1 && s[1] == '\n') ==> Unify(s) == "\n" + Unify(s[1..])
  {
  }

  // ---------- cutting piece by piece ----------

  lemma CutFirst(a: bytes, b: bytes, i: nat)
    requires Index(a, BLANK_LINE) == i
    ensures Cut(a + b) == Pieces([a[..i]] + Cut(a[i + 2..] + b).messages, Cut(a[i + 2..] + b).rest)
  {
    IndexExtend(a, b, BLANK_LINE);
    assert (a + b)[i + 2..] == a[i + 2..] + b && (a + b)[..i] == a[..i];
  }

  /** Cutting what is left of a text together with what follows continues where the first cut stopped. */
  lemma {:induction false} CutAppend(a: bytes, b: bytes)
    ensures Cut(a + b).messages == Cut(a).messages + Cut(Cut(a).rest + b).messages
    ensures Cut(a + b).rest == Cut(Cut(a).rest + b).rest
    decreases |a|
  {
    hide Index;
    var i := Index(a, BLANK_LINE);
    if i != -1 {
      CutFirst(a, b, i);
      CutAppend(a[i + 2..], b);
    }
  }

  function Joined(messages: seq<bytes>): bytes {
    if messages == [] then [] else messages[0] + BLANK_LINE + Joined(messages[1..])
  }

  /** Nothing is lost: the pieces put back together are the text. */
  lemma {:induction false} CutJoins(s: bytes)
    ensures Joined(Cut(s).messages) + Cut(s).rest == s
    decreases |s|
  {
    hide Index;
    var i := Index(s, BLANK_LINE);
    if i != -1 {
      IndexIsFirst(s, BLANK_LINE);
      var (head, tail) := (s[..i], s[i + 2..]);
      CutJoins(tail);
      BlankLineAt(s, i);
      assert s == head + BLANK_LINE + tail;
      assert Cut(s) == Pieces([head] + Cut(tail).messages, Cut(tail).rest);
      assert ([head] + Cut(tail).messages)[1..] == Cut(tail).messages;
      Associate(head + BLANK_LINE, Joined(Cut(tail).messages), Cut(tail).rest);
    }
  }

  lemma {:induction false} CutKeepsClean(s: bytes)
    requires '\r' !in s
    ensures '\r' !in Cut(s).rest
    ensures forall m :: m in Cut(s).messages ==> '\r' !in m && Index(m, BLANK_LINE) == -1
    ensures Index(Cut(s).rest, BLANK_LINE) == -1
    decreases |s|
  {
    var i := Index(s, BLANK_LINE);
    if i != -1 {
      CutKeepsClean(s[i + 2..]);
      IndexBefore(s, BLANK_LINE);
    }
  }

  // ---------- feeding a stream in pieces ----------

  /** One read: the kept remainder and the new bytes are unified and cut. */
  function Feed(remain: bytes, chunk: bytes): Pieces {
    Cut(UnifySSEChunk(remain + chunk))
  }

  function FeedAll(remain: bytes, chunks: seq<bytes>): Pieces
    decreases |chunks|
  {
    if chunks == [] then Pieces([], remain)
    else
      var first := Feed(remain, chunks[0]);
      var later := FeedAll(first.rest, chunks[1..]);
      Pieces(first.messages + later.messages, later.rest)
  }

  function UnifyEach(chunks: seq<bytes>): seq<bytes> {
    if chunks == [] then [] else [Unify(chunks[0])] + UnifyEach(chunks[1..])
  }

  /** How many read boundaries fall between a CR and its LF; `afterCR` tells how the text before ends. */
  function SplitPairs(afterCR: bool, chunks: seq<bytes>): nat
    decreases |chunks|
  {
    if chunks == [] then 0
    else if chunks[0] == [] then SplitPairs(afterCR, chunks[1..])
    else (if afterCR && StartsWithLF(chunks[0]) then 1 else 0) + SplitPairs(EndsInCR(chunks[0]), chunks[1..])
  }

  /** A kept remainder: no CR, no blank line. */
  predicate IsRemainder(s: bytes) {
    '\r' !in s && Index(s, BLANK_LINE) == -1
  }

  lemma FeedClean(remain: bytes, chunk: bytes)
    requires IsRemainder(remain)
    ensures Feed(remain, chunk) == Cut(remain + Unify(chunk))
    ensures IsRemainder(Feed(remain, chunk).rest)
  {
    hide Cut, Index;
    UnifyIsOnePass(remain + chunk);
    UnifyAppend(remain, chunk);
    UnifyNoCR(remain);
    UnifyNoCR(chunk);
    CutKeepsClean(remain + Unify(chunk));
  }

  lemma {:induction false} FeedAllIsCut(remain: bytes, chunks: seq<bytes>)
    requires IsRemainder(remain)
    ensures FeedAll(remain, chunks) == Cut(remain + Concat(UnifyEach(chunks)))
    decreases |chunks|
  {
    hide Unify, Index, Feed;
    if chunks == [] {
      assert remain + [] == remain;
    } else {
      var (u, tail) := (Unify(chunks[0]), Concat(UnifyEach(chunks[1..])));
      FeedClean(remain, chunks[0]);
      FeedAllIsCut(Feed(remain, chunks[0]).rest, chunks[1..]);
      CutAppend(remain + u, tail);
      Associate(remain, u, tail);
    }
  }

  lemma UnifyBoundary(a: bytes, b: bytes)
    ensures |Unify(a)| + |Unify(b)| == |Unify(a + b)| + (if SplitsCRLF(a, b) then 1 else 0)
    ensures !SplitsCRLF(a, b) ==> Unify(a) + Unify(b) == Unify(a + b)
  {
    UnifyAppend(a, b);
  }

  lemma SplitPairsHead(before: bytes, chunks: seq<bytes>)
    requires chunks != []
    ensures SplitPairs(EndsInCR(before), chunks) ==
            (if SplitsCRLF(before, chunks[0]) then 1 else 0) + SplitPairs(EndsInCR(before + chunks[0]), chunks[1..])
  {
    var c := chunks[0];
    if c == [] {
      assert before + c == before;
    } else {
      assert (before + c)[|before| + |c| - 1] == c[|c| - 1];
    }
  }

  /** Unifying reads one by one makes one byte too many for every split CR LF pair, and is exact without any. */
  lemma {:induction false} UnifyEachCounts(before: bytes, chunks: seq<bytes>)
    ensures |Unify(before)| + |Concat(UnifyEach(chunks))| ==
            |Unify(before + Concat(chunks))| + SplitPairs(EndsInCR(before), chunks)
    ensures SplitPairs(EndsInCR(before), chunks) == 0 ==>
              Unify(before) + Concat(UnifyEach(chunks)) == Unify(before + Concat(chunks))
    decreases |chunks|
  {
    hide Unify, SplitsCRLF, EndsInCR;
    if chunks == [] {
      assert before + [] == before;
      assert Unify(before) + [] == Unify(before);
    } else {
      var (c, rest) := (chunks[0], chunks[1..]);
      UnifyEachCounts(before + c, rest);
      UnifyBoundary(before, c);
      SplitPairsHead(before, chunks);
      Associate(before, c, Concat(rest));
      Associate(Unify(before), Unify(c), Concat(UnifyEach(rest)));
    }
  }

  /** Reading a stream in pieces gives the messages and remainder of reading it at once
      exactly when no read boundary separates a CR from its LF. */
  lemma ChunkingIrrelevantIff(chunks: seq<bytes>)
    ensures FeedAll([], chunks) == FeedAll([], [Concat(chunks)]) <==> SplitPairs(false, chunks) == 0
  {
    var whole := Concat(chunks);
    FeedAllIsCut([], chunks);
    FeedAllIsCut([], [whole]);
    UnifyEachCounts([], chunks);
    assert [] + whole == whole;
    var (t, u) := (Concat(UnifyEach(chunks)), Unify(whole));
    assert Concat(UnifyEach([whole])) == u + [] == u;
    assert [] + t == t && [] + u == u;
    CutJoins(t);
    CutJoins(u);
  }
}
