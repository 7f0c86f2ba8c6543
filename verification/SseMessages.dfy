/** Payloads of event-stream messages: parsing them over any sequence of reads, and printing them back. */
module SseMessages {
  import opened Text
  import opened Trim
  import opened Sse

  /** The payload of a message: everything after five bytes, trimmed. */
  function Payload(message: bytes): bytes
    requires |message| >= PREFIX_LENGTH
  {
    TrimSpace(message[PREFIX_LENGTH..])
  }

  ghost predicate AllLong(messages: seq<bytes>) {
    forall i :: 0 <= i < |messages| ==> |messages[i]| >= PREFIX_LENGTH
  }

  function Payloads(messages: seq<bytes>): (r: seq<bytes>)
    requires AllLong(messages)
    ensures |r| == |messages|
  {
    if messages == [] then [] else [Payload(messages[0])] + Payloads(messages[1..])
  }

  lemma AllLongAppend(a: seq<bytes>, b: seq<bytes>)
    ensures AllLong(a + b) <==> AllLong(a) && AllLong(b)
  {
    if AllLong(a + b) {
      assert forall i :: 0 <= i < |a| ==> a[i] == (a + b)[i];
      assert forall i :: 0 <= i < |b| ==> b[i] == (a + b)[|a| + i];
    }
  }

  lemma {:induction false} PayloadsAppend(a: seq<bytes>, b: seq<bytes>)
    requires AllLong(a) && AllLong(b)
    ensures AllLong(a + b) && Payloads(a + b) == Payloads(a) + Payloads(b)
  {
    hide Payload;
    AllLongAppend(a, b);
    if a == [] {
      assert a + b == b;
    } else {
      PayloadsAppend(a[1..], b);
      assert (a + b)[1..] == a[1..] + b && (a + b)[0] == a[0];
      assert [Payload(a[0])] + (Payloads(a[1..]) + Payloads(b)) == [Payload(a[0])] + Payloads(a[1..]) + Payloads(b);
    }
  }

  // ---------- parsing over a sequence of reads ----------

  datatype Parsed = Parsed(payloads: seq<bytes>, rest: bytes) | InvalidChunk

  /** Reads are parsed one after the other; the first message that is too short ends the stream. */
  ghost function ParseAll(remain: bytes, chunks: seq<bytes>): Parsed
    decreases |chunks|
  {
    if chunks == [] then Parsed([], remain)
    else
      var p := Feed(remain, chunks[0]);
      if !AllLong(p.messages) then InvalidChunk
      else
        match ParseAll(p.rest, chunks[1..])
        case InvalidChunk => InvalidChunk
        case Parsed(later, rest) => Parsed(Payloads(p.messages) + later, rest)
  }

  /** Parsing the reads amounts to parsing the message list that feeding them produces. */
  lemma {:induction false} ParseAllIsFeedAll(remain: bytes, chunks: seq<bytes>)
    ensures var f := FeedAll(remain, chunks);
            ParseAll(remain, chunks) ==
            if AllLong(f.messages) then Parsed(Payloads(f.messages), f.rest) else InvalidChunk
    decreases |chunks|
  {
    if chunks != [] {
      var p := Feed(remain, chunks[0]);
      var later := FeedAll(p.rest, chunks[1..]);
      ParseAllIsFeedAll(p.rest, chunks[1..]);
      if AllLong(p.messages) && AllLong(later.messages) {
        PayloadsAppend(p.messages, later.messages);
      } else {
        AllLongAppend(p.messages, later.messages);
      }
    }
  }

  /** Without a split CR LF pair, payloads, remainder and the invalid-chunk error do not depend on the reads. */
  lemma ParsingIgnoresChunking(chunks: seq<bytes>)
    requires SplitPairs(false, chunks) == 0
    ensures ParseAll([], chunks) == ParseAll([], [Concat(chunks)])
  {
    ChunkingIrrelevantIff(chunks);
    ParseAllIsFeedAll([], chunks);
    ParseAllIsFeedAll([], [Concat(chunks)]);
  }

  // ---------- printing ----------

  const SSE_HEADER := "data: "
  const SSE_TAIL := "\n\n"

  function Render(payloads: seq<bytes>): bytes {
    if payloads == [] then [] else SSE_HEADER + payloads[0] + SSE_TAIL + Render(payloads[1..])
  }

  lemma RenderSmall(payload: bytes)
    ensures Render([]) == [] && Render([payload]) == SSE_HEADER + payload + SSE_TAIL == "data: " + payload + "\n\n"
  {
    assert [payload][1..] == [];
  }

  lemma {:induction false} RenderAppend(a: seq<bytes>, b: seq<bytes>)
    ensures Render(a + b) == Render(a) + Render(b)
  {
    if a == [] {
      assert a + b == b;
    } else {
      RenderAppend(a[1..], b);
      assert (a + b)[1..] == a[1..] + b;
      Associate(SSE_HEADER + a[0] + SSE_TAIL, Render(a[1..]), Render(b));
    }
  }

  /** A payload that can be printed and read back: trimmed, one line ending style, no blank line. */
  predicate Printable(payload: bytes) {
    Trimmed(payload) && '\r' !in payload && Index(payload, BLANK_LINE) == -1
  }

  lemma StretchKeepsPrintable(s: bytes, i: nat, j: nat)
    requires i <= j <= |s| && '\r' !in s && Index(s, BLANK_LINE) == -1
    ensures '\r' !in s[i..j] && Index(s[i..j], BLANK_LINE) == -1
  {
    IndexIsFirst(s, BLANK_LINE);
    var u := s[i..j];
    IndexIsFirst(u, BLANK_LINE);
    forall k: nat
      ensures !OccursAt(u, BLANK_LINE, k)
    {
      BlankLineAt(u, k);
      BlankLineAt(s, i + k);
      assert !OccursAt(s, BLANK_LINE, i + k);
    }
  }

  lemma PayloadPrintable(m: bytes)
    requires |m| >= PREFIX_LENGTH && '\r' !in m && Index(m, BLANK_LINE) == -1
    ensures Printable(Payload(m))
  {
    hide Index, Trimmed, TrimSpace;
    var t := m[PREFIX_LENGTH..];
    TrimSpaceTrims(t);
    var i: nat, j: nat :| i <= j <= |t| && TrimSpace(t) == t[i..j];
    assert t == m[PREFIX_LENGTH..|m|];
    StretchKeepsPrintable(m, PREFIX_LENGTH, |m|);
    StretchKeepsPrintable(t, i, j);
  }

  lemma {:induction false} PayloadsPrintable(messages: seq<bytes>)
    requires AllLong(messages)
    requires forall m :: m in messages ==> '\r' !in m && Index(m, BLANK_LINE) == -1
    ensures forall p :: p in Payloads(messages) ==> Printable(p)
  {
    if messages != [] {
      PayloadPrintable(messages[0]);
      PayloadsPrintable(messages[1..]);
    }
  }

  /** Whatever is parsed, over whatever reads, can be printed and read back. */
  lemma ParsedIsPrintable(chunks: seq<bytes>)
    requires ParseAll([], chunks).Parsed?
    ensures forall p :: p in ParseAll([], chunks).payloads ==> Printable(p)
  {
    ParseAllIsFeedAll([], chunks);
    FeedAllIsCut([], chunks);
    var t := Concat(UnifyEach(chunks));
    assert [] + t == t;
    UnifyEachNoCR(chunks);
    CutKeepsClean(t);
    PayloadsPrintable(Cut(t).messages);
  }

  lemma {:induction false} UnifyEachNoCR(chunks: seq<bytes>)
    ensures '\r' !in Concat(UnifyEach(chunks))
  {
    if chunks != [] {
      UnifyNoCR(chunks[0]);
      UnifyEachNoCR(chunks[1..]);
    }
  }

  /** The blank line after a printed payload is the first one. */
  lemma FirstBlankLine(m: bytes, rest: bytes)
    requires Index(m, BLANK_LINE) == -1 && m != [] && m[|m| - 1] != '\n'
    ensures Index(m + BLANK_LINE + rest, BLANK_LINE) == |m|
  {
    var s := m + BLANK_LINE + rest;
    IndexIsFirst(s, BLANK_LINE);
    IndexIsFirst(m, BLANK_LINE);
    BlankLineAt(s, |m|);
    forall k: nat | k < |m|
      ensures !OccursAt(s, BLANK_LINE, k)
    {
      BlankLineAt(s, k);
      BlankLineAt(m, k);
    }
  }

  lemma HeadedHasNoBlankLine(header: bytes, payload: bytes)
    requires Printable(payload) && header != [] && '\n' !in header
    ensures var m := header + payload; Index(m, BLANK_LINE) == -1 && m[|m| - 1] != '\n'
  {
    hide Index;
    var m := header + payload;
    IndexIsFirst(m, BLANK_LINE);
    IndexIsFirst(payload, BLANK_LINE);
    forall k: nat
      ensures !OccursAt(m, BLANK_LINE, k)
    {
      BlankLineAt(m, k);
      if |header| <= k {
        BlankLineAt(payload, k - |header|);
        assert !OccursAt(payload, BLANK_LINE, k - |header|);
      } else if k + 2 <= |m| {
        assert m[k] == header[k];
      }
    }
    assert payload != [] ==> !IsAsciiSpace(payload[|payload| - 1]);
  }

  lemma HeadedIsPlain(payload: bytes)
    requires Printable(payload)
    ensures var m := SSE_HEADER + payload;
            Index(m, BLANK_LINE) == -1 && m[|m| - 1] != '\n' && Payload(m) == payload
  {
    HeadedHasNoBlankLine(SSE_HEADER, payload);
    assert (SSE_HEADER + payload)[PREFIX_LENGTH..] == " " + payload;
    TrimSpaceOfPadded(payload);
  }

  lemma CutOne(m: bytes)
    requires Index(m, BLANK_LINE) == -1 && m != [] && m[|m| - 1] != '\n'
    ensures Cut(m + BLANK_LINE) == Pieces([m], [])
  {
    hide Index;
    var s := m + BLANK_LINE;
    FirstBlankLine(m, []);
    assert m + BLANK_LINE + [] == s && s[..|m|] == m && s[|m| + 2..] == [];
    NothingToCut();
    assert [m] + [] == [m];
  }

  lemma OneMessageStream(m: bytes)
    requires '\r' !in m && Index(m, BLANK_LINE) == -1 && m != [] && m[|m| - 1] != '\n'
    ensures ParseAll([], [m + "\n\n"]) == if |m| < 5 then InvalidChunk else Parsed([TrimSpace(m[5..])], [])
  {
    hide Index, TrimSpace, Cut, ParseAll, FeedAll, Unify;
    var s := m + BLANK_LINE;
    ParseAllIsFeedAll([], [s]);
    NothingToCut();
    FeedAllIsCut([], [s]);
    UnifyNoCR(s);
    assert UnifyEach([s]) == [s] && Concat([s]) == s + [] == s && [] + s == s;
    CutOne(m);
    if |m| >= 5 {
      assert Payloads([m]) == [Payload(m)] + Payloads([]);
    } else {
      assert !AllLong([m]) by {
        assert |[m][0]| < PREFIX_LENGTH;
      }
    }
  }

  lemma NothingToCut()
    ensures Cut([]) == Pieces([], []) && Index([], BLANK_LINE) == -1
  {
  }

  /** The field name counts five bytes, with or without a blank behind it. */
  lemma BlankIsOptional(payload: bytes)
    requires Printable(payload)
    ensures ParseAll([], ["data:" + payload + "\n\n"]) == Parsed([payload], [])
    ensures ParseAll([], ["data: " + payload + "\n\n"]) == Parsed([payload], [])
  {
    hide Index, ParseAll, TrimSpace;
    var (short, long) := ("data:" + payload, "data: " + payload);
    HeadedHasNoBlankLine("data:", payload);
    HeadedHasNoBlankLine("data: ", payload);
    OneMessageStream(short);
    OneMessageStream(long);
    assert short[5..] == payload && long[5..] == " " + payload;
    TrimSpaceOfPadded(payload);
    TrimSpaceOfTrimmed(payload);
  }

  lemma {:induction false} CutOfRender(payloads: seq<bytes>)
    requires forall p :: p in payloads ==> Printable(p)
    ensures var c := Cut(Render(payloads));
            c.rest == [] && AllLong(c.messages) && Payloads(c.messages) == payloads
  {
    hide Payload, Index, Printable;
    if payloads != [] {
      var (m, later) := (SSE_HEADER + payloads[0], Render(payloads[1..]));
      HeadedIsPlain(payloads[0]);
      FirstBlankLine(m, later);
      var s := Render(payloads);
      assert s == m + BLANK_LINE + later;
      assert s[..|m|] == m && s[|m| + 2..] == later;
      CutOfRender(payloads[1..]);
      assert Cut(s).messages == [m] + Cut(later).messages;
      PayloadsAppend([m], Cut(later).messages);
      assert Payloads([m]) == [payloads[0]] + Payloads([]);
    }
  }

  lemma {:induction false} RenderNoCR(payloads: seq<bytes>)
    requires forall p :: p in payloads ==> '\r' !in p
    ensures '\r' !in Render(payloads)
  {
    if payloads != [] {
      RenderNoCR(payloads[1..]);
    }
  }

  /** Reading a printed list of payloads gives the list back, with nothing left over. */
  lemma ParseOfRender(payloads: seq<bytes>)
    requires forall p :: p in payloads ==> Printable(p)
    ensures ParseAll([], [Render(payloads)]) == Parsed(payloads, [])
  {
    var s := Render(payloads);
    RenderNoCR(payloads);
    ParseAllIsFeedAll([], [s]);
    FeedAllIsCut([], [s]);
    UnifyNoCR(s);
    assert UnifyEach([s]) == [s] && Concat([s]) == s + [] == s && [] + s == s;
    CutOfRender(payloads);
  }
}
