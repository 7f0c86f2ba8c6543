/** The response side of the OpenAI transcoder: reads in, converted event stream out. */
module Transcoder {
  import opened Options
  import opened Text
  import opened Sse
  import opened SseMessages
  import opened Think
  import opened Choices
  import Grpc

  const DONE := "[DONE]"

  datatype Chunk = Chunk(kind: bytes, deltas: seq<Delta>)

  /** The JSON library, as far as the stream sees it: None is a decoding error. */
  datatype Codec = Codec(decode: bytes -> Option<Chunk>, encode: Chunk -> bytes, decodeError: bytes -> Option<bytes>)

  datatype Response = Output(data: bytes) | FirstChunkError(data: bytes) | InvalidSSEChunk

  // ---------- one message ----------

  function IsChunk(codec: Codec, msg: bytes): bool {
    match codec.decode(msg)
    case None => false
    case Some(c) => c.kind != []
  }

  /** What is printed for one message, and the think state after it. */
  function ConvertMessage(codec: Codec, split: bool, st: ThinkState, msg: bytes): (ThinkState, bytes) {
    if msg != DONE && IsChunk(codec, msg) && split then
      var c := codec.decode(msg).value;
      var (next, ds) := ConvertDeltas(st, c.deltas);
      (next, codec.encode(Chunk(c.kind, ds)))
    else
      (st, msg)
  }

  /** A decodable error in the very first message aborts the stream. */
  predicate IsErrorMessage(codec: Codec, msg: bytes) {
    msg != DONE && !IsChunk(codec, msg) && codec.decodeError(msg).Some?
  }

  // ---------- a list of messages ----------

  datatype Converted = Converted(count: nat, think: ThinkState, response: Response)

  /** Messages are converted and printed one after the other; count is the number seen so far in the stream. */
  function ConvertMessages(codec: Codec, split: bool, count: nat, st: ThinkState, msgs: seq<bytes>): (r: Converted)
    ensures !r.response.InvalidSSEChunk?
    decreases |msgs|
  {
    if msgs == [] then Converted(count, st, Output([]))
    else
      var older := ConvertMessages(codec, split, count, st, msgs[..|msgs| - 1]);
      var msg := msgs[|msgs| - 1];
      if older.response.FirstChunkError? then older
      else if older.count == 0 && IsErrorMessage(codec, msg) then
        Converted(1, older.think, FirstChunkError(codec.decodeError(msg).value))
      else
        var (next, out) := ConvertMessage(codec, split, older.think, msg);
        Converted(older.count + 1, next, Output(older.response.data + SSE_HEADER + out + SSE_TAIL))
  }

  // ---------- the transcoder ----------

  class OpenAiTranscoder {
    const codec: Codec
    const splitReasoning: bool
    var isStream: bool
    var remainBuf: bytes
    var chunkCount: nat
    var metFirstChunk: bool
    var isThinking: bool

    constructor (codec: Codec, splitReasoning: bool, isStream: bool)
      ensures this.codec == codec && this.splitReasoning == splitReasoning && this.isStream == isStream
      ensures remainBuf == [] && chunkCount == 0 && Think() == INITIAL
    {
      this.codec := codec;
      this.splitReasoning := splitReasoning;
      this.isStream := isStream;
      remainBuf, chunkCount, metFirstChunk, isThinking := [], 0, false, false;
    }

    function Think(): ThinkState
      reads this
    {
      ThinkState(metFirstChunk, isThinking)
    }

    /** The messages complete in the buffer; the partial one stays. None is the invalid-chunk error. */
    method ResponseMessages() returns (r: Option<seq<bytes>>)
      modifies this`remainBuf
      ensures !isStream ==> remainBuf == [] && r == Some([old(remainBuf)])
      ensures isStream ==>
                var p := Feed(old(remainBuf), []);
                remainBuf == p.rest && r == if AllLong(p.messages) then Some(Payloads(p.messages)) else None
    {
      var data := remainBuf;
      remainBuf := [];
      if !isStream {
        return Some([data]);
      }
      assert data + [] == data;
      var p := Cut(UnifySSEChunk(data));
      remainBuf := p.rest;
      var msgs: seq<bytes> := [];
      for i := 0 to |p.messages|
        invariant AllLong(p.messages[..i]) && msgs == Payloads(p.messages[..i])
        invariant remainBuf == p.rest
      {
        var msg := p.messages[i];
        if |msg| < PREFIX_LENGTH {
          assert !AllLong(p.messages);
          return None;
        }
        assert p.messages[..i + 1] == p.messages[..i] + [msg];
        PayloadsAppend(p.messages[..i], [msg]);
        assert Payloads([msg]) == [Payload(msg)] + Payloads([]);
        msgs := msgs + [Payload(msg)];
      }
      assert p.messages[..|p.messages|] == p.messages;
      return Some(msgs);
    }

    method ExtractReasoningContentFromChunk(chunk: bytes) returns (content: Option<bytes>, reasoning: Option<bytes>)
      modifies this`metFirstChunk, this`isThinking
      ensures (Think(), Emitted(content, reasoning)) == ChunkStep(old(Think()), chunk)
    {
      if !metFirstChunk && chunk != [] {
        metFirstChunk := true;
        if HasPrefix(chunk, START_TAG) {
          isThinking := true;
          EndTagAfterStartTag(chunk);
          var end := Index(chunk, END_TAG);
          if end != -1 {
            isThinking := false;
            var reasoningContent := chunk[|START_TAG|..end];
            var rest := chunk[end + |END_TAG|..];
            return (if rest == [] then None else Some(rest)), Some(reasoningContent);
          }
          return None, Some(chunk[|START_TAG|..]);
        }
      }
      if !isThinking {
        return Some(chunk), None;
      }
      var end := Index(chunk, END_TAG);
      if end != -1 {
        isThinking := false;
        var reasoningContent := chunk[..end];
        return Some(chunk[end + |END_TAG|..]), (if reasoningContent == [] then None else Some(reasoningContent));
      }
      return None, Some(chunk);
    }

    /** Splits the reasoning off every choice of one chunk. */
    method ConvertChunk(c: Chunk) returns (r: Chunk)
      modifies this`metFirstChunk, this`isThinking
      ensures r.kind == c.kind && (Think(), r.deltas) == ConvertDeltas(old(Think()), c.deltas)
    {
      var ds: seq<Delta> := [];
      for i := 0 to |c.deltas|
        invariant (Think(), ds) == ConvertDeltas(old(Think()), c.deltas[..i])
      {
        var d := c.deltas[i];
        assert c.deltas[..i + 1][..i] == c.deltas[..i];
        if (d.reasoning.None? || d.reasoning.value == []) && d.content.Some? {
          var content, reasoning := ExtractReasoningContentFromChunk(d.content.value);
          d := d.(content := content, reasoning := reasoning);
        }
        ds := ds + [d];
      }
      assert c.deltas[..|c.deltas|] == c.deltas;
      r := Chunk(c.kind, ds);
    }

    /** One read of a streamed response. */
    method ConvertOpenAiResp(data: bytes) returns (r: Response)
      requires isStream
      modifies this`remainBuf, this`chunkCount, this`metFirstChunk, this`isThinking
      ensures var p := Feed(old(remainBuf), data);
              && remainBuf == p.rest
              && (!AllLong(p.messages) ==>
                    r == InvalidSSEChunk && chunkCount == old(chunkCount) && Think() == old(Think()))
              && (AllLong(p.messages) ==>
                    Converted(chunkCount, Think(), r) ==
                    ConvertMessages(codec, splitReasoning, old(chunkCount), old(Think()), Payloads(p.messages)))
    {
      hide Feed, Payloads, ConvertDeltas, AllLong;
      FeedLater(remainBuf, data);
      remainBuf := remainBuf + data;
      var parsed := ResponseMessages();
      if parsed.None? {
        return InvalidSSEChunk;
      }
      var messages := parsed.value;
      var outputs: bytes := [];
      for i := 0 to |messages|
        invariant Converted(chunkCount, Think(), Output(outputs)) ==
                  ConvertMessages(codec, splitReasoning, old(chunkCount), old(Think()), messages[..i])
        invariant remainBuf == Feed(old(remainBuf), data).rest
      {
        var msg := messages[i];
        assert messages[..i + 1][..i] == messages[..i];
        chunkCount := chunkCount + 1;
        var output := msg;
        if msg != DONE {
          if IsChunk(codec, msg) {
            if splitReasoning {
              var converted := ConvertChunk(codec.decode(msg).value);
              output := codec.encode(converted);
            }
          } else if codec.decodeError(msg).Some? && chunkCount == 1 {
            AbortedStays(codec, splitReasoning, old(chunkCount), old(Think()), messages, i + 1);
            return FirstChunkError(codec.decodeError(msg).value);
          }
        }
        outputs := outputs + SSE_HEADER + output + SSE_TAIL;
      }
      assert messages[..|messages|] == messages;
      return Output(outputs);
    }

    // ---------- gRPC backends ----------

    /** The first complete frame of the buffer, taken off it. */
    method FrameRemainBuf() returns (payload: Option<bytes>)
      modifies this`remainBuf
      ensures match Grpc.NextFrame(old(remainBuf))
              case None => payload == None && remainBuf == old(remainBuf)
              case Some(f) => payload == Some(f.payload) && remainBuf == f.rest
    {
      if |remainBuf| < 5 {
        return None;
      }
      var size := Grpc.FrameSize(remainBuf);
      if |remainBuf| < size + 5 {
        return None;
      }
      var grpcBuf := remainBuf[5..size + 5];
      remainBuf := remainBuf[size + 5..];
      return Some(grpcBuf);
    }

    /** One read from a gRPC backend; `frames` records the payloads taken off. */
    method DrainFrames(data: bytes) returns (ghost frames: seq<bytes>)
      modifies this`remainBuf
      ensures Grpc.Drained(frames, remainBuf) == Grpc.Drain(old(remainBuf) + data)
    {
      remainBuf := remainBuf + data;
      frames := [];
      ghost var whole := remainBuf;
      while true
        invariant Grpc.Drain(whole) ==
                  Grpc.Drained(frames + Grpc.Drain(remainBuf).payloads, Grpc.Drain(remainBuf).rest)
        decreases |remainBuf|
      {
        ghost var before := remainBuf;
        var grpcBuf := FrameRemainBuf();
        if grpcBuf.None? || grpcBuf.value == [] {
          assert Grpc.Drain(before) == Grpc.Drained([], remainBuf);
          break;
        }
        frames := frames + [grpcBuf.value];
      }
    }
  }

  /** The header of an outgoing gRPC message, whose payload follows the five header bytes. */
  method SetGrpcHeader(grpcBuf: array<char>, size: nat)
    requires grpcBuf.Length >= 5
    modifies grpcBuf
    ensures size == grpcBuf.Length - 5 ==> grpcBuf[..] == Grpc.Encode(old(grpcBuf[0]), old(grpcBuf[5..]))
    ensures Grpc.FrameSize(grpcBuf[..]) == size % Grpc.SIZE_LIMIT
    ensures grpcBuf[0] == old(grpcBuf[0]) && grpcBuf[5..] == old(grpcBuf[5..])
  {
    grpcBuf[4] := Grpc.SizeByte(size, 1);
    grpcBuf[3] := Grpc.SizeByte(size, 0x100);
    grpcBuf[2] := Grpc.SizeByte(size, 0x10000);
    grpcBuf[1] := Grpc.SizeByte(size, 0x1000000);
    Grpc.SizeBytesValue(size);
  }

  lemma FeedLater(remain: bytes, data: bytes)
    ensures Feed(remain + data, []) == Feed(remain, data)
  {
    assert remain + data + [] == remain + data;
  }

  /** An aborted conversion is not affected by the messages after the error. */
  lemma {:induction false} AbortedStays(codec: Codec, split: bool, count: nat, st: ThinkState, msgs: seq<bytes>, k: nat)
    requires k <= |msgs| && ConvertMessages(codec, split, count, st, msgs[..k]).response.FirstChunkError?
    ensures ConvertMessages(codec, split, count, st, msgs) == ConvertMessages(codec, split, count, st, msgs[..k])
    decreases |msgs|
  {
    if k == |msgs| {
      assert msgs[..k] == msgs;
    } else {
      assert msgs[..|msgs| - 1][..k] == msgs[..k];
      AbortedStays(codec, split, count, st, msgs[..|msgs| - 1], k);
    }
  }

  // ---------- whole streams ----------

  datatype Session = Session(remain: bytes, count: nat, think: ThinkState)

  const FRESH := Session([], 0, INITIAL)

  /** What `ConvertOpenAiResp` does to the session on one read. */
  ghost function Respond(codec: Codec, split: bool, s: Session, data: bytes): (Session, Response) {
    var p := Feed(s.remain, data);
    if !AllLong(p.messages) then (Session(p.rest, s.count, s.think), InvalidSSEChunk)
    else
      var c := ConvertMessages(codec, split, s.count, s.think, Payloads(p.messages));
      (Session(p.rest, c.count, c.think), c.response)
  }

  /** The concatenated output of a stream of reads, or the error that ended it. */
  ghost function Stream(codec: Codec, split: bool, s: Session, pieces: seq<bytes>): Response
    decreases |pieces|
  {
    if pieces == [] then Output([])
    else
      match Respond(codec, split, s, pieces[0])
      case (next, Output(data)) =>
        (match Stream(codec, split, next, pieces[1..])
         case Output(later) => Output(data + later)
         case other => other)
      case (_, failed) => failed
  }

  /** The first message of a stream must not be an error; later ones may. */
  ghost predicate StartsWell(codec: Codec, count: nat, payloads: seq<bytes>) {
    count == 0 && payloads != [] ==> !IsErrorMessage(codec, payloads[0])
  }

  // ---------- reads do not matter ----------

  /** The outcome of further messages, put behind what was printed before. */
  function Continued(first: Converted, later: Converted): Converted
    requires first.response.Output?
  {
    if later.response.Output? then later.(response := Output(first.response.data + later.response.data)) else later
  }

  lemma {:induction false} ConvertAppend(codec: Codec, split: bool, count: nat, st: ThinkState, a: seq<bytes>,
      b: seq<bytes>)
    ensures var first := ConvertMessages(codec, split, count, st, a);
            ConvertMessages(codec, split, count, st, a + b) ==
            if first.response.FirstChunkError? then first
            else Continued(first, ConvertMessages(codec, split, first.count, first.think, b))
    decreases |b|
  {
    hide ConvertMessage, IsErrorMessage, IsChunk;
    var first := ConvertMessages(codec, split, count, st, a);
    if b == [] {
      assert a + b == a;
      assert first.response.Output? ==> first.response.data + [] == first.response.data;
    } else {
      var (front, msg) := (b[..|b| - 1], b[|b| - 1]);
      ConvertAppend(codec, split, count, st, a, front);
      assert (a + b)[..|a + b| - 1] == a + front && (a + b)[|a + b| - 1] == msg;
      if first.response.Output? {
        var mid := ConvertMessages(codec, split, first.count, first.think, front);
        if mid.response.Output? {
          AssociateMessage(first.response.data, mid.response.data, ConvertMessage(codec, split, mid.think, msg).1);
        }
      }
    }
  }

  lemma AssociateMessage(a: bytes, b: bytes, out: bytes)
    ensures a + b + SSE_HEADER + out + SSE_TAIL == a + (b + SSE_HEADER + out + SSE_TAIL)
  {
  }

  /** The output of a stream of reads is the conversion of the parsed payloads, first-message errors included. */
  lemma {:induction false} StreamIsConversion(codec: Codec, split: bool, s: Session, pieces: seq<bytes>)
    requires ParseAll(s.remain, pieces).Parsed?
    ensures Stream(codec, split, s, pieces) ==
            ConvertMessages(codec, split, s.count, s.think, ParseAll(s.remain, pieces).payloads).response
    decreases |pieces|
  {
    hide Feed, Payloads, AllLong, ConvertMessages;
    if pieces == [] {
      NothingConverted(codec, split, s.count, s.think);
    } else {
      var p := Feed(s.remain, pieces[0]);
      var msgs := Payloads(p.messages);
      var later := ParseAll(p.rest, pieces[1..]).payloads;
      var c := ConvertMessages(codec, split, s.count, s.think, msgs);
      ConvertAppend(codec, split, s.count, s.think, msgs, later);
      if c.response.Output? {
        StreamIsConversion(codec, split, Session(p.rest, c.count, c.think), pieces[1..]);
      }
    }
  }

  lemma NothingConverted(codec: Codec, split: bool, count: nat, st: ThinkState)
    ensures ConvertMessages(codec, split, count, st, []) == Converted(count, st, Output([]))
  {
  }

  lemma {:induction false} LaterMessagesNeverAbort(codec: Codec, split: bool, count: nat, st: ThinkState,
      msgs: seq<bytes>)
    requires count > 0
    ensures var c := ConvertMessages(codec, split, count, st, msgs); c.response.Output? && c.count >= count
    decreases |msgs|
  {
    hide ConvertMessage, IsErrorMessage;
    if msgs != [] {
      LaterMessagesNeverAbort(codec, split, count, st, msgs[..|msgs| - 1]);
    }
  }

  lemma FirstMessage(codec: Codec, split: bool, st: ThinkState, msg: bytes, e: bytes)
    ensures var c := ConvertMessages(codec, split, 0, st, [msg]);
            && (c.response == FirstChunkError(e) <==>
                msg != "[DONE]" && !(codec.decode(msg).Some? && codec.decode(msg).value.kind != []) &&
                codec.decodeError(msg) == Some(e))
            && (c.response.Output? ==> c.count == 1)
  {
    hide ConvertMessage;
    assert [msg][..0] == [];
    NothingConverted(codec, split, 0, st);
  }

  /** Over any reads and with splitting on or off, a stream ends with a first-message error exactly when its first payload
      is neither the end marker nor a chunk and decodes as that error. */
  lemma FirstMessageErrorIff(codec: Codec, split: bool, pieces: seq<bytes>, e: bytes)
    requires ParseAll([], pieces).Parsed?
    ensures var msgs := ParseAll([], pieces).payloads;
            Stream(codec, split, FRESH, pieces) == FirstChunkError(e) <==>
            && msgs != [] && msgs[0] != "[DONE]"
            && !(codec.decode(msgs[0]).Some? && codec.decode(msgs[0]).value.kind != [])
            && codec.decodeError(msgs[0]) == Some(e)
  {
    hide ParseAll, Stream, ConvertMessages;
    StreamIsConversion(codec, split, FRESH, pieces);
    var msgs := ParseAll([], pieces).payloads;
    if msgs == [] {
      NothingConverted(codec, split, 0, INITIAL);
    } else {
      var (msg, rest) := (msgs[0], msgs[1..]);
      assert msgs == [msg] + rest;
      ConvertAppend(codec, split, 0, INITIAL, [msg], rest);
      FirstMessage(codec, split, INITIAL, msg, e);
      var c := ConvertMessages(codec, split, 0, INITIAL, [msg]);
      if c.response.Output? {
        LaterMessagesNeverAbort(codec, split, c.count, c.think, rest);
      }
    }
  }

  /** A stream with an invalid chunk never ends well. */
  lemma {:induction false} InvalidStreamFails(codec: Codec, split: bool, s: Session, pieces: seq<bytes>)
    requires ParseAll(s.remain, pieces) == InvalidChunk
    ensures !Stream(codec, split, s, pieces).Output?
    decreases |pieces|
  {
    hide Feed, Payloads, AllLong, ConvertMessages;
    var p := Feed(s.remain, pieces[0]);
    if AllLong(p.messages) {
      var c := ConvertMessages(codec, split, s.count, s.think, Payloads(p.messages));
      if c.response.Output? {
        InvalidStreamFails(codec, split, Session(p.rest, c.count, c.think), pieces[1..]);
      }
    }
  }

  /** With splitting on or off, for any choices, and also when the first message is an error: unless a read boundary
      separates a CR from its LF, the result of a stream does not depend on how it was cut into reads. A stream with an
      invalid chunk fails either way, at once as invalid, in pieces perhaps with an earlier first-message error. */
  lemma OutputIgnoresChunking(codec: Codec, split: bool, pieces: seq<bytes>)
    requires SplitPairs(false, pieces) == 0
    ensures var inPieces := Stream(codec, split, FRESH, pieces);
            var atOnce := Stream(codec, split, FRESH, [Concat(pieces)]);
            if ParseAll([], pieces).Parsed? then inPieces == atOnce
            else !inPieces.Output? && atOnce == InvalidSSEChunk
  {
    hide Feed, ConvertMessages, SplitPairs;
    ParsingIgnoresChunking(pieces);
    if ParseAll([], pieces).Parsed? {
      StreamIsConversion(codec, split, FRESH, pieces);
      StreamIsConversion(codec, split, FRESH, [Concat(pieces)]);
    } else {
      InvalidStreamFails(codec, split, FRESH, pieces);
      InvalidAtOnce(codec, split, FRESH, Concat(pieces));
    }
  }

  lemma InvalidAtOnce(codec: Codec, split: bool, s: Session, whole: bytes)
    requires ParseAll(s.remain, [whole]) == InvalidChunk
    ensures Stream(codec, split, s, [whole]) == InvalidSSEChunk
  {
    hide Feed, ConvertMessages;
    assert [whole][1..] == [];
  }

  // ---------- with splitting off ----------

  /** Without splitting, and unless the stream's first message is an error, messages are printed as they are. */
  lemma {:induction false} UnsplitRenders(codec: Codec, count: nat, st: ThinkState, msgs: seq<bytes>)
    requires count == 0 && msgs != [] ==> !IsErrorMessage(codec, msgs[0])
    ensures ConvertMessages(codec, false, count, st, msgs) == Converted(count + |msgs|, st, Output(Render(msgs)))
    decreases |msgs|
  {
    hide IsErrorMessage, IsChunk, Render;
    RenderSmall([]);
    if msgs != [] {
      var (older, msg) := (msgs[..|msgs| - 1], msgs[|msgs| - 1]);
      UnsplitRenders(codec, count, st, older);
      assert msgs == older + [msg];
      RenderAppend(older, [msg]);
      RenderSmall(msg);
      Associate(Render(older), SSE_HEADER, msg);
      Associate(Render(older), SSE_HEADER + msg, SSE_TAIL);
    }
  }

  lemma UnsplitStream(codec: Codec, s: Session, pieces: seq<bytes>)
    requires ParseAll(s.remain, pieces).Parsed?
    requires StartsWell(codec, s.count, ParseAll(s.remain, pieces).payloads)
    ensures Stream(codec, false, s, pieces) == Output(Render(ParseAll(s.remain, pieces).payloads))
  {
    hide ParseAll, Stream, Render, ConvertMessages, IsErrorMessage;
    StreamIsConversion(codec, false, s, pieces);
    UnsplitRenders(codec, s.count, s.think, ParseAll(s.remain, pieces).payloads);
  }

  /** With splitting off, and unless the first message is an error, the concatenated output of a stream prints
      exactly the parsed payloads, whatever the reads, and parses back to exactly those payloads. */
  lemma OutputParsesBack(codec: Codec, pieces: seq<bytes>)
    requires ParseAll([], pieces).Parsed?
    requires StartsWell(codec, 0, ParseAll([], pieces).payloads)
    ensures var out := Stream(codec, false, FRESH, pieces);
            out.Output? && ParseAll([], [out.data]) == Parsed(ParseAll([], pieces).payloads, [])
  {
    UnsplitStream(codec, FRESH, pieces);
    ParsedIsPrintable(pieces);
    ParseOfRender(ParseAll([], pieces).payloads);
  }

  // ---------- with splitting on ----------

  /** A chunk of a completion: it decodes, it names its kind, and it is not the end marker. */
  predicate IsConverted(codec: Codec, msg: bytes) {
    msg != "[DONE]" && codec.decode(msg).Some? && codec.decode(msg).value.kind != []
  }

  /** The deltas of all choices of a message, if it is a chunk. */
  function DeltasIn(codec: Codec, msg: bytes): seq<Delta> {
    if IsConverted(codec, msg) then codec.decode(msg).value.deltas else []
  }

  function DeltasOf(codec: Codec, msgs: seq<bytes>): seq<Delta> {
    if msgs == [] then [] else DeltasOf(codec, msgs[..|msgs| - 1]) + DeltasIn(codec, msgs[|msgs| - 1])
  }

  /** The message with the deltas of its choices replaced. */
  function Rewrite(codec: Codec, msg: bytes, ds: seq<Delta>): bytes {
    if IsConverted(codec, msg) then codec.encode(Chunk(codec.decode(msg).value.kind, ds)) else msg
  }

  /** All messages, their deltas replaced one after the other. */
  function RewriteAll(codec: Codec, msgs: seq<bytes>, ds: seq<Delta>): seq<bytes>
    requires |ds| == |DeltasOf(codec, msgs)|
  {
    if msgs == [] then []
    else
      var (older, msg) := (msgs[..|msgs| - 1], msgs[|msgs| - 1]);
      var n := |DeltasOf(codec, older)|;
      RewriteAll(codec, older, ds[..n]) + [Rewrite(codec, msg, ds[n..])]
  }

  lemma OneMessage(codec: Codec, st: ThinkState, msg: bytes)
    ensures var ds := DeltasIn(codec, msg);
            ConvertMessage(codec, true, st, msg) == (After(st, ds), Rewrite(codec, msg, ConvertStream(st, ds)))
  {
    hide ConvertDelta;
    ConvertDeltasIsStream(st, DeltasIn(codec, msg));
  }

  lemma SplitSnoc(codec: Codec, st: ThinkState, older: seq<bytes>, msg: bytes)
    ensures var (ds, es, all) := (DeltasOf(codec, older), DeltasIn(codec, msg), DeltasOf(codec, older + [msg]));
            && After(st, all) == After(After(st, ds), es)
            && RewriteAll(codec, older + [msg], ConvertStream(st, all)) ==
               RewriteAll(codec, older, ConvertStream(st, ds)) +
               [Rewrite(codec, msg, ConvertStream(After(st, ds), es))]
  {
    hide DeltasIn, Rewrite, ConvertDelta;
    var (ds, es) := (DeltasOf(codec, older), DeltasIn(codec, msg));
    var msgs := older + [msg];
    assert msgs[..|msgs| - 1] == older && msgs[|msgs| - 1] == msg;
    assert DeltasOf(codec, msgs) == ds + es;
    ConvertStreamAppend(st, ds, es);
    var (x, y) := (ConvertStream(st, ds), ConvertStream(After(st, ds), es));
    assert (x + y)[..|ds|] == x && (x + y)[|ds|..] == y;
  }

  /** Messages are printed with their deltas replaced, the think state running through all of them. */
  lemma {:induction false} SplitRenders(codec: Codec, count: nat, st: ThinkState, msgs: seq<bytes>)
    requires StartsWell(codec, count, msgs)
    ensures var ds := DeltasOf(codec, msgs);
            ConvertMessages(codec, true, count, st, msgs) ==
            Converted(count + |msgs|, After(st, ds), Output(Render(RewriteAll(codec, msgs, ConvertStream(st, ds)))))
    decreases |msgs|
  {
    hide IsErrorMessage, Render, RewriteAll, ConvertStream, After, DeltasOf, ConvertMessage, Rewrite, DeltasIn;
    RenderSmall([]);
    if msgs == [] {
      NothingSplit(codec, st);
    } else {
      var (older, msg) := (msgs[..|msgs| - 1], msgs[|msgs| - 1]);
      assert msgs == older + [msg];
      SplitRenders(codec, count, st, older);
      SplitSnoc(codec, st, older, msg);
      OneMessage(codec, After(st, DeltasOf(codec, older)), msg);
      var printed := RewriteAll(codec, older, ConvertStream(st, DeltasOf(codec, older)));
      var out := ConvertMessage(codec, true, After(st, DeltasOf(codec, older)), msg).1;
      RenderAppend(printed, [out]);
      RenderSmall(out);
      Associate(Render(printed), SSE_HEADER, out);
      Associate(Render(printed), SSE_HEADER + out, SSE_TAIL);
    }
  }

  lemma NothingSplit(codec: Codec, st: ThinkState)
    ensures DeltasOf(codec, []) == [] && After(st, []) == st && ConvertStream(st, []) == []
    ensures RewriteAll(codec, [], []) == []
  {
  }

  /** With splitting on, for any number of choices over any reads: the output prints every message with its deltas
      replaced, and what the client so receives for each choice is the whole-text split of that choice's text, for all of
      them, exactly when the choices are separable. */
  lemma SplitStreamIff(codec: Codec, pieces: seq<bytes>)
    requires ParseAll([], pieces).Parsed?
    requires StartsWell(codec, 0, ParseAll([], pieces).payloads)
    requires NoOwnReasoning(DeltasOf(codec, ParseAll([], pieces).payloads))
    ensures var msgs := ParseAll([], pieces).payloads;
            var ds := DeltasOf(codec, msgs);
            && Stream(codec, true, FRESH, pieces) == Output(Render(RewriteAll(codec, msgs, ConvertStream(INITIAL, ds))))
            && ((forall j :: Agrees(ds, j)) <==> Separable(ds))
  {
    hide ParseAll, Stream, DeltasOf, RewriteAll, Render, ConvertStream, Separable, Agrees, ConvertMessages;
    var msgs := ParseAll([], pieces).payloads;
    var ds := DeltasOf(codec, msgs);
    StreamIsConversion(codec, true, FRESH, pieces);
    SplitRenders(codec, 0, INITIAL, msgs);
    EveryChoiceAgreesIff(ds);
  }
}
