/** gRPC length-prefixed messages: a flag byte, a four-byte big-endian length, the payload. */
module Grpc {
  import opened Arithmetic
  import opened Options
  import opened Text

  const HEADER_LENGTH := 5
  const SIZE_LIMIT := 0x1_0000_0000

  // ---------- reading one frame ----------

  function ByteAt(s: bytes, i: nat): nat
    requires i < |s|
  {
    s[i] as int
  }

  /** The length field: bytes 1 to 4, most significant first. */
  function FrameSize(s: bytes): nat
    requires |s| >= HEADER_LENGTH
  {
    ByteAt(s, 1) * 0x1000000 + ByteAt(s, 2) * 0x10000 + ByteAt(s, 3) * 0x100 + ByteAt(s, 4)
  }

  datatype Framed = Framed(payload: bytes, rest: bytes)

  /** The first frame of a buffer and what follows it, or None while the frame is incomplete. */
  function NextFrame(s: bytes): (r: Option<Framed>)
    ensures r.Some? ==> |r.value.rest| < |s|
  {
    if |s| < HEADER_LENGTH then None
    else if |s| < FrameSize(s) + HEADER_LENGTH then None
    else Some(Framed(s[HEADER_LENGTH..FrameSize(s) + HEADER_LENGTH], s[FrameSize(s) + HEADER_LENGTH..]))
  }

  // ---------- writing one frame ----------

  /** The low eight bits of size shifted right, as a byte conversion keeps them. */
  function SizeByte(size: nat, divisor: nat): char
    requires divisor > 0
  {
    (size / divisor % 256) as char
  }

  function Encode(flag: char, payload: bytes): bytes {
    var n := |payload|;
    [flag, SizeByte(n, 0x1000000), SizeByte(n, 0x10000), SizeByte(n, 0x100), SizeByte(n, 1)] + payload
  }

  /** Four bytes hold the length modulo 2^32. */
  lemma SizeBytesValue(n: nat)
    ensures (n / 0x1000000 % 256) * 0x1000000 + (n / 0x10000 % 256) * 0x10000 + (n / 0x100 % 256) * 0x100 + n / 1 % 256 ==
            n % SIZE_LIMIT
  {
    var (a, r0) := (n / 256, n % 256);
    var (b, r1) := (a / 256, a % 256);
    var (c, r2) := (b / 256, b % 256);
    var (d, r3) := (c / 256, c % 256);
    QuotientUnique(n, 0x10000, b, r1 * 0x100 + r0);
    QuotientUnique(n, 0x1000000, c, r2 * 0x10000 + r1 * 0x100 + r0);
    QuotientUnique(n, SIZE_LIMIT, d, r3 * 0x1000000 + r2 * 0x10000 + r1 * 0x100 + r0);
  }

  lemma EncodedSize(flag: char, payload: bytes, rest: bytes)
    ensures FrameSize(Encode(flag, payload) + rest) == |payload| % SIZE_LIMIT
  {
    var s := Encode(flag, payload) + rest;
    var n := |payload|;
    assert s[1] == SizeByte(n, 0x1000000) && s[2] == SizeByte(n, 0x10000);
    assert s[3] == SizeByte(n, 0x100) && s[4] == SizeByte(n, 1);
    SizeBytesValue(n);
  }

  /** Reading back a written frame gives the payload and leaves what follows
      exactly when the payload is shorter than 2^32 bytes. */
  lemma FrameRoundTripIff(flag: char, payload: bytes, rest: bytes)
    ensures NextFrame(Encode(flag, payload) + rest) == Some(Framed(payload, rest)) <==> |payload| < SIZE_LIMIT
  {
    var s := Encode(flag, payload) + rest;
    var n := |payload| % SIZE_LIMIT;
    EncodedSize(flag, payload, rest);
    if |payload| < SIZE_LIMIT {
      assert s[HEADER_LENGTH..n + HEADER_LENGTH] == payload && s[n + HEADER_LENGTH..] == rest;
    } else {
      assert |s[HEADER_LENGTH..n + HEADER_LENGTH]| == n < |payload|;
    }
  }

  /** The length is the base-256 number of the four bytes after the flag, the most significant digit first. */
  lemma BigEndian(flag: char, a: char, b: char, c: char, d: char, payload: bytes, rest: bytes)
    requires |payload| == ((a as int * 256 + b as int) * 256 + c as int) * 256 + d as int
    ensures NextFrame([flag, a, b, c, d] + payload + rest) == Some(Framed(payload, rest))
  {
    var s := [flag, a, b, c, d] + payload + rest;
    assert s[1] == a && s[2] == b && s[3] == c && s[4] == d;
    assert s[5..5 + |payload|] == payload && s[5 + |payload|..] == rest;
  }

  // ---------- draining a buffer ----------

  datatype Drained = Drained(payloads: seq<bytes>, rest: bytes)

  /** Frames are taken until none is complete or one is empty; an empty one is taken too. */
  function Drain(s: bytes): Drained
    decreases |s|
  {
    match NextFrame(s)
    case None => Drained([], s)
    case Some(Framed(payload, rest)) =>
      if payload == [] then Drained([], rest)
      else
        var later := Drain(rest);
        Drained([payload] + later.payloads, later.rest)
  }

  /** Some empty frame is followed by another complete frame. */
  predicate EmptyThenMore(s: bytes)
    decreases |s|
  {
    match NextFrame(s)
    case None => false
    case Some(Framed(payload, rest)) =>
      if payload == [] then NextFrame(rest).Some? else EmptyThenMore(rest)
  }

  /** Draining leaves no complete frame behind exactly when no empty frame is followed by another one. */
  lemma {:induction false} DrainCompletesIff(s: bytes)
    ensures NextFrame(Drain(s).rest) == None <==> !EmptyThenMore(s)
    decreases |s|
  {
    match NextFrame(s)
    case None =>
    case Some(Framed(payload, rest)) =>
      DrainCompletesIff(rest);
  }

  /** A complete frame stays the first frame when more bytes arrive. */
  lemma NextFrameExtend(a: bytes, b: bytes)
    requires NextFrame(a).Some?
    ensures NextFrame(a + b) == Some(Framed(NextFrame(a).value.payload, NextFrame(a).value.rest + b))
  {
    var n := FrameSize(a);
    assert (a + b)[HEADER_LENGTH..n + HEADER_LENGTH] == a[HEADER_LENGTH..n + HEADER_LENGTH];
    assert (a + b)[n + HEADER_LENGTH..] == a[n + HEADER_LENGTH..] + b;
  }

  /** Draining what is left together with what follows continues where the first drain stopped. */
  lemma {:induction false} DrainAppend(a: bytes, b: bytes)
    requires !EmptyThenMore(a + b)
    ensures Drain(a + b) == Drained(Drain(a).payloads + Drain(Drain(a).rest + b).payloads, Drain(Drain(a).rest + b).rest)
    ensures !EmptyThenMore(Drain(a).rest + b)
    decreases |a|
  {
    hide NextFrame;
    if NextFrame(a).Some? {
      var Framed(payload, rest) := NextFrame(a).value;
      NextFrameExtend(a, b);
      if payload != [] {
        DrainAppend(rest, b);
      }
    }
  }

  function FeedAll(remain: bytes, chunks: seq<bytes>): Drained
    decreases |chunks|
  {
    if chunks == [] then Drained([], remain)
    else
      var first := Drain(remain + chunks[0]);
      var later := FeedAll(first.rest, chunks[1..]);
      Drained(first.payloads + later.payloads, later.rest)
  }

  lemma {:induction false} FeedAllIsDrain(remain: bytes, chunks: seq<bytes>)
    requires !EmptyThenMore(remain + Concat(chunks))
    requires chunks == [] ==> NextFrame(remain) == None
    ensures FeedAll(remain, chunks) == Drain(remain + Concat(chunks))
    decreases |chunks|
  {
    hide NextFrame;
    if chunks == [] {
      assert remain + [] == remain;
    } else {
      var (c, rest) := (chunks[0], chunks[1..]);
      Associate(remain, c, Concat(rest));
      DrainAppend(remain + c, Concat(rest));
      var left := Drain(remain + c).rest;
      if rest == [] {
        assert remain + c + [] == remain + c && left + [] == left;
        DrainCompletesIff(remain + c);
        NothingMore(left);
      } else {
        FeedAllIsDrain(left, rest);
      }
    }
  }

  lemma NothingMore(s: bytes)
    requires NextFrame(s) == None
    ensures Drain(s) == Drained([], s)
  {
  }

  lemma DrainConsumes(s: bytes)
    requires NextFrame(s).Some?
    ensures |Drain(s).rest| < |s|
    decreases |s|
  {
    var Framed(payload, rest) := NextFrame(s).value;
    if payload != [] && NextFrame(rest).Some? {
      DrainConsumes(rest);
    }
  }

  /** A frame within the first k bytes is read alike from the truncated buffer. */
  lemma NextFrameTruncate(s: bytes, k: nat)
    requires NextFrame(s).Some? && |s| - |NextFrame(s).value.rest| <= k <= |s|
    ensures var (f, m) := (NextFrame(s).value, |s| - |NextFrame(s).value.rest|);
            NextFrame(s[..k]) == Some(Framed(f.payload, f.rest[..k - m])) && s[m..] == f.rest
  {
    var n := FrameSize(s) + HEADER_LENGTH;
    assert s[..k][HEADER_LENGTH..n] == s[HEADER_LENGTH..n];
    assert s[..k][n..] == s[n..][..k - n];
  }

  /** The bytes a drain takes, drained on their own, give the same payloads. */
  lemma {:induction false} DrainTaken(s: bytes)
    ensures var (d, k) := (Drain(s), |s| - |Drain(s).rest|);
            0 <= k && s[k..] == d.rest && Drain(s[..k]) == Drained(d.payloads, [])
    decreases |s|
  {
    hide NextFrame;
    if NextFrame(s).Some? {
      var Framed(payload, rest) := NextFrame(s).value;
      var m := |s| - |rest|;
      if payload == [] {
        NextFrameTruncate(s, m);
      } else {
        DrainTaken(rest);
        var k := |rest| - |Drain(rest).rest|;
        NextFrameTruncate(s, m + k);
        assert s[m + k..] == rest[k..];
      }
    } else {
      NothingInNothing();
    }
  }

  lemma NothingInNothing()
    ensures NextFrame([]) == None
  {
  }

  lemma CutAtEmptyFrame(s: bytes, k: nat)
    requires EmptyThenMore(s) && k == |s| - |Drain(s).rest|
    ensures FeedAll([], [s[..k], s[k..]]) != Drain(s)
  {
    hide NextFrame;
    var (a, b) := (s[..k], s[k..]);
    DrainTaken(s);
    DrainCompletesIff(s);
    DrainConsumes(b);
    assert [] + a == a && [] + b == b;
    assert [a, b][1..] == [b] && [b][1..] == [];
    assert FeedAll(Drain(a).rest, [b]).rest == Drain(b).rest;
  }

  /** How a byte stream is cut into reads makes no difference to the payloads and the remainder
      exactly when no empty frame is followed by another complete frame. */
  lemma ChunkingIrrelevantIff(s: bytes)
    ensures (forall chunks: seq<bytes> :: chunks != [] && Concat(chunks) == s ==> FeedAll([], chunks) == Drain(s)) <==>
            !EmptyThenMore(s)
  {
    hide NextFrame, Drain, FeedAll, EmptyThenMore;
    if EmptyThenMore(s) {
      var chunks := TellingChunks(s);
      assert FeedAll([], chunks) != Drain(s);
    } else {
      forall chunks: seq<bytes> | chunks != [] && Concat(chunks) == s
        ensures FeedAll([], chunks) == Drain(s)
      {
        assert [] + s == s;
        FeedAllIsDrain([], chunks);
      }
    }
  }

  lemma TellingChunks(s: bytes) returns (chunks: seq<bytes>)
    requires EmptyThenMore(s)
    ensures chunks != [] && Concat(chunks) == s && FeedAll([], chunks) != Drain(s)
  {
    hide NextFrame;
    DrainTaken(s);
    var k := |s| - |Drain(s).rest|;
    chunks := [s[..k], s[k..]];
    assert chunks[1..] == [s[k..]] && [s[k..]][1..] == [];
    assert Concat([s[k..]]) == s[k..] + [] == s[k..];
    assert s[..k] + s[k..] == s;
    CutAtEmptyFrame(s, k);
  }

  // ---------- a stream of frames ----------

  datatype Message = Message(flag: char, payload: bytes)

  function EncodeAll(ms: seq<Message>): bytes {
    if ms == [] then [] else Encode(ms[0].flag, ms[0].payload) + EncodeAll(ms[1..])
  }

  /** The payloads before the first empty one. */
  function BeforeEmpty(ms: seq<Message>): seq<bytes> {
    if ms == [] || ms[0].payload == [] then [] else [ms[0].payload] + BeforeEmpty(ms[1..])
  }

  /** The messages after the first empty one. */
  function AfterEmpty(ms: seq<Message>): seq<Message> {
    if ms == [] then [] else if ms[0].payload == [] then ms[1..] else AfterEmpty(ms[1..])
  }

  /** Draining written frames and an incomplete tail: exactly the payloads before the first empty frame come out,
      in order, and exactly what follows that frame stays. Without empty frames that is all of them, and the tail. */
  lemma {:induction false} DrainOfFrames(ms: seq<Message>, tail: bytes)
    requires forall i :: 0 <= i < |ms| ==> |ms[i].payload| < SIZE_LIMIT
    requires NextFrame(tail) == None
    ensures Drain(EncodeAll(ms) + tail) == Drained(BeforeEmpty(ms), EncodeAll(AfterEmpty(ms)) + tail)
    decreases |ms|
  {
    hide NextFrame, Encode;
    if ms == [] {
      assert [] + tail == tail;
    } else {
      var (m, later) := (ms[0], EncodeAll(ms[1..]) + tail);
      FrameRoundTripIff(m.flag, m.payload, later);
      Associate(Encode(m.flag, m.payload), EncodeAll(ms[1..]), tail);
      if m.payload != [] {
        DrainOfFrames(ms[1..], tail);
      }
    }
  }
}
