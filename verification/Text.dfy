/** Byte strings, one `char` a byte, and the string routines the transcoder relies on. */
module Text {

  type bytes = string

  predicate HasPrefix(s: bytes, p: bytes) {
    |p| <= |s| && s[..|p|] == p
  }

  /** The position of the first occurrence of p in s, or -1. */
  function Index(s: bytes, p: bytes): (i: int)
    ensures -1 <= i && (i >= 0 ==> i + |p| <= |s|)
  {
    if HasPrefix(s, p) then 0
    else if s == [] then -1
    else
      var i := Index(s[1..], p);
      if i == -1 then -1 else i + 1
  }

  /** Every occurrence of p replaced by r, from the left, without overlap. */
  function ReplaceAll(s: bytes, p: bytes, r: bytes): bytes
    requires p != []
  {
    if s == [] then []
    else if HasPrefix(s, p) then r + ReplaceAll(s[|p|..], p, r)
    else [s[0]] + ReplaceAll(s[1..], p, r)
  }

  function Concat(parts: seq<bytes>): bytes {
    if parts == [] then [] else parts[0] + Concat(parts[1..])
  }

  lemma Associate(a: bytes, b: bytes, c: bytes)
    ensures a + b + c == a + (b + c)
  {
  }

  lemma {:induction false} ConcatAppend(a: seq<bytes>, b: seq<bytes>)
    ensures Concat(a + b) == Concat(a) + Concat(b)
  {
    if a == [] {
      assert a + b == b;
    } else {
      ConcatAppend(a[1..], b);
      assert (a + b)[1..] == a[1..] + b && (a + b)[0] == a[0];
      Associate(a[0], Concat(a[1..]), Concat(b));
    }
  }

  // ---------- first occurrences ----------

  predicate OccursAt(s: bytes, p: bytes, i: nat) {
    i <= |s| && HasPrefix(s[i..], p)
  }

  /** An occurrence, byte by byte. */
  lemma OccursBytes(s: bytes, p: bytes, i: nat)
    ensures OccursAt(s, p, i) <==> i + |p| <= |s| && forall k :: 0 <= k < |p| ==> s[i + k] == p[k]
  {
    if i + |p| <= |s| {
      var t := s[i..];
      assert t[..|p|] == p <==> forall k :: 0 <= k < |p| ==> t[k] == p[k];
    }
  }

  lemma PrefixExtend(s: bytes, t: bytes, p: bytes)
    requires |p| <= |s|
    ensures HasPrefix(s + t, p) <==> HasPrefix(s, p)
  {
    assert (s + t)[..|p|] == s[..|p|];
  }

  lemma OccursInTail(s: bytes, p: bytes, i: nat)
    requires i > 0 && s != []
    ensures OccursAt(s, p, i) <==> OccursAt(s[1..], p, i - 1)
  {
    hide HasPrefix;
    if i <= |s| {
      assert s[i..] == s[1..][i - 1..];
    }
  }

  /** `Index` finds the least position at which p occurs. */
  lemma {:induction false} IndexIsFirst(s: bytes, p: bytes)
    ensures Index(s, p) >= 0 ==> OccursAt(s, p, Index(s, p))
    ensures forall i: nat :: OccursAt(s, p, i) ==> 0 <= Index(s, p) <= i
  {
    hide HasPrefix;
    assert s[0..] == s;
    if !HasPrefix(s, p) && s != [] {
      var t := s[1..];
      IndexIsFirst(t, p);
      forall i: nat
        ensures i > 0 ==> (OccursAt(s, p, i) <==> OccursAt(t, p, i - 1))
      {
        if i > 0 {
          OccursInTail(s, p, i);
        }
      }
    }
  }

  /** More text on the right does not move a first occurrence. */
  lemma {:induction false} IndexExtend(s: bytes, t: bytes, p: bytes)
    requires Index(s, p) >= 0
    ensures Index(s + t, p) == Index(s, p)
  {
    hide HasPrefix;
    PrefixExtend(s, t, p);
    if !HasPrefix(s, p) {
      IndexExtend(s[1..], t, p);
      assert (s + t)[1..] == s[1..] + t;
    }
  }

  /** Nothing occurs before the first occurrence. */
  lemma IndexBefore(s: bytes, p: bytes)
    requires p != [] && Index(s, p) >= 0
    ensures Index(s[..Index(s, p)], p) == -1
  {
    var k := Index(s, p);
    IndexIsFirst(s, p);
    IndexIsFirst(s[..k], p);
    forall j: nat | OccursAt(s[..k], p, j)
      ensures OccursAt(s, p, j)
    {
      OccursBytes(s[..k], p, j);
      OccursBytes(s, p, j);
    }
  }
}

/** Trimming of white space from both ends of a UTF-8 byte string. */
module Trim {
  import opened Text

  /** The one-byte white space characters. */
  predicate IsAsciiSpace(c: char) {
    c in "\t\n\U{0B}\U{0C}\r "
  }

  /** The two-byte encodings of white space: U+0085 and U+00A0. */
  predicate IsSpace2(a: char, b: char) {
    a == '\U{C2}' && (b == '\U{85}' || b == '\U{A0}')
  }

  /** The three-byte encodings of white space: U+1680, U+2000-200A, U+2028, U+2029, U+202F, U+205F, U+3000. */
  predicate IsSpace3(a: char, b: char, c: char) {
    || (a == '\U{E1}' && b == '\U{9A}' && c == '\U{80}')
    || (a == '\U{E2}' && b == '\U{80}' && ('\U{80}' <= c <= '\U{8A}' || c in "\U{A8}\U{A9}\U{AF}"))
    || (a == '\U{E2}' && b == '\U{81}' && c == '\U{9F}')
    || (a == '\U{E3}' && b == '\U{80}' && c == '\U{80}')
  }

  /** The number of bytes of the white space character s starts with, or 0. */
  function LeadingSpace(s: bytes): (n: nat)
    ensures n <= |s|
  {
    if |s| >= 1 && IsAsciiSpace(s[0]) then 1
    else if |s| >= 2 && IsSpace2(s[0], s[1]) then 2
    else if |s| >= 3 && IsSpace3(s[0], s[1], s[2]) then 3
    else 0
  }

  /** The number of bytes of the white space character s ends with, or 0. */
  function TrailingSpace(s: bytes): (n: nat)
    ensures n <= |s|
  {
    var k := |s|;
    if k >= 1 && IsAsciiSpace(s[k - 1]) then 1
    else if k >= 2 && IsSpace2(s[k - 2], s[k - 1]) then 2
    else if k >= 3 && IsSpace3(s[k - 3], s[k - 2], s[k - 1]) then 3
    else 0
  }

  function TrimLeft(s: bytes): bytes
    decreases |s|
  {
    if LeadingSpace(s) == 0 then s else TrimLeft(s[LeadingSpace(s)..])
  }

  function TrimRight(s: bytes): bytes
    decreases |s|
  {
    if TrailingSpace(s) == 0 then s else TrimRight(s[..|s| - TrailingSpace(s)])
  }

  function TrimSpace(s: bytes): bytes {
    TrimRight(TrimLeft(s))
  }

  predicate Trimmed(s: bytes) {
    LeadingSpace(s) == 0 && TrailingSpace(s) == 0
  }

  /** u is a stretch of s. */
  ghost predicate Within(u: bytes, s: bytes) {
    exists i: nat, j: nat :: i <= j <= |s| && u == s[i..j]
  }

  lemma {:induction false} TrimLeftIsSuffix(s: bytes) returns (i: nat)
    ensures i <= |s| && TrimLeft(s) == s[i..] && LeadingSpace(TrimLeft(s)) == 0
    decreases |s|
  {
    var n := LeadingSpace(s);
    if n == 0 {
      i := 0;
    } else {
      var k := TrimLeftIsSuffix(s[n..]);
      i := n + k;
      assert s[n..][k..] == s[i..];
    }
  }

  lemma {:induction false} TrimRightIsPrefix(s: bytes) returns (j: nat)
    ensures j <= |s| && TrimRight(s) == s[..j] && TrailingSpace(TrimRight(s)) == 0
    decreases |s|
  {
    var n := TrailingSpace(s);
    if n == 0 {
      j := |s|;
    } else {
      j := TrimRightIsPrefix(s[..|s| - n]);
      assert s[..|s| - n][..j] == s[..j];
    }
  }

  /** Trimming leaves a stretch of the text without white space at either end. */
  lemma TrimSpaceTrims(s: bytes)
    ensures Trimmed(TrimSpace(s)) && Within(TrimSpace(s), s)
  {
    var i := TrimLeftIsSuffix(s);
    var t := TrimLeft(s);
    var j := TrimRightIsPrefix(t);
    assert t[..j] == s[i..i + j];
  }

  /** One blank in front of a trimmed text is trimmed off again. */
  lemma TrimSpaceOfPadded(s: bytes)
    requires Trimmed(s)
    ensures TrimSpace(" " + s) == s
  {
    var t := " " + s;
    assert t[0] == ' ' && IsAsciiSpace(t[0]) && t[1..] == s;
    assert TrimLeft(t) == TrimLeft(s) == s;
  }

  lemma TrimSpaceOfTrimmed(s: bytes)
    requires Trimmed(s)
    ensures TrimSpace(s) == s
  {
  }

  /** The encoding of one white space character. */
  predicate IsSpaceChar(u: bytes) {
    || (|u| == 1 && IsAsciiSpace(u[0]))
    || (|u| == 2 && IsSpace2(u[0], u[1]))
    || (|u| == 3 && IsSpace3(u[0], u[1], u[2]))
  }

  ghost predicate AllSpace(us: seq<bytes>) {
    forall i :: 0 <= i < |us| ==> IsSpaceChar(us[i])
  }

  lemma LeftStep(s: bytes)
    requires LeadingSpace(s) > 0
    ensures IsSpaceChar(s[..LeadingSpace(s)]) && TrimLeft(s) == TrimLeft(s[LeadingSpace(s)..])
  {
  }

  lemma RightStep(s: bytes)
    requires TrailingSpace(s) > 0
    ensures IsSpaceChar(s[|s| - TrailingSpace(s)..]) && TrimRight(s) == TrimRight(s[..|s| - TrailingSpace(s)])
  {
    LastIsSpaceChar(s);
    hide TrailingSpace, IsSpaceChar;
  }

  lemma LastIsSpaceChar(s: bytes)
    requires TrailingSpace(s) > 0
    ensures IsSpaceChar(s[|s| - TrailingSpace(s)..])
  {
    hide TrimRight;
    var (k, n) := (|s|, TrailingSpace(s));
    var u := s[k - n..];
    assert |u| == n && u[0] == s[k - n] && (n > 1 ==> u[1] == s[k - n + 1]) && (n > 2 ==> u[2] == s[k - n + 2]);
  }

  lemma NoSpace(s: bytes)
    ensures AllSpace([]) && Concat([]) == []
    ensures LeadingSpace(s) == 0 ==> TrimLeft(s) == s
    ensures TrailingSpace(s) == 0 ==> TrimRight(s) == s
  {
  }

  lemma SpaceBefore(u: bytes, us: seq<bytes>, t: bytes)
    requires IsSpaceChar(u) && AllSpace(us)
    ensures AllSpace([u] + us) && Concat([u] + us) + t == u + (Concat(us) + t)
  {
    assert ([u] + us)[1..] == us;
    Associate(u, Concat(us), t);
  }

  lemma SpaceAfter(t: bytes, us: seq<bytes>, u: bytes)
    requires IsSpaceChar(u) && AllSpace(us)
    ensures AllSpace(us + [u]) && t + Concat(us + [u]) == t + Concat(us) + u
  {
    ConcatAppend(us, [u]);
    assert [u][1..] == [] && Concat([u]) == u + [] == u;
    Associate(t, Concat(us), u);
  }

  lemma {:induction false} TrimLeftDropsSpace(s: bytes) returns (us: seq<bytes>)
    ensures s == Concat(us) + TrimLeft(s) && AllSpace(us)
    decreases |s|
  {
    hide LeadingSpace, IsSpaceChar, AllSpace, Concat, TrimLeft;
    NoSpace(s);
    var n := LeadingSpace(s);
    if n == 0 {
      us := [];
      assert s == [] + s;
    } else {
      LeftStep(s);
      var later := TrimLeftDropsSpace(s[n..]);
      us := [s[..n]] + later;
      SpaceBefore(s[..n], later, TrimLeft(s));
      assert s == s[..n] + s[n..];
    }
  }

  lemma {:induction false} TrimRightDropsSpace(s: bytes) returns (us: seq<bytes>)
    ensures s == TrimRight(s) + Concat(us) && AllSpace(us)
    decreases |s|
  {
    hide TrailingSpace, IsSpaceChar, AllSpace, Concat, TrimRight;
    NoSpace(s);
    var k := |s| - TrailingSpace(s);
    if k == |s| {
      us := [];
      assert s == s + [];
    } else {
      RightStep(s);
      var older := TrimRightDropsSpace(s[..k]);
      us := older + [s[k..]];
      SpaceAfter(TrimRight(s), older, s[k..]);
      assert s == s[..k] + s[k..];
    }
  }

  /** Trimming drops whole white space characters from both ends, and nothing else. */
  lemma TrimSpaceDropsOnlySpace(s: bytes) returns (before: seq<bytes>, after: seq<bytes>)
    ensures s == Concat(before) + TrimSpace(s) + Concat(after) && AllSpace(before) && AllSpace(after)
  {
    before := TrimLeftDropsSpace(s);
    after := TrimRightDropsSpace(TrimLeft(s));
    Associate(Concat(before), TrimSpace(s), Concat(after));
  }
}
