/** Chained block hashes of a prompt: entry i covers everything up to the end of block i. */
module PromptHash {
  import opened Arithmetic

  type Byte = b: int | 0 <= b < 256

  /** A running hash: its sum is a function of all bytes written so far. */
  class Hash64 {
    const sum: seq<Byte> -> nat
    var written: seq<Byte>

    constructor (sum: seq<Byte> -> nat)
      ensures written == [] && this.sum == sum
    {
      this.sum, written := sum, [];
    }

    method Write(chunk: seq<Byte>)
      modifies this
      ensures written == old(written) + chunk
    {
      written := written + chunk;
    }

    method Sum64() returns (h: nat)
      ensures h == sum(written)
    {
      h := sum(written);
    }
  }

  /** How many blocks of c bytes n bytes fill or start. */
  function Blocks(n: nat, c: nat): nat
    requires c > 0
  {
    DivisionNotNegative(n + c - 1, c);
    (n + c - 1) / c
  }

  lemma DivisionNotNegative(n: nat, c: nat)
    requires c > 0
    ensures n / c >= 0 && n / c * c <= n < n / c * c + c
  {
  }

  /** Where block i of n bytes ends. */
  function End(n: nat, c: nat, i: nat): (e: nat)
    ensures e <= n
  {
    if i * c + c < n then i * c + c else n
  }

  function Entry(sum: seq<Byte> -> nat, p: seq<Byte>, c: nat, i: nat): nat {
    sum(p[..End(|p|, c, i)])
  }

  function Chain(sum: seq<Byte> -> nat, p: seq<Byte>, c: nat): (r: seq<nat>)
    requires c > 0
    ensures |r| == Blocks(|p|, c)
    ensures forall i :: 0 <= i < |r| ==> r[i] == Entry(sum, p, c, i)
  {
    seq(Blocks(|p|, c), i requires 0 <= i => Entry(sum, p, c, i))
  }

  /** There are more than i blocks exactly when position i * c is inside the text. */
  lemma BlocksBefore(n: nat, c: nat, i: nat)
    requires c > 0
    ensures i * c < n <==> i < Blocks(n, c)
  {
    var m := Blocks(n, c);
    DivisionNotNegative(n + c - 1, c);
    if i < m {
      MultipleGrows(c, i + 1, m);
      assert (i + 1) * c == i * c + c;
    } else {
      MultipleGrows(c, m, i);
    }
  }

  /** The loop, with its short cut for a single block, computes the chain. */
  method PromptToHash(sum: seq<Byte> -> nat, prompt: seq<Byte>, chunkLen: nat) returns (buf: seq<nat>)
    requires chunkLen > 0
    ensures buf == Chain(sum, prompt, chunkLen)
  {
    hide Blocks, Chain;
    var plen := |prompt|;
    if plen == 0 {
      BlocksBefore(plen, chunkLen, 0);
      return [];
    }
    var hash := new Hash64(sum);
    if plen <= chunkLen {
      hash.Write(prompt);
      var h := hash.Sum64();
      OneBlock(plen, chunkLen);
      assert prompt[..plen] == prompt == [] + prompt;
      return [h];
    }
    buf := [];
    var start := 0;
    while start < plen
      invariant fresh(hash) && hash.sum == sum
      invariant start == |buf| * chunkLen && |buf| <= Blocks(plen, chunkLen)
      invariant hash.written == prompt[..if start < plen then start else plen]
      invariant forall i :: 0 <= i < |buf| ==> buf[i] == Entry(sum, prompt, chunkLen, i)
      decreases plen - start
    {
      BlocksBefore(plen, chunkLen, |buf|);
      var end := start + chunkLen;
      if end > plen {
        end := plen;
      }
      hash.Write(prompt[start..end]);
      assert prompt[..start] + prompt[start..end] == prompt[..end];
      var h := hash.Sum64();
      assert (|buf| + 1) * chunkLen == start + chunkLen;
      buf := buf + [h];
      start := start + chunkLen;
    }
    BlocksBefore(plen, chunkLen, |buf|);
  }

  /** How many entries there are: enough blocks to cover the prompt, and not one more. */
  lemma ChainCovers(sum: seq<Byte> -> nat, p: seq<Byte>, c: nat)
    requires c > 0
    ensures var m := |Chain(sum, p, c)|; |p| <= m * c && (m > 0 ==> m * c - c < |p|)
  {
    hide Blocks;
    var m := |Chain(sum, p, c)|;
    BlocksBefore(|p|, c, m);
    if m > 0 {
      BlocksBefore(|p|, c, m - 1);
      MultipleGrows(c, m - 1, m);
    }
  }

  /** And what they are: entry i is the hash of everything up to the end of block i, the last one of the whole prompt. */
  lemma ChainEntry(sum: seq<Byte> -> nat, p: seq<Byte>, c: nat, i: nat)
    requires c > 0 && i < |Chain(sum, p, c)|
    ensures Chain(sum, p, c)[i] == sum(if i * c + c < |p| then p[..i * c + c] else p)
  {
    assert p[..|p|] == p;
  }

  lemma OneBlock(n: nat, c: nat)
    requires 0 < n <= c
    ensures Blocks(n, c) == 1 && End(n, c, 0) == n
  {
    BlocksBefore(n, c, 0);
    BlocksBefore(n, c, 1);
  }

  // ---------- what two prompts share ----------

  /** The length of the longest common prefix. */
  function Shared<T(==)>(a: seq<T>, b: seq<T>): (n: nat)
    ensures n <= |a| && n <= |b|
  {
    if a != [] && b != [] && a[0] == b[0] then 1 + Shared(a[1..], b[1..]) else 0
  }

  lemma {:induction false} SharedIsPrefix<T>(a: seq<T>, b: seq<T>)
    ensures var n := Shared(a, b); a[..n] == b[..n] && (n < |a| && n < |b| ==> a[n] != b[n])
  {
    if a != [] && b != [] && a[0] == b[0] {
      var n := Shared(a[1..], b[1..]);
      SharedIsPrefix(a[1..], b[1..]);
      assert a[..n + 1] == [a[0]] + a[1..][..n] && b[..n + 1] == [b[0]] + b[1..][..n];
    }
  }

  /** Up to a position, two texts agree exactly when it is inside their longest common prefix. */
  lemma AgreeUpTo<T>(a: seq<T>, b: seq<T>, m: nat)
    requires m <= |a| && m <= |b|
    ensures a[..m] == b[..m] <==> m <= Shared(a, b)
  {
    var n := Shared(a, b);
    SharedIsPrefix(a, b);
    if m <= n {
      assert a[..m] == a[..n][..m] && b[..m] == b[..n][..m];
    } else {
      assert a[..m][n] == a[n] && b[..m][n] == b[n];
    }
  }

  lemma SameElement<T>(a: seq<T>, b: seq<T>, m: nat, i: nat)
    requires i < m <= |a| && m <= |b| && a[..m] == b[..m]
    ensures a[i] == b[i]
  {
    assert a[i] == a[..m][i] && b[i] == b[..m][i];
  }

  /** The longest common prefix is the only one that ends in a difference or at an end. */
  lemma SharedUnique<T>(a: seq<T>, b: seq<T>, n: nat)
    requires n <= |a| && n <= |b| && a[..n] == b[..n] && (n < |a| && n < |b| ==> a[n] != b[n])
    ensures Shared(a, b) == n
  {
    var m := Shared(a, b);
    AgreeUpTo(a, b, n);
    SharedIsPrefix(a, b);
    if n < m {
      SameElement(a, b, m, n);
    }
  }

  /** The hash tells the beginnings of the two prompts apart. */
  ghost predicate CollisionFree(sum: seq<Byte> -> nat, p: seq<Byte>, q: seq<Byte>) {
    forall m: nat, n: nat | m <= |p| && n <= |q| :: sum(p[..m]) == sum(q[..n]) ==> p[..m] == q[..n]
  }

  /** A block inside the common prefix hashes alike, whatever the hash. */
  lemma EntryAgrees(sum: seq<Byte> -> nat, p: seq<Byte>, q: seq<Byte>, c: nat, i: nat)
    requires c > 0 && i * c + c <= Shared(p, q)
    ensures i < Blocks(|p|, c) && i < Blocks(|q|, c) && Entry(sum, p, c, i) == Entry(sum, q, c, i)
  {
    hide Blocks, Shared;
    BlocksBefore(|p|, c, i);
    BlocksBefore(|q|, c, i);
    AgreeUpTo(p, q, i * c + c);
    assert End(|p|, c, i) == i * c + c == End(|q|, c, i);
  }

  lemma {:induction false} FirstBlocksAgree(sum: seq<Byte> -> nat, p: seq<Byte>, q: seq<Byte>, c: nat, k: nat)
    requires c > 0 && k * c <= Shared(p, q)
    ensures k <= Blocks(|p|, c) && k <= Blocks(|q|, c) && Chain(sum, p, c)[..k] == Chain(sum, q, c)[..k]
    decreases k
  {
    hide Blocks, Shared, Entry;
    if k > 0 {
      PreviousMultiple(k, c);
      FirstBlocksAgree(sum, p, q, c, k - 1);
      EntryAgrees(sum, p, q, c, k - 1);
      Longer(Chain(sum, p, c), Chain(sum, q, c), k - 1);
    }
  }

  lemma PreviousMultiple(k: nat, c: nat)
    ensures (k - 1) * c == k * c - c && (k - 1) * c <= k * c
  {
  }

  lemma Longer<T>(a: seq<T>, b: seq<T>, i: nat)
    requires i < |a| && i < |b| && a[..i] == b[..i] && a[i] == b[i]
    ensures a[..i + 1] == b[..i + 1]
  {
    assert a[..i + 1] == a[..i] + [a[i]] && b[..i + 1] == b[..i] + [b[i]];
  }

  /** The chains agree on all blocks inside the common prefix, whatever the hash. */
  lemma SharedBlocksAgree(sum: seq<Byte> -> nat, p: seq<Byte>, q: seq<Byte>, c: nat)
    requires c > 0
    ensures var k := Shared(p, q) / c;
            0 <= k <= Blocks(|p|, c) && k <= Blocks(|q|, c) && Chain(sum, p, c)[..k] == Chain(sum, q, c)[..k]
  {
    DivisionNotNegative(Shared(p, q), c);
    FirstBlocksAgree(sum, p, q, c, Shared(p, q) / c);
  }

  lemma CutsDetermine(p: seq<Byte>, q: seq<Byte>, c: nat, i: nat)
    requires p[..End(|p|, c, i)] == q[..End(|q|, c, i)] && Shared(p, q) < i * c + c
    ensures p == q
  {
    hide Shared;
    var (e, f) := (End(|p|, c, i), End(|q|, c, i));
    assert |p[..e]| == e && |q[..f]| == f;
    AgreeUpTo(p, q, e);
    assert p[..|p|] == p && q[..|q|] == q;
  }

  /** Without collisions, a block that reaches beyond the common prefix of different prompts hashes differently. */
  lemma EntryDiffers(sum: seq<Byte> -> nat, p: seq<Byte>, q: seq<Byte>, c: nat, i: nat)
    requires c > 0 && p != q && CollisionFree(sum, p, q) && Shared(p, q) < i * c + c
    ensures Entry(sum, p, c, i) != Entry(sum, q, c, i)
  {
    if p[..End(|p|, c, i)] == q[..End(|q|, c, i)] {
      CutsDetermine(p, q, c, i);
    }
  }

  /** Without collisions, two different prompts share exactly the hashes of the blocks inside their common prefix. */
  lemma SharedHashes(sum: seq<Byte> -> nat, p: seq<Byte>, q: seq<Byte>, c: nat)
    requires c > 0 && p != q && CollisionFree(sum, p, q)
    ensures Shared(Chain(sum, p, c), Chain(sum, q, c)) == Shared(p, q) / c
  {
    hide Blocks, Shared, Entry, Chain, CollisionFree;
    var (n, k) := (Shared(p, q), Shared(p, q) / c);
    DivisionNotNegative(n, c);
    SharedBlocksAgree(sum, p, q, c);
    EntryDiffers(sum, p, q, c, k);
    SharedUnique(Chain(sum, p, c), Chain(sum, q, c), k);
  }

  /** A continued prompt keeps the hashes of all its full blocks. */
  lemma ContinuationKeepsHashes(sum: seq<Byte> -> nat, p: seq<Byte>, more: seq<Byte>, c: nat)
    requires c > 0
    ensures var k := |p| / c;
            && 0 <= k <= Blocks(|p|, c) && k <= Blocks(|p + more|, c)
            && Chain(sum, p + more, c)[..k] == Chain(sum, p, c)[..k]
  {
    SharedUnique(p, p + more, |p|);
    SharedBlocksAgree(sum, p, p + more, c);
  }
}
