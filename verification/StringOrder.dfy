/** The byte-wise order of strings, sorted lists without duplicates, and sorting by insertion. */
module StringOrder {

  predicate Less(a: string, b: string) {
    b != [] && (a == [] || a[0] < b[0] || (a[0] == b[0] && Less(a[1..], b[1..])))
  }

  /** Byte-wise: the first difference decides, and a proper prefix comes first. */
  lemma {:induction false} LessIff(a: string, b: string)
    ensures Less(a, b) <==> exists k: nat :: Differs(a, b, k)
  {
    if b != [] && a != [] && a[0] == b[0] {
      LessIff(a[1..], b[1..]);
      if k: nat :| Differs(a[1..], b[1..], k) {
        assert a[..k + 1] == [a[0]] + a[1..][..k] && b[..k + 1] == [b[0]] + b[1..][..k];
        assert Differs(a, b, k + 1);
      }
      if k: nat :| Differs(a, b, k) {
        assert a[..k] == [a[0]] + a[1..][..k - 1] && b[..k] == [b[0]] + b[1..][..k - 1];
        assert Differs(a[1..], b[1..], k - 1);
      }
    } else {
      assert Less(a, b) ==> Differs(a, b, 0);
      if k: nat :| Differs(a, b, k) {
        assert k > 0 ==> a[..k][0] == b[..k][0];
      }
    }
  }

  /** a and b agree on k bytes, and then a ends or has the smaller byte. */
  predicate Differs(a: string, b: string, k: nat) {
    k <= |a| && k < |b| && a[..k] == b[..k] && (k == |a| || a[k] < b[k])
  }

  lemma {:induction false} LessTotal(a: string, b: string)
    ensures Less(a, b) || a == b || Less(b, a)
  {
    if a != [] && b != [] && a[0] == b[0] {
      LessTotal(a[1..], b[1..]);
      assert a[1..] == b[1..] ==> a == [a[0]] + a[1..] == b;
    }
  }

  lemma {:induction false} LessIrreflexive(a: string)
    ensures !Less(a, a)
  {
    if a != [] {
      LessIrreflexive(a[1..]);
    }
  }

  lemma {:induction false} LessTransitive(a: string, b: string, c: string)
    requires Less(a, b) && Less(b, c)
    ensures Less(a, c)
  {
    if a != [] && a[0] == b[0] == c[0] {
      LessTransitive(a[1..], b[1..], c[1..]);
    }
  }

  ghost predicate StrictlySorted(s: seq<string>) {
    forall i, j :: 0 <= i < j < |s| ==> Less(s[i], s[j])
  }

  ghost function Elements(s: seq<string>): set<string> {
    set x | x in s
  }

  lemma FirstIsElement(s: seq<string>)
    requires s != []
    ensures s[0] in Elements(s)
  {
  }

  ghost predicate NoDuplicates(s: seq<string>) {
    forall i, j :: 0 <= i < j < |s| ==> s[i] != s[j]
  }

  lemma Appended(s: seq<string>, x: string)
    requires NoDuplicates(s) && x !in Elements(s)
    ensures NoDuplicates(s + [x]) && Elements(s + [x]) == Elements(s) + {x}
  {
    assert forall i :: 0 <= i < |s| ==> s[i] in Elements(s);
  }

  lemma NothingListed()
    ensures Elements([]) == {} && NoDuplicates([])
  {
  }

  /** A set has exactly one strictly sorted listing. */
  lemma {:induction false} SortedUnique(s: seq<string>, t: seq<string>)
    requires StrictlySorted(s) && StrictlySorted(t) && Elements(s) == Elements(t)
    ensures s == t
    decreases |s|
  {
    if s != [] {
      FirstIsElement(s);
    }
    if t != [] {
      FirstIsElement(t);
    }
    if s != [] && t != [] {
      SameFirst(s, t);
      TailElements(s);
      TailElements(t);
      SortedUnique(s[1..], t[1..]);
    }
  }

  lemma SameFirst(s: seq<string>, t: seq<string>)
    requires StrictlySorted(s) && StrictlySorted(t) && s != [] && t != [] && s[0] in t && t[0] in s
    ensures s[0] == t[0]
  {
    var i :| 0 <= i < |t| && t[i] == s[0];
    var j :| 0 <= j < |s| && s[j] == t[0];
    if i > 0 && j > 0 {
      LessTransitive(s[0], s[j], s[0]);
      LessIrreflexive(s[0]);
    }
  }

  lemma TailElements(s: seq<string>)
    requires StrictlySorted(s) && s != []
    ensures Elements(s[1..]) == Elements(s) - {s[0]}
  {
    forall x | x in s[1..]
      ensures x != s[0]
    {
      var i :| 0 <= i < |s| - 1 && s[1..][i] == x;
      LessIrreflexive(s[0]);
      assert Less(s[0], s[i + 1]);
    }
    forall x | x in s && x != s[0]
      ensures x in s[1..]
    {
      var i :| 0 <= i < |s| && s[i] == x;
      assert s[1..][i - 1] == x;
    }
  }

  /** Puts x where it belongs in a sorted list that does not have it. */
  method InsertSorted(s: seq<string>, x: string) returns (r: seq<string>)
    requires StrictlySorted(s) && x !in s
    ensures StrictlySorted(r) && Elements(r) == Elements(s) + {x} && |r| == |s| + 1
  {
    var i := 0;
    while i < |s| && Less(s[i], x)
      invariant 0 <= i <= |s| && forall j :: 0 <= j < i ==> Less(s[j], x)
    {
      i := i + 1;
    }
    if i < |s| {
      LessTotal(s[i], x);
      forall j | i < j < |s|
        ensures Less(x, s[j])
      {
        LessTransitive(x, s[i], s[j]);
      }
    }
    r := s[..i] + [x] + s[i..];
    assert s == s[..i] + s[i..];
  }

  /** The strictly sorted listing of a list without duplicates. */
  method Sort(s: seq<string>) returns (r: seq<string>)
    requires NoDuplicates(s)
    ensures StrictlySorted(r) && Elements(r) == Elements(s) && |r| == |s|
  {
    r := [];
    for i := 0 to |s|
      invariant StrictlySorted(r) && Elements(r) == Elements(s[..i]) && |r| == i
    {
      assert s[i] !in Elements(s[..i]);
      assert forall x :: x in r ==> x in Elements(r);
      assert s[..i + 1] == s[..i] + [s[i]];
      r := InsertSorted(r, s[i]);
    }
    assert s[..|s|] == s;
  }
}
