/** Substring search as the strings package does it. */
module Strings {

  predicate OccursAt(s: string, p: string, i: nat) {
    i + |p| <= |s| && s[i..i + |p|] == p
  }

  ghost predicate NoneIn(s: string, p: string, from: nat, to: nat) {
    forall i: nat :: from <= i < to ==> !OccursAt(s, p, i)
  }

  /** The first occurrence from a position on. */
  ghost predicate FirstAt(s: string, p: string, from: nat, k: nat) {
    from <= k && OccursAt(s, p, k) && NoneIn(s, p, from, k)
  }

  function IndexFrom(s: string, p: string, from: nat): (r: int)
    requires from <= |s|
    ensures r == -1 || r >= from
    ensures r == -1 ==> NoneIn(s, p, from, |s| + 1)
    ensures r >= 0 ==> FirstAt(s, p, from, r)
    decreases |s| - from
  {
    if OccursAt(s, p, from) then from
    else if from == |s| then -1
    else IndexFrom(s, p, from + 1)
  }

  /** The first occurrence, or -1. */
  function Index(s: string, p: string): (r: int)
    ensures r == -1 || r >= 0
    ensures r == -1 ==> NoneIn(s, p, 0, |s| + 1)
    ensures r >= 0 ==> FirstAt(s, p, 0, r)
  {
    IndexFrom(s, p, 0)
  }

  predicate Contains(s: string, p: string) {
    Index(s, p) >= 0
  }

  ghost predicate NewlineFree(s: string) {
    forall i :: 0 <= i < |s| ==> s[i] != '\n'
  }

  lemma OccursChar(s: string, p: string, i: nat, j: nat)
    requires OccursAt(s, p, i) && j < |p|
    ensures s[i + j] == p[j]
  {
    assert s[i..i + |p|][j] == s[i + j];
  }

  lemma DiffersAt(s: string, p: string, i: nat, j: nat)
    requires j < |p| && (i + j < |s| ==> s[i + j] != p[j])
    ensures !OccursAt(s, p, i)
  {
    assert i + |p| <= |s| ==> s[i..i + |p|][j] == s[i + j];
  }

  lemma FirstIsIndex(s: string, p: string, k: nat)
    ensures FirstAt(s, p, 0, k) <==> Index(s, p) == k
  {}

  lemma SliceOfSlice(s: string, from: nat, to: nat, i: nat, n: nat)
    requires from <= i && i + n <= to <= |s|
    ensures s[from..to][i - from..i - from + n] == s[i..i + n]
  {
    var whole, part := s[from..to], s[i..i + n];
    forall j | 0 <= j < n
      ensures whole[i - from..i - from + n][j] == part[j]
    {
      assert whole[i - from + j] == s[i + j];
    }
  }

  lemma SliceOccurs(s: string, p: string, from: nat, to: nat, i: nat)
    requires from <= i && i + |p| <= to <= |s|
    ensures OccursAt(s, p, i) <==> OccursAt(s[from..to], p, i - from)
  {
    SliceOfSlice(s, from, to, i, |p|);
  }

  /** Texts with a common tail have the same occurrences in it. */
  lemma TailOccurs(s: string, t: string, p: string, a: nat, b: nat, i: nat)
    requires a <= |s| && b <= |t| && s[a..] == t[b..] && a <= i
    ensures OccursAt(s, p, i) <==> OccursAt(t, p, i - a + b)
  {
    assert |s| - a == |t| - b;
    if i + |p| <= |s| {
      SliceOfSlice(s, a, |s|, i, |p|);
      SliceOfSlice(t, b, |t|, i - a + b, |p|);
      assert s[a..|s|] == s[a..] && t[b..|t|] == t[b..];
    }
  }

  /** Texts with a common head have the same occurrences in it. */
  lemma HeadOccurs(s: string, t: string, p: string, n: nat, i: nat)
    requires n <= |s| && n <= |t| && s[..n] == t[..n] && i + |p| <= n
    ensures OccursAt(s, p, i) <==> OccursAt(t, p, i)
  {
    assert s[i..i + |p|] == s[..n][i..i + |p|];
    assert t[i..i + |p|] == t[..n][i..i + |p|];
  }

  lemma FirstInTail(s: string, t: string, p: string, a: nat, b: nat, from: nat, k: nat)
    requires a <= |s| && b <= |t| && s[a..] == t[b..] && a <= from && FirstAt(s, p, from, k)
    ensures FirstAt(t, p, from - a + b, k - a + b)
  {
    TailOccurs(s, t, p, a, b, k);
    forall i: nat | from - a + b <= i < k - a + b
      ensures !OccursAt(t, p, i)
    {
      TailOccurs(s, t, p, a, b, i - b + a);
    }
  }

  lemma FirstInHead(s: string, t: string, p: string, n: nat, from: nat, k: nat)
    requires n <= |s| && n <= |t| && s[..n] == t[..n] && k + |p| <= n && FirstAt(s, p, from, k)
    ensures FirstAt(t, p, from, k)
  {
    HeadOccurs(s, t, p, n, k);
    forall i: nat | from <= i < k
      ensures !OccursAt(t, p, i)
    {
      HeadOccurs(s, t, p, n, i);
    }
  }

  lemma SuffixIndex(s: string, p: string, from: nat, k: nat)
    requires from <= |s|
    ensures FirstAt(s, p, from, from + k) <==> Index(s[from..], p) == k
  {
    var t := s[from..];
    assert t[0..] == s[from..];
    if FirstAt(s, p, from, from + k) {
      FirstInTail(s, t, p, from, 0, from, from + k);
    }
    if FirstAt(t, p, 0, k) {
      FirstInTail(t, s, p, 0, from, 0, k);
    }
    FirstIsIndex(t, p, k);
  }

  /** A newline-free pattern that a line lacks does not start anywhere in that line. */
  lemma NoneInLine(s: string, p: string, from: nat, to: nat)
    requires NewlineFree(p) && |p| > 0
    requires from <= to < |s| && s[to] == '\n' && !Contains(s[from..to], p)
    ensures NoneIn(s, p, from, to + 1)
  {
    forall i: nat | from <= i < to + 1
      ensures !OccursAt(s, p, i)
    {
      if i + |p| <= to {
        SliceOccurs(s, p, from, to, i);
      } else {
        DiffersAt(s, p, i, to - i);
      }
    }
  }

  /** Nor does it start at line ends. */
  lemma NoneInNewlines(s: string, p: string, from: nat, to: nat)
    requires NewlineFree(p) && |p| > 0 && to <= |s|
    requires forall i :: from <= i < to ==> s[i] == '\n'
    ensures NoneIn(s, p, from, to)
  {
    forall i: nat | from <= i < to
      ensures !OccursAt(s, p, i)
    {
      DiffersAt(s, p, i, 0);
    }
  }
}
