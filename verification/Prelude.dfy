/** Vocabulary shared by the other modules. */
module Prelude {

  datatype Option<+T> = None | Some(value: T)

  /** The outcome of an operation that commits or fails and rolls back. */
  datatype Result<+T, +E> = Ok(value: T) | Err(error: E)

  function Lookup<K, V>(table: map<K, V>, k: K): Option<V> {
    if k in table then Some(table[k]) else None
  }

  /** The characters `strings.TrimSpace` strips (ASCII range). */
  predicate IsSpace(c: char) {
    c == ' ' || c == '\t' || c == '\n' || c == '\r' || c == 11 as char || c == 12 as char
  }

  function TrimLeft(s: string): string {
    if |s| > 0 && IsSpace(s[0]) then TrimLeft(s[1..]) else s
  }

  function TrimRight(s: string): string {
    if |s| > 0 && IsSpace(s[|s| - 1]) then TrimRight(s[..|s| - 1]) else s
  }

  function TrimSpace(s: string): string {
    TrimRight(TrimLeft(s))
  }

  /** Space, tab, the line breaks and the form feeds. */
  predicate White(c: char) {
    c == ' ' || 9 <= c as int <= 13
  }

  predicate Blank(s: string) {
    forall c <- s :: White(c)
  }

  lemma {:induction false} TrimLeftLaw(s: string)
    ensures |TrimLeft(s)| <= |s| && s[|s| - |TrimLeft(s)|..] == TrimLeft(s) && Blank(s[..|s| - |TrimLeft(s)|])
    ensures TrimLeft(s) != "" ==> !White(TrimLeft(s)[0])
  {
    if |s| > 0 && IsSpace(s[0]) {
      TrimLeftLaw(s[1..]);
      var n := |s| - |TrimLeft(s)|;
      assert s[..n] == [s[0]] + s[1..][..n - 1];
    }
  }

  lemma {:induction false} TrimRightLaw(s: string)
    ensures |TrimRight(s)| <= |s| && s[..|TrimRight(s)|] == TrimRight(s) && Blank(s[|TrimRight(s)|..])
    ensures TrimRight(s) != "" ==> !White(TrimRight(s)[|TrimRight(s)| - 1])
  {
    if |s| > 0 && IsSpace(s[|s| - 1]) {
      var before := s[..|s| - 1];
      TrimRightLaw(before);
      assert s[|TrimRight(s)|..] == before[|TrimRight(s)|..] + [s[|s| - 1]];
    }
  }

  /** Trimming takes away white space at both ends and nothing else, and leaves none there. */
  lemma TrimLaw(s: string) returns (head: string, tail: string)
    ensures s == head + TrimSpace(s) + tail && Blank(head) && Blank(tail)
    ensures TrimSpace(s) != "" ==> !White(TrimSpace(s)[0]) && !White(TrimSpace(s)[|TrimSpace(s)| - 1])
  {
    var middle := TrimLeft(s);
    TrimLeftLaw(s);
    TrimRightLaw(middle);
    head, tail := s[..|s| - |middle|], middle[|TrimRight(middle)|..];
    Halves(s, |s| - |middle|);
    Halves(middle, |TrimRight(middle)|);
    assert head + TrimRight(middle) + tail == head + (TrimRight(middle) + tail);
    if TrimRight(middle) != "" {
      assert TrimRight(middle)[0] == middle[..|TrimRight(middle)|][0];
    }
  }

  lemma Halves(s: string, n: nat)
    requires n <= |s|
    ensures s == s[..n] + s[n..]
  {}

  /** ASCII lower case. */
  function ToLower(s: string): (r: string)
    ensures |r| == |s|
  {
    seq(|s|, i requires 0 <= i < |s| => if 'A' <= s[i] <= 'Z' then (s[i] as int + 32) as char else s[i])
  }

  lemma LowerLaw(s: string, i: nat)
    requires i < |s|
    ensures 'A' <= s[i] <= 'Z' ==> ToLower(s)[i] - 'a' == s[i] - 'A'
    ensures !('A' <= s[i] <= 'Z') ==> ToLower(s)[i] == s[i]
    ensures ToLower("AZ") == "az"
  {}

  function Join(parts: seq<string>, separator: string): string {
    if |parts| == 0 then ""
    else if |parts| == 1 then parts[0]
    else Join(parts[..|parts| - 1], separator) + separator + parts[|parts| - 1]
  }

  /** Joining from the front. */
  lemma {:induction false} JoinCons(parts: seq<string>, separator: string)
    requires |parts| > 1
    ensures Join(parts, separator) == parts[0] + separator + Join(parts[1..], separator)
  {
    var before := parts[..|parts| - 1];
    assert parts[1..][..|parts| - 2] == before[1..];
    if |parts| > 2 {
      JoinCons(before, separator);
      var middle, last := Join(before[1..], separator), parts[|parts| - 1];
      assert Join(parts, separator) == parts[0] + separator + middle + separator + last;
      assert parts[0] + separator + middle + separator + last == parts[0] + separator + (middle + separator + last);
    }
  }

  function ToSet<T>(xs: seq<T>): set<T> {
    set x | x in xs
  }

  ghost predicate NoDuplicates<T(!new)>(xs: seq<T>) {
    forall i, j :: 0 <= i < j < |xs| ==> xs[i] != xs[j]
  }

  lemma MultisetInsert<T>(xs: seq<T>, at: nat, x: T)
    requires at <= |xs|
    ensures multiset(xs[..at] + [x] + xs[at..]) == multiset(xs) + multiset{x}
  {
    assert xs == xs[..at] + xs[at..];
  }

  lemma WithoutFirst<T>(xs: seq<T>)
    requires |xs| > 0
    ensures multiset(xs[1..]) == multiset(xs) - multiset{xs[0]}
  {
    assert xs == [xs[0]] + xs[1..];
  }

  /** No element comes before one that stands ahead of it. */
  ghost predicate SortedBy<T(!new)>(before: (T, T) -> bool, xs: seq<T>) {
    forall i, j :: 0 <= i < j < |xs| ==> !before(xs[j], xs[i])
  }

  /** Any two different elements are ordered. */
  ghost predicate TotalOn<T(!new)>(before: (T, T) -> bool, xs: seq<T>) {
    forall x, y :: x in xs && y in xs ==> x == y || before(x, y) || before(y, x)
  }

  /** Then there is one sorted arrangement. */
  lemma {:induction false} SortedByUnique<T(!new)>(before: (T, T) -> bool, a: seq<T>, b: seq<T>)
    requires SortedBy(before, a) && SortedBy(before, b) && TotalOn(before, a) && multiset(a) == multiset(b)
    ensures a == b
    decreases |a|
  {
    assert |multiset(a)| == |a| && |multiset(b)| == |b|;
    if |a| > 0 {
      SameFirstBy(before, a, b);
      WithoutFirst(a);
      WithoutFirst(b);
      SortedByUnique(before, a[1..], b[1..]);
      assert a == [a[0]] + a[1..] && b == [b[0]] + b[1..];
    }
  }

  lemma SameFirstBy<T(!new)>(before: (T, T) -> bool, a: seq<T>, b: seq<T>)
    requires SortedBy(before, a) && SortedBy(before, b) && TotalOn(before, a) && multiset(a) == multiset(b)
    requires |a| > 0 && |b| > 0
    ensures a[0] == b[0]
  {
    assert a[0] in multiset(b) && b[0] in multiset(a);
    var i :| 0 <= i < |a| && a[i] == b[0];
    var j :| 0 <= j < |b| && b[j] == a[0];
    assert a[i] in a && a[0] in a;
    assert i == 0 || !before(a[i], a[0]);
    assert j == 0 || !before(b[j], b[0]);
  }

  ghost function Pick<T>(s: set<T>): (x: T)
    requires |s| > 0
    ensures x in s
  {
    var x :| x in s;
    x
  }

  lemma {:induction false} LeastExists(s: set<int>) returns (k: int)
    requires |s| > 0
    ensures k in s && forall j :: j in s ==> k <= j
  {
    var x := Pick(s);
    k := x;
    var rest := s - {x};
    assert forall j :: j in s ==> j == x || j in rest;
    if |rest| > 0 {
      var least := LeastExists(rest);
      k := if k <= least then k else least;
    }
  }

  ghost function Least(s: set<int>): (k: int)
    requires |s| > 0
    ensures k in s && forall j :: j in s ==> k <= j
  {
    assert exists k :: k in s && forall j :: j in s ==> k <= j by {
      var k := LeastExists(s);
    }
    var k :| k in s && forall j :: j in s ==> k <= j;
    k
  }

  /** Byte-wise string order, as SQL's BINARY collation and Go compare strings. */
  predicate StringLess(a: string, b: string) {
    if |b| == 0 then false
    else if |a| == 0 then true
    else a[0] < b[0] || (a[0] == b[0] && StringLess(a[1..], b[1..]))
  }

  /** One string is a proper prefix of the other, or lower at the first place where they differ. */
  ghost predicate LowerAt(a: string, b: string, k: nat) {
    k <= |a| && k < |b| && a[..k] == b[..k] && (k < |a| ==> a[k] < b[k])
  }

  lemma LowerTail(a: string, b: string, k: nat)
    requires |a| > 0 && |b| > 0 && LowerAt(a, b, k)
    ensures a[0] < b[0] || (a[0] == b[0] && exists j: nat :: LowerAt(a[1..], b[1..], j))
  {
    if k > 0 {
      assert a[..k][0] == b[..k][0];
      assert a[1..][..k - 1] == a[..k][1..] && b[1..][..k - 1] == b[..k][1..];
      assert LowerAt(a[1..], b[1..], k - 1);
    }
  }

  lemma {:induction false} StringLessIff(a: string, b: string)
    ensures StringLess(a, b) <==> exists k: nat :: LowerAt(a, b, k)
  {
    if |a| == 0 || |b| == 0 {
      assert |b| > 0 ==> LowerAt(a, b, 0);
    } else {
      StringLessIff(a[1..], b[1..]);
      if StringLess(a, b) {
        if a[0] < b[0] {
          assert LowerAt(a, b, 0);
        } else {
          var k: nat :| LowerAt(a[1..], b[1..], k);
          assert a[..k + 1] == [a[0]] + a[1..][..k] && b[..k + 1] == [b[0]] + b[1..][..k];
          assert LowerAt(a, b, k + 1);
        }
      }
      if k: nat :| LowerAt(a, b, k) {
        LowerTail(a, b, k);
      }
    }
  }

  lemma {:induction false} StringLessTotal(a: string, b: string)
    ensures StringLess(a, b) || StringLess(b, a) || a == b
  {
    if |a| > 0 && |b| > 0 && a[0] == b[0] {
      StringLessTotal(a[1..], b[1..]);
      assert a == [a[0]] + a[1..] && b == [b[0]] + b[1..];
    }
  }

  lemma {:induction false} StringLessTransitive(a: string, b: string, c: string)
    requires StringLess(a, b) && StringLess(b, c)
    ensures StringLess(a, c)
  {
    if |a| > 0 && a[0] == b[0] == c[0] {
      StringLessTransitive(a[1..], b[1..], c[1..]);
    }
  }

  lemma {:induction false} StringLessIrreflexive(a: string)
    ensures !StringLess(a, a)
  {
    if |a| > 0 {
      StringLessIrreflexive(a[1..]);
    }
  }
}
