/**
  Replacing the text between a begin and an end marker, or appending it, for any pair of markers and any
  replacement that brings its own markers.
 */
module MarkedText {
  import opened Strings

  datatype Marks = Marks(begin: string, end: string)

  /** Replaces from the first begin marker to the first end marker behind it, with its line end; else appends. */
  function Put(existing: string, w: string, mk: Marks): string {
    var start := Index(existing, mk.begin);
    var finish := if start >= 0 then Index(existing[start..], mk.end) else -1;
    if start >= 0 && finish >= 0 then
      var end := start + finish + |mk.end|;
      var next := if end < |existing| && existing[end] == '\n' then end + 1 else end;
      existing[..start] + w + existing[next..]
    else
      Separated(existing) + w
  }

  /** What precedes an appended block: the text, a line end if it lacks one, and a blank line. */
  function Separated(existing: string): string {
    var ended := if existing != "" && existing[|existing| - 1] != '\n' then existing + "\n" else existing;
    if ended != "" then ended + "\n" else ended
  }

  // ---------------------------------------------------------------- where a block is

  predicate Absent(x: string, mk: Marks) {
    Index(x, mk.begin) < 0
  }

  predicate Terminated(x: string, mk: Marks) {
    Index(x, mk.begin) >= 0 && Index(x[Index(x, mk.begin)..], mk.end) >= 0
  }

  function StartOf(x: string, mk: Marks): nat
    requires Terminated(x, mk)
  {
    Index(x, mk.begin)
  }

  /** Where the end marker ends. */
  function EndOf(x: string, mk: Marks): (e: nat)
    requires Terminated(x, mk)
    ensures StartOf(x, mk) <= e <= |x|
  {
    StartOf(x, mk) + Index(x[StartOf(x, mk)..], mk.end) + |mk.end|
  }

  /** The end of the text a replacement removes: past the line end of the end marker, if it has one. */
  function After(x: string, e: nat): nat {
    if e < |x| && x[e] == '\n' then e + 1 else e
  }

  /** The managed block as a reader of the file finds it. */
  function BlockText(x: string, mk: Marks): string
    requires Terminated(x, mk)
  {
    x[StartOf(x, mk)..EndOf(x, mk)]
  }

  /** The first begin marker and the first end marker behind it. */
  ghost predicate BlockAt(x: string, mk: Marks, s: nat, e: nat) {
    FirstAt(x, mk.begin, 0, s) && e >= |mk.end| && FirstAt(x, mk.end, s, e - |mk.end|)
  }

  lemma BlockAtIff(x: string, mk: Marks, s: nat, e: nat)
    ensures BlockAt(x, mk, s, e) <==> Terminated(x, mk) && StartOf(x, mk) == s && EndOf(x, mk) == e
  {
    FirstIsIndex(x, mk.begin, s);
    if FirstAt(x, mk.begin, 0, s) && e >= s + |mk.end| {
      SuffixIndex(x, mk.end, s, e - s - |mk.end|);
    }
  }

  lemma PutReplaces(x: string, w: string, mk: Marks, s: nat, e: nat)
    requires BlockAt(x, mk, s, e)
    ensures s <= e <= After(x, e) <= |x|
    ensures Put(x, w, mk) == x[..s] + w + x[After(x, e)..]
  {
    BlockAtIff(x, mk, s, e);
  }

  lemma PutAppends(x: string, w: string, mk: Marks)
    requires !Terminated(x, mk)
    ensures Put(x, w, mk) == Separated(x) + w
  {}

  lemma ReplacedText(y: string, c: string, m: Marks, s: nat, e: nat, head: string, tail: string)
    requires BlockAt(y, m, s, e) && s <= |y| && y[..s] == head
    requires After(y, e) <= |y| && y[After(y, e)..] == tail
    ensures Put(y, c, m) == head + c + tail
  {
    PutReplaces(y, c, m, s, e);
  }

  // ---------------------------------------------------------------- markers and replacements

  /** Markers lie in one line, and an end marker is not part of its begin marker. */
  ghost predicate LineMarks(mk: Marks) {
    NewlineFree(mk.begin) && NewlineFree(mk.end) && |mk.begin| > 0 && |mk.end| > 0 && mk.begin[0] != '\n' &&
    !Contains(mk.begin, mk.end)
  }

  /** A replacement opens with the begin marker and its first end marker is its last line. */
  ghost predicate Closes(w: string, mk: Marks) {
    |w| > |mk.end| && w[|w| - 1] == '\n' && |mk.begin| < |w| && w[..|mk.begin|] == mk.begin &&
    FirstAt(w, mk.end, 0, |w| - 1 - |mk.end|)
  }

  /** A pattern found within an occurrence of a text is found in the text. */
  lemma FoundInside(x: string, b: string, p: string, s: nat, k: nat)
    requires OccursAt(x, b, s) && OccursAt(x, p, k) && s <= k && k + |p| <= s + |b|
    ensures Contains(b, p)
  {
    SliceOccurs(x, p, s, s + |b|, k);
  }

  /** The end marker is found behind the begin marker, not inside it. */
  lemma BeginFits(x: string, mk: Marks, s: nat, e: nat)
    requires LineMarks(mk) && BlockAt(x, mk, s, e)
    ensures s + |mk.begin| < e <= |x|
  {
    if e <= s + |mk.begin| {
      FoundInside(x, mk.begin, mk.end, s, e - |mk.end|);
    }
  }

  ghost predicate Holds(y: string, s: nat, w: string) {
    s + |w| <= |y| && y[s..s + |w|] == w
  }

  lemma HoldsMiddle(before: string, w: string, rest: string)
    ensures Holds(before + w + rest, |before|, w)
  {}

  lemma HoldsChar(y: string, s: nat, w: string, j: nat)
    requires Holds(y, s, w) && j < |w|
    ensures y[s + j] == w[j]
  {
    assert y[s..s + |w|][j] == y[s + j];
  }

  lemma HeldOccurs(y: string, s: nat, w: string, p: string, i: nat)
    requires Holds(y, s, w) && i + |p| <= |w|
    ensures OccursAt(y, p, s + i) <==> OccursAt(w, p, i)
  {
    SliceOccurs(y, p, s, s + |w|, s + i);
  }

  lemma HeldFirst(y: string, s: nat, w: string, p: string, k: nat)
    requires Holds(y, s, w) && FirstAt(w, p, 0, k)
    ensures FirstAt(y, p, s, s + k)
  {
    HeldOccurs(y, s, w, p, k);
    forall i: nat | s <= i < s + k
      ensures !OccursAt(y, p, i)
    {
      HeldOccurs(y, s, w, p, i - s);
    }
  }

  lemma HeldNone(y: string, s: nat, w: string, p: string)
    requires Holds(y, s, w) && |w| > 0 && w[|w| - 1] == '\n' && NewlineFree(p) && |p| > 0 && !Contains(w, p)
    ensures NoneIn(y, p, s, s + |w|)
  {
    HoldsChar(y, s, w, |w| - 1);
    forall i: nat | s <= i < s + |w|
      ensures !OccursAt(y, p, i)
    {
      if i + |p| <= s + |w| {
        HeldOccurs(y, s, w, p, i - s);
      } else {
        DiffersAt(y, p, i, s + |w| - 1 - i);
      }
    }
  }

  /** A closing replacement is found as a block wherever its begin marker is the first one. */
  lemma HeldBlock(y: string, s: nat, w: string, mk: Marks)
    requires Holds(y, s, w) && Closes(w, mk) && NoneIn(y, mk.begin, 0, s)
    ensures BlockAt(y, mk, s, s + |w| - 1) && After(y, s + |w| - 1) == s + |w|
  {
    HeldFirst(y, s, w, mk.end, |w| - 1 - |mk.end|);
    HoldsChar(y, s, w, |w| - 1);
    SliceOfSlice(y, s, s + |w|, s, |mk.begin|);
  }

  // ---------------------------------------------------------------- appending

  lemma SeparatedShape(x: string)
    ensures |x| <= |Separated(x)| && Separated(x)[..|x|] == x
    ensures forall i :: |x| <= i < |Separated(x)| ==> Separated(x)[i] == '\n'
    ensures x != "" ==> |x| < |Separated(x)|
    ensures x == "" ==> Separated(x) == ""
  {}

  lemma AppendedShape(x: string, w: string)
    ensures |x| <= |Separated(x)| && (Separated(x) + w)[..|x|] == x && Holds(Separated(x) + w, |Separated(x)|, w)
    ensures forall i :: |x| <= i < |Separated(x)| ==> (Separated(x) + w)[i] == '\n'
    ensures x != "" ==> |x| < |Separated(x)|
    ensures x == "" ==> Separated(x) == ""
  {
    SeparatedShape(x);
  }

  /** A newline-free pattern missing from the old text does not start before the appended block. */
  lemma NoneInSeparated(x: string, y: string, sep: nat, p: string, from: nat)
    requires NewlineFree(p) && |p| > 0 && from <= |x| && NoneIn(x, p, from, |x| + 1)
    requires |x| <= sep <= |y| && y[..|x|] == x && (|x| < sep || (x == "" && sep == 0))
    requires forall i :: |x| <= i < sep ==> y[i] == '\n'
    ensures NoneIn(y, p, from, sep)
  {
    NoneInNewlines(y, p, |x|, sep);
    assert x[..|x|] == x;
    forall i: nat | from <= i < |x|
      ensures !OccursAt(y, p, i)
    {
      if i + |p| <= |x| {
        HeadOccurs(x, y, p, |x|, i);
      } else {
        DiffersAt(y, p, i, |x| - i);
      }
    }
  }

  // ---------------------------------------------------------------- reading back what was written

  /** The text holds the replacement, and it is the block a reader finds. */
  ghost predicate Written(y: string, w: string, mk: Marks, s: nat) {
    |w| > 0 && Holds(y, s, w) && BlockAt(y, mk, s, s + |w| - 1) && After(y, s + |w| - 1) == s + |w|
  }

  lemma AppendedIn(x: string, y: string, sep: nat, w: string, mk: Marks)
    requires LineMarks(mk) && Closes(w, mk) && NoneIn(x, mk.begin, 0, |x| + 1)
    requires |x| <= sep <= |y| && y[..|x|] == x && (|x| < sep || (x == "" && sep == 0))
    requires (forall i :: |x| <= i < sep ==> y[i] == '\n') && Holds(y, sep, w)
    ensures Written(y, w, mk, sep)
  {
    NoneInSeparated(x, y, sep, mk.begin, 0);
    HeldBlock(y, sep, w, mk);
  }

  lemma AppendedAt(x: string, w: string, mk: Marks)
    requires LineMarks(mk) && Closes(w, mk) && Absent(x, mk)
    ensures Written(Put(x, w, mk), w, mk, |Separated(x)|)
  {
    PutAppends(x, w, mk);
    AppendedShape(x, w);
    AppendedIn(x, Separated(x) + w, |Separated(x)|, w, mk);
  }

  lemma ReplacedShape(x: string, w: string, mk: Marks, s: nat, e: nat)
    requires BlockAt(x, mk, s, e)
    ensures var y, f := Put(x, w, mk), After(x, e);
            s <= e <= f <= |x| && Holds(y, s, w) && y[..s] == x[..s] && y[s + |w|..] == x[f..]
  {
    PutReplaces(x, w, mk, s, e);
    HoldsMiddle(x[..s], w, x[After(x, e)..]);
  }

  /** Old and new text agree up to the end of the begin marker. */
  lemma SharedHead(x: string, y: string, w: string, mk: Marks, s: nat)
    requires Closes(w, mk) && OccursAt(x, mk.begin, s) && Holds(y, s, w) && y[..s] == x[..s]
    ensures s + |mk.begin| <= |x| && s + |mk.begin| < |y| && x[..s + |mk.begin|] == y[..s + |mk.begin|]
  {
    var b := mk.begin;
    SliceOfSlice(y, s, s + |w|, s, |b|);
    assert x[..s + |b|] == x[..s] + x[s..s + |b|];
    assert y[..s + |b|] == y[..s] + y[s..s + |b|];
  }

  lemma ReplacedAt(x: string, w: string, mk: Marks, s: nat, e: nat)
    requires Closes(w, mk) && BlockAt(x, mk, s, e)
    ensures Written(Put(x, w, mk), w, mk, s)
  {
    var y := Put(x, w, mk);
    ReplacedShape(x, w, mk, s, e);
    SharedHead(x, y, w, mk, s);
    FirstInHead(x, y, mk.begin, s + |mk.begin|, 0, s);
    HeldBlock(y, s, w, mk);
  }

  function TargetOf(x: string, mk: Marks): nat {
    if Terminated(x, mk) then StartOf(x, mk) else |Separated(x)|
  }

  /** Where the written block is found again: where the old one was, or behind the old text. */
  lemma WrittenAt(x: string, w: string, mk: Marks)
    requires LineMarks(mk) && Closes(w, mk) && (Absent(x, mk) || Terminated(x, mk))
    ensures Written(Put(x, w, mk), w, mk, TargetOf(x, mk))
  {
    if Terminated(x, mk) {
      BlockAtIff(x, mk, StartOf(x, mk), EndOf(x, mk));
      ReplacedAt(x, w, mk, StartOf(x, mk), EndOf(x, mk));
    } else {
      AppendedAt(x, w, mk);
    }
  }

  lemma TextOf(y: string, w: string, mk: Marks, s: nat)
    requires Written(y, w, mk, s) && w[|w| - 1] == '\n'
    ensures Terminated(y, mk) && BlockText(y, mk) + "\n" == w
  {
    BlockAtIff(y, mk, s, s + |w| - 1);
    HoldsChar(y, s, w, |w| - 1);
    assert y[s..s + |w|] == y[s..s + |w| - 1] + [y[s + |w| - 1]];
  }

  /** What was written is what a reader finds. */
  lemma PutThenRead(x: string, w: string, mk: Marks)
    requires LineMarks(mk) && Closes(w, mk) && (Absent(x, mk) || Terminated(x, mk))
    ensures Terminated(Put(x, w, mk), mk)
    ensures BlockText(Put(x, w, mk), mk) + "\n" == w
  {
    WrittenAt(x, w, mk);
    TextOf(Put(x, w, mk), w, mk, TargetOf(x, mk));
  }

  /** Text before and behind the replaced block is kept. */
  lemma OutsideKept(x: string, w: string, mk: Marks)
    requires Closes(w, mk) && Terminated(x, mk)
    ensures var y := Put(x, w, mk);
            Terminated(y, mk) && StartOf(y, mk) == StartOf(x, mk) && y[..StartOf(y, mk)] == x[..StartOf(x, mk)] &&
            After(y, EndOf(y, mk)) <= |y| && y[After(y, EndOf(y, mk))..] == x[After(x, EndOf(x, mk))..]
  {
    var s, e := StartOf(x, mk), EndOf(x, mk);
    BlockAtIff(x, mk, s, e);
    ReplacedShape(x, w, mk, s, e);
    ReplacedAt(x, w, mk, s, e);
    OutsideOf(x, Put(x, w, mk), w, mk, s, After(x, e));
  }

  lemma OutsideOf(x: string, y: string, w: string, mk: Marks, s: nat, f: nat)
    requires Written(y, w, mk, s) && s <= |x| && f <= |x| && y[..s] == x[..s] && y[s + |w|..] == x[f..]
    ensures Terminated(y, mk) && StartOf(y, mk) == s && After(y, EndOf(y, mk)) == s + |w| <= |y|
  {
    BlockAtIff(y, mk, s, s + |w| - 1);
  }

  // ---------------------------------------------------------------- idempotence

  lemma Reassembled(y: string, s: nat, w: string)
    requires Holds(y, s, w)
    ensures y[..s] + w + y[s + |w|..] == y
  {}

  lemma BlockFits(y: string, mk: Marks, s: nat, e: nat)
    requires BlockAt(y, mk, s, e)
    ensures s <= e <= |y|
  {}

  lemma PutSame(y: string, w: string, mk: Marks, s: nat)
    requires Written(y, w, mk, s)
    ensures Put(y, w, mk) == y
  {
    Reassembled(y, s, w);
    BlockFits(y, mk, s, s + |w| - 1);
    ReplacedText(y, w, mk, s, s + |w| - 1, y[..s], y[s + |w|..]);
  }

  lemma PutAgain(x: string, w: string, mk: Marks)
    requires LineMarks(mk) && Closes(w, mk) && (Absent(x, mk) || Terminated(x, mk))
    ensures Put(Put(x, w, mk), w, mk) == Put(x, w, mk)
  {
    WrittenAt(x, w, mk);
    PutSame(Put(x, w, mk), w, mk, TargetOf(x, mk));
  }

  lemma NoEndBehind(x: string, mk: Marks, s: nat)
    requires Index(x, mk.begin) == s && !Terminated(x, mk)
    ensures NoneIn(x, mk.end, s, |x| + 1)
  {
    var tail := x[s..];
    assert tail[0..] == x[s..];
    forall i: nat | s <= i < |x| + 1
      ensures !OccursAt(x, mk.end, i)
    {
      TailOccurs(x, tail, mk.end, s, 0, i);
    }
  }

  /** A begin marker that was never ended is ended by the appended block. */
  lemma AppendedEnds(x: string, w: string, mk: Marks, s: nat)
    requires LineMarks(mk) && Closes(w, mk) && Index(x, mk.begin) == s && !Terminated(x, mk)
    ensures var y := Put(x, w, mk);
            s < |x| < |y| - |w| && BlockAt(y, mk, s, |y| - 1) && After(y, |y| - 1) == |y|
  {
    var y, sep := Put(x, w, mk), |Separated(x)|;
    PutAppends(x, w, mk);
    AppendedShape(x, w);
    NoEndBehind(x, mk, s);
    NoneInSeparated(x, y, sep, mk.end, s);
    HeldFirst(y, sep, w, mk.end, |w| - 1 - |mk.end|);
    HoldsChar(y, sep, w, |w| - 1);
    assert x[..|x|] == x;
    FirstInHead(x, y, mk.begin, |x|, 0, s);
  }

  /** Then a second upsert removes everything from that marker on. */
  lemma UnterminatedShrinks(x: string, w: string, mk: Marks)
    requires LineMarks(mk) && Closes(w, mk) && !Absent(x, mk) && !Terminated(x, mk)
    ensures |Put(Put(x, w, mk), w, mk)| < |Put(x, w, mk)|
  {
    var y, s := Put(x, w, mk), Index(x, mk.begin);
    AppendedEnds(x, w, mk, s);
    PutReplaces(y, w, mk, s, |y| - 1);
  }

  // ---------------------------------------------------------------- other blocks

  /** The two blocks do not overlap. */
  predicate Apart(x: string, n: Marks, m: Marks)
    requires Terminated(x, n) && Terminated(x, m)
  {
    EndOf(x, n) <= StartOf(x, m) || EndOf(x, m) <= StartOf(x, n)
  }

  /** A block is found again in any text that agrees up to its end. */
  lemma BlockInHead(x: string, y: string, mk: Marks, s: nat, e: nat)
    requires LineMarks(mk) && BlockAt(x, mk, s, e) && e <= |y| && e <= |x| && x[..e] == y[..e]
    ensures BlockAt(y, mk, s, e)
  {
    BeginFits(x, mk, s, e);
    FirstInHead(x, y, mk.begin, e, 0, s);
    FirstInHead(x, y, mk.end, e, s, e - |mk.end|);
  }

  /** No other begin marker starts before a replaced block, if none did before. */
  lemma NoneBeforeReplaced(x: string, y: string, w: string, n: Marks, p: string, s: nat, k: nat)
    requires Closes(w, n) && |n.begin| < |w| && w[|n.begin|] == '\n'
    requires NewlineFree(p) && |p| > 0 && NoneIn(x, p, 0, k) && s <= k
    requires OccursAt(x, n.begin, s) && Holds(y, s, w) && y[..s] == x[..s]
    ensures NoneIn(y, p, 0, s)
  {
    var cut := s + |n.begin|;
    SharedHead(x, y, w, n, s);
    HoldsChar(y, s, w, |n.begin|);
    forall i: nat | i < s
      ensures !OccursAt(y, p, i)
    {
      if i + |p| <= cut {
        HeadOccurs(x, y, p, cut, i);
      } else {
        DiffersAt(y, p, i, cut - i);
      }
    }
  }

  /** Where a replaced block leaves a later one. */
  lemma LaterBlockMoves(x: string, y: string, w: string, n: Marks, m: Marks, sn: nat, f: nat, sm: nat, em: nat)
    requires LineMarks(m) && Closes(w, n) && w[|n.begin|] == '\n' && !Contains(w, m.begin)
    requires OccursAt(x, n.begin, sn) && sn <= f <= sm && BlockAt(x, m, sm, em)
    requires Holds(y, sn, w) && y[..sn] == x[..sn] && f <= |x| && y[sn + |w|..] == x[f..]
    ensures BlockAt(y, m, sm - f + sn + |w|, em - f + sn + |w|)
  {
    var to := sn + |w|;
    BeginFits(x, m, sm, em);
    NoneBeforeReplaced(x, y, w, n, m.begin, sn, sm);
    HeldNone(y, sn, w, m.begin);
    FirstInTail(x, y, m.begin, f, to, f, sm);
    FirstInTail(x, y, m.end, f, to, sm, em - |m.end|);
  }

  /** The replaced text ends before a later begin marker. */
  lemma AfterStops(x: string, m: Marks, en: nat, sm: nat)
    requires LineMarks(m) && OccursAt(x, m.begin, sm) && en <= sm
    ensures en <= After(x, en) <= sm && x[sm] == m.begin[0] != '\n'
  {
    OccursChar(x, m.begin, sm, 0);
  }

  /** A replacement with a begin line of its own that does not hold another begin marker. */
  ghost predicate Avoids(w: string, n: Marks, m: Marks) {
    Closes(w, n) && w[|n.begin|] == '\n' && !Contains(w, m.begin)
  }

  lemma LaterIntact(x: string, w: string, n: Marks, m: Marks)
    requires LineMarks(m) && Avoids(w, n, m)
    requires Terminated(x, n) && Terminated(x, m) && EndOf(x, n) <= StartOf(x, m)
    ensures Terminated(Put(x, w, n), m)
    ensures BlockText(Put(x, w, n), m) == BlockText(x, m)
  {
    var sn, en, sm, em := StartOf(x, n), EndOf(x, n), StartOf(x, m), EndOf(x, m);
    BlockAtIff(x, m, sm, em);
    BlockAtIff(x, n, sn, en);
    AfterStops(x, m, en, sm);
    ReplacedShape(x, w, n, sn, en);
    StillRead(x, Put(x, w, n), w, n, m, sn, After(x, en), sm, em);
  }

  lemma StillRead(x: string, y: string, w: string, n: Marks, m: Marks, sn: nat, f: nat, sm: nat, em: nat)
    requires LineMarks(m) && Avoids(w, n, m)
    requires OccursAt(x, n.begin, sn) && sn <= f <= sm && BlockAt(x, m, sm, em)
    requires Holds(y, sn, w) && y[..sn] == x[..sn] && f <= |x| && y[sn + |w|..] == x[f..]
    ensures Terminated(x, m) && Terminated(y, m) && BlockText(y, m) == BlockText(x, m)
  {
    LaterBlockMoves(x, y, w, n, m, sn, f, sm, em);
    BeginFits(x, m, sm, em);
    MovedText(x, y, m, f, sn + |w|, sm, em);
  }

  lemma MovedText(x: string, y: string, m: Marks, f: nat, to: nat, sm: nat, em: nat)
    requires f <= sm && f <= |x| && to <= |y| && x[f..] == y[to..]
    requires BlockAt(x, m, sm, em) && sm <= em <= |x| && BlockAt(y, m, sm - f + to, em - f + to)
    ensures Terminated(x, m) && Terminated(y, m) && BlockText(y, m) == BlockText(x, m)
  {
    BlockAtIff(x, m, sm, em);
    BlockAtIff(y, m, sm - f + to, em - f + to);
    TailSlices(x, y, f, to, sm, em);
  }

  lemma TailSlices(x: string, y: string, f: nat, to: nat, i: nat, j: nat)
    requires f <= i <= j <= |x| && to <= |y| && x[f..] == y[to..]
    ensures j - f + to <= |y| && x[i..j] == y[i - f + to..j - f + to]
  {
    assert |x| - f == |y| - to;
    forall k | 0 <= k < j - i
      ensures x[i..j][k] == y[i - f + to..j - f + to][k]
    {
      assert x[f..][i - f + k] == y[to..][i - f + k];
    }
  }

  /** The text before a replaced block, or all of it when the block is appended, is kept. */
  lemma HeadKept(x: string, w: string, n: Marks, to: nat)
    requires to <= |x| && (Terminated(x, n) ==> to <= StartOf(x, n))
    ensures to <= |Put(x, w, n)| && x[..to] == Put(x, w, n)[..to]
  {
    if Terminated(x, n) {
      BlockAtIff(x, n, StartOf(x, n), EndOf(x, n));
      PutReplaces(x, w, n, StartOf(x, n), EndOf(x, n));
    } else {
      var y := Put(x, w, n);
      PutAppends(x, w, n);
      AppendedShape(x, w);
      assert y[..to] == y[..|x|][..to];
    }
  }

  lemma EarlierIntact(x: string, w: string, n: Marks, m: Marks)
    requires LineMarks(m) && Terminated(x, m) && (Terminated(x, n) ==> EndOf(x, m) <= StartOf(x, n))
    ensures Terminated(Put(x, w, n), m)
    ensures BlockText(Put(x, w, n), m) == BlockText(x, m)
  {
    var y, sm, em := Put(x, w, n), StartOf(x, m), EndOf(x, m);
    BlockAtIff(x, m, sm, em);
    HeadKept(x, w, n, em);
    BlockInHead(x, y, m, sm, em);
    BlockAtIff(y, m, sm, em);
    assert x[sm..em] == x[..em][sm..];
    assert y[sm..em] == y[..em][sm..];
  }

  /** A replaced block takes every other begin marker inside it along. */
  lemma NestedLost(x: string, w: string, n: Marks, m: Marks)
    requires LineMarks(m) && Avoids(w, n, m) && Terminated(x, n) && Terminated(x, m)
    requires StartOf(x, n) <= StartOf(x, m) && EndOf(x, m) <= EndOf(x, n)
    requires NoneIn(x, m.begin, EndOf(x, n), |x| + 1)
    ensures Absent(Put(x, w, n), m)
  {
    var sn, en := StartOf(x, n), EndOf(x, n);
    BlockAtIff(x, n, sn, en);
    BlockAtIff(x, m, StartOf(x, m), EndOf(x, m));
    ReplacedShape(x, w, n, sn, en);
    NothingLeft(x, Put(x, w, n), w, n, m.begin, sn, After(x, en), StartOf(x, m));
  }

  lemma NothingLeft(x: string, y: string, w: string, n: Marks, p: string, sn: nat, f: nat, k: nat)
    requires NewlineFree(p) && |p| > 0 && Closes(w, n) && w[|n.begin|] == '\n' && !Contains(w, p)
    requires OccursAt(x, n.begin, sn) && NoneIn(x, p, 0, k) && sn <= k && f <= |x| && NoneIn(x, p, f, |x| + 1)
    requires Holds(y, sn, w) && y[..sn] == x[..sn] && y[sn + |w|..] == x[f..]
    ensures NoneIn(y, p, 0, |y| + 1) && Index(y, p) < 0
  {
    NoneBeforeReplaced(x, y, w, n, p, sn, k);
    HeldNone(y, sn, w, p);
    assert |y| - (sn + |w|) == |x| - f;
    forall i: nat | sn + |w| <= i < |y| + 1
      ensures !OccursAt(y, p, i)
    {
      TailOccurs(y, x, p, sn + |w|, f, i);
    }
  }

  /** Rewriting a block just appended leaves nothing of another marker that only its text brought in. */
  lemma RewrittenText(x: string, w: string, v: string, n: Marks, m: Marks)
    requires LineMarks(n) && LineMarks(m) && Closes(w, n) && Avoids(v, n, m) && Absent(x, n) && Absent(x, m)
    ensures Absent(Put(Put(x, w, n), v, n), m)
  {
    AppendedAt(x, w, n);
    var y, s := Put(x, w, n), |Separated(x)|;
    PutReplaces(y, v, n, s, s + |w| - 1);
    PutAppends(x, w, n);
    assert y[..s] == Separated(x) && y[s + |w|..] == "";
    assert Put(y, v, n) == Separated(x) + v + "";
    assert Separated(x) + v + "" == Separated(x) + v;
    AppendedShape(x, v);
    NoneInSeparated(x, Separated(x) + v, s, m.begin, 0);
    HeldNone(Separated(x) + v, s, v, m.begin);
  }

  // ---------------------------------------------------------------- two replacements

  lemma AfterInTail(x: string, y: string, f: nat, to: nat, e: nat)
    requires f <= e <= |x| && to <= |y| && x[f..] == y[to..]
    ensures After(y, e - f + to) <= |y| && After(x, e) <= |x|
    ensures y[After(y, e - f + to)..] == x[After(x, e)..]
  {
    assert |x| - f == |y| - to;
    assert e < |x| ==> x[e] == x[f..][e - f] && y[e - f + to] == y[to..][e - f];
    var k := After(x, e) - f;
    assert x[f + k..] == x[f..][k..];
    assert y[to + k..] == y[to..][k..];
  }

  ghost predicate TwoBlocks(x: string, n: Marks, m: Marks, sn: nat, en: nat, sm: nat, em: nat) {
    BlockAt(x, n, sn, en) && BlockAt(x, m, sm, em) && en <= sm
  }

  lemma TwoBlocksBounds(x: string, n: Marks, m: Marks, sn: nat, en: nat, sm: nat, em: nat)
    requires LineMarks(m) && TwoBlocks(x, n, m, sn, en, sm, em)
    ensures sn <= en <= After(x, en) <= sm <= em <= After(x, em) <= |x|
  {
    AfterStops(x, m, en, sm);
  }

  /** Both replaced. */
  ghost function Both(x: string, b: string, c: string, sn: nat, fn: nat, sm: nat, fm: nat): string
    requires sn <= fn <= sm <= fm <= |x|
  {
    x[..sn] + b + x[fn..sm] + c + x[fm..]
  }

  lemma EarlierFirst(x: string, b: string, n: Marks, c: string, m: Marks, sn: nat, en: nat, sm: nat, em: nat)
    requires LineMarks(m) && Avoids(b, n, m) && TwoBlocks(x, n, m, sn, en, sm, em)
    ensures sn <= After(x, en) <= sm <= After(x, em) <= |x|
    ensures Put(Put(x, b, n), c, m) == Both(x, b, c, sn, After(x, en), sm, After(x, em))
  {
    var y, f := Put(x, b, n), After(x, en);
    TwoBlocksBounds(x, n, m, sn, en, sm, em);
    ReplacedShape(x, b, n, sn, en);
    LaterBlockMoves(x, y, b, n, m, sn, f, sm, em);
    ThenLater(x, y, b, c, m, sn, f, sm, em);
  }

  /** Replacing the moved block in a text whose earlier block is replaced already. */
  lemma ThenLater(x: string, y: string, b: string, c: string, m: Marks, sn: nat, f: nat, sm: nat, em: nat)
    requires sn <= f <= sm <= em <= |x| && Holds(y, sn, b) && y[..sn] == x[..sn] && y[sn + |b|..] == x[f..]
    requires BlockAt(y, m, sm - f + sn + |b|, em - f + sn + |b|)
    ensures After(x, em) <= |x|
    ensures Put(y, c, m) == Both(x, b, c, sn, f, sm, After(x, em))
  {
    AfterInTail(x, y, f, sn + |b|, em);
    HeadOfReplaced(x, y, b, sn, f, sm);
    ReplacedText(y, c, m, sm - f + sn + |b|, em - f + sn + |b|, x[..sn] + b + x[f..sm], x[After(x, em)..]);
  }

  lemma HeadOfReplaced(x: string, y: string, b: string, sn: nat, f: nat, sm: nat)
    requires sn <= f <= sm <= |x| && Holds(y, sn, b) && y[..sn] == x[..sn] && y[sn + |b|..] == x[f..]
    ensures var moved := sm - f + sn + |b|; moved <= |y| && y[..moved] == x[..sn] + b + x[f..sm]
  {
    var to, moved := sn + |b|, sm - f + sn + |b|;
    TailSlices(x, y, f, to, f, sm);
    assert y[..moved] == y[..sn] + y[sn..to] + y[to..moved];
  }

  lemma LaterFirst(x: string, b: string, n: Marks, c: string, m: Marks, sn: nat, en: nat, sm: nat, em: nat)
    requires LineMarks(n) && LineMarks(m) && Closes(c, m) && TwoBlocks(x, n, m, sn, en, sm, em)
    ensures sn <= After(x, en) <= sm <= After(x, em) <= |x|
    ensures Put(Put(x, c, m), b, n) == Both(x, b, c, sn, After(x, en), sm, After(x, em))
  {
    var y := Put(x, c, m);
    TwoBlocksBounds(x, n, m, sn, en, sm, em);
    ReplacedShape(x, c, m, sm, em);
    HeadOfHead(x, y, sm, en);
    BlockInHead(x, y, n, sn, en);
    SameAfter(x, y, c, m, en, sm);
    ThenEarlier(x, y, b, c, n, sn, en, sm, After(x, em));
  }

  lemma HeadOfHead(x: string, y: string, n: nat, k: nat)
    requires k <= n <= |x| && n <= |y| && y[..n] == x[..n]
    ensures y[..k] == x[..k]
  {
    assert x[..k] == x[..n][..k] && y[..k] == y[..n][..k];
  }

  /** Replacing the earlier block in a text whose later block is replaced already. */
  lemma ThenEarlier(x: string, y: string, b: string, c: string, n: Marks, sn: nat, en: nat, sm: nat, fm: nat)
    requires sn <= en <= After(x, en) <= sm <= fm <= |x| && After(y, en) == After(x, en)
    requires Holds(y, sm, c) && y[..sm] == x[..sm] && y[sm + |c|..] == x[fm..]
    requires BlockAt(y, n, sn, en)
    ensures Put(y, b, n) == Both(x, b, c, sn, After(x, en), sm, fm)
  {
    var f := After(x, en);
    PutReplaces(y, b, n, sn, en);
    HeadOfHead(x, y, sm, sn);
    TailSplit(x, y, c, f, sm, fm);
    assert Both(x, b, c, sn, f, sm, fm) == x[..sn] + b + (x[f..sm] + c + x[fm..]);
  }

  lemma TailSplit(x: string, y: string, c: string, f: nat, sm: nat, fm: nat)
    requires f <= sm <= fm <= |x| && Holds(y, sm, c) && y[..sm] == x[..sm] && y[sm + |c|..] == x[fm..]
    ensures y[f..] == x[f..sm] + c + x[fm..]
  {
    assert y[f..sm] == y[..sm][f..] && x[f..sm] == x[..sm][f..];
    assert y[f..] == y[f..sm] + y[sm..sm + |c|] + y[sm + |c|..];
  }

  lemma SameAfter(x: string, y: string, c: string, m: Marks, en: nat, sm: nat)
    requires LineMarks(m) && Closes(c, m) && OccursAt(x, m.begin, sm) && en <= sm
    requires Holds(y, sm, c) && y[..sm] == x[..sm]
    ensures After(y, en) == After(x, en)
  {
    AfterStops(x, m, en, sm);
    HoldsChar(y, sm, c, 0);
    assert c[0] == c[..|m.begin|][0];
    assert en < sm ==> y[en] == y[..sm][en] && x[en] == x[..sm][en];
  }

  /** Replacing two blocks gives the same text in either order. */
  lemma OrderedPutsCommute(x: string, b: string, n: Marks, c: string, m: Marks)
    requires LineMarks(n) && LineMarks(m) && Avoids(b, n, m) && Closes(c, m)
    requires Terminated(x, n) && Terminated(x, m) && EndOf(x, n) <= StartOf(x, m)
    ensures Put(Put(x, b, n), c, m) == Put(Put(x, c, m), b, n)
  {
    var sn, en, sm, em := StartOf(x, n), EndOf(x, n), StartOf(x, m), EndOf(x, m);
    BlockAtIff(x, n, sn, en);
    BlockAtIff(x, m, sm, em);
    EarlierFirst(x, b, n, c, m, sn, en, sm, em);
    LaterFirst(x, b, n, c, m, sn, en, sm, em);
  }

  // ---------------------------------------------------------------- names

  /** Appending a replacement brings in another begin marker exactly when it holds one. */
  lemma AppendBrings(x: string, w: string, n: Marks, m: Marks)
    requires LineMarks(m) && Closes(w, n) && !Terminated(x, n) && Absent(x, m)
    ensures Absent(Put(x, w, n), m) <==> !Contains(w, m.begin)
  {
    var y, sep, p := Put(x, w, n), |Separated(x)|, m.begin;
    PutAppends(x, w, n);
    AppendedShape(x, w);
    if Contains(w, p) {
      HeldFirst(y, sep, w, p, Index(w, p));
    } else {
      NoneInSeparated(x, y, sep, p, 0);
      HeldNone(y, sep, w, p);
    }
  }

  /** Two blocks written into a text without them are both found, apart, if the first does not hold the second marker. */
  lemma TwoWritten(x: string, b: string, n: Marks, c: string, m: Marks)
    requires LineMarks(n) && LineMarks(m) && Closes(b, n) && Closes(c, m) && !Contains(b, m.begin)
    requires Absent(x, n) && Absent(x, m)
    ensures var y := Put(Put(x, b, n), c, m); Terminated(y, n) && Terminated(y, m) && Apart(y, n, m)
  {
    var once, s := Put(x, b, n), |Separated(x)|;
    var y, e := Put(once, c, m), s + |b| - 1;
    AppendedAt(x, b, n);
    AppendBrings(x, b, n, m);
    AppendedAt(once, c, m);
    HeadKept(once, c, m, e);
    BlockInHead(once, y, n, s, e);
    BlockAtIff(y, n, s, e);
    SeparatedShape(once);
    BlockAtIff(y, m, |Separated(once)|, |Separated(once)| + |c| - 1);
  }
}
