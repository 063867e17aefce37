/**
  The managed-block upsert of client configuration files, and what a maintainer may rely on: when it is
  idempotent, what it leaves alone, when two upserts commute, and which names get in each other's way.
 */
module ManagedBlock {
  import opened Strings
  import opened MarkedText

  const BEGIN_PREFIX := "# BEGIN managed by cam: "
  const END_PREFIX := "# END managed by cam: "

  function Named(name: string): Marks {
    Marks(BEGIN_PREFIX + name, END_PREFIX + name)
  }

  function TrimNewlines(block: string): string {
    if |block| > 0 && block[|block| - 1] == '\n' then TrimNewlines(block[..|block| - 1]) else block
  }

  /** Three lines: the begin marker, the block without trailing newlines, the end marker. */
  function Lines(begin: string, block: string, end: string): string {
    begin + "\n" + block + "\n" + end + "\n"
  }

  function Wrapped(block: string, name: string): string {
    Lines(Named(name).begin, TrimNewlines(block), Named(name).end)
  }

  function Upsert(existing: string, block: string, name: string): string {
    Put(existing, Wrapped(block, name), Named(name))
  }

  // ---------------------------------------------------------------- three lines

  lemma LinesLayout(b: string, t: string, e: string)
    ensures var w := Lines(b, t, e);
            |w| == |b| + |t| + |e| + 3 &&
            w[..|b|] == b && w[0..|b|] == b && w[|b|] == '\n' &&
            w[|b| + 1..|b| + 1 + |t|] == t && w[|b| + 1 + |t|] == '\n' &&
            w[|b| + |t| + 2..|b| + |t| + 2 + |e|] == e && w[|b| + |t| + 2 + |e|] == '\n'
  {}

  lemma LinesLack(b: string, t: string, e: string, p: string)
    requires NewlineFree(p) && |p| > 0 && !Contains(b, p) && !Contains(t, p) && !Contains(e, p)
    ensures !Contains(Lines(b, t, e), p)
  {
    var w := Lines(b, t, e);
    LinesLayout(b, t, e);
    NoneInLine(w, p, 0, |b|);
    NoneInLine(w, p, |b| + 1, |b| + 1 + |t|);
    NoneInLine(w, p, |b| + |t| + 2, |b| + |t| + 2 + |e|);
  }

  lemma LinesHold(b: string, t: string, e: string, p: string)
    requires Contains(b, p)
    ensures Contains(Lines(b, t, e), p)
  {
    LinesLayout(b, t, e);
    SliceOccurs(Lines(b, t, e), p, 0, |b|, Index(b, p));
  }

  lemma LinesClose(t: string, mk: Marks)
    requires LineMarks(mk) && !Contains(t, mk.end)
    ensures Closes(Lines(mk.begin, t, mk.end), mk) && Lines(mk.begin, t, mk.end)[|mk.begin|] == '\n'
  {
    var w, b, e := Lines(mk.begin, t, mk.end), mk.begin, mk.end;
    LinesLayout(b, t, e);
    NoneInLine(w, e, 0, |b|);
    NoneInLine(w, e, |b| + 1, |b| + 1 + |t|);
  }

  // ---------------------------------------------------------------- the markers

  lemma Shape(name: string, i: nat)
    requires i < |name| + 24
    ensures |Named(name).begin| == |name| + 24 && |Named(name).end| == |name| + 22
    ensures Named(name).begin[i] == if i < 24 then BEGIN_PREFIX[i] else name[i - 24]
    ensures i < |name| + 22 ==> Named(name).end[i] == if i < 22 then END_PREFIX[i] else name[i - 22]
  {}

  lemma PrefixChars(i: nat)
    requires i < 24
    ensures BEGIN_PREFIX[i] != '\n' && (BEGIN_PREFIX[i] == '#' <==> i == 0)
    ensures i < 22 ==> END_PREFIX[i] != '\n' && (END_PREFIX[i] == '#' <==> i == 0)
    ensures i == 2 ==> BEGIN_PREFIX[i] == 'B' && END_PREFIX[i] == 'E'
  {}

  lemma NamedNewlineFree(name: string)
    requires NewlineFree(name)
    ensures NewlineFree(Named(name).begin) && NewlineFree(Named(name).end)
  {
    forall i | 0 <= i < |name| + 24
      ensures Named(name).begin[i] != '\n' && (i < |name| + 22 ==> Named(name).end[i] != '\n')
    {
      Shape(name, i);
      if i < 24 {
        PrefixChars(i);
      }
    }
    Shape(name, 0);
  }

  /** A text only two characters longer than a pattern that starts otherwise does not hold it. */
  lemma ShortLack(b: string, e: string)
    requires |b| == |e| + 2 && |e| > 2 && b[2] != e[2] && b[1] != e[0] && b[2] != e[0]
    ensures !Contains(b, e)
  {
    DiffersAt(b, e, 0, 2);
    DiffersAt(b, e, 1, 0);
    DiffersAt(b, e, 2, 0);
  }

  lemma MarkerChars(name: string)
    ensures var b, e := Named(name).begin, Named(name).end;
            |b| == |e| + 2 && |e| > 2 && b[0] == e[0] == '#' && b[1] != '#' && b[2] == 'B' && e[2] == 'E'
  {
    Shape(name, 0);
    Shape(name, 1);
    Shape(name, 2);
    PrefixChars(0);
    PrefixChars(1);
    PrefixChars(2);
  }

  lemma NamedLineMarks(name: string)
    requires NewlineFree(name)
    ensures LineMarks(Named(name))
  {
    NamedNewlineFree(name);
    MarkerChars(name);
    ShortLack(Named(name).begin, Named(name).end);
  }

  /** An end marker holds another begin marker only inside its name, where its begin marker holds it too. */
  lemma BeginInEnd(n: string, m: string)
    requires !Contains(Named(n).begin, Named(m).begin)
    ensures !Contains(Named(n).end, Named(m).begin)
  {
    var b, e, p := Named(n).begin, Named(n).end, Named(m).begin;
    forall k: nat
      ensures !OccursAt(e, p, k)
    {
      Shape(n, 0);
      Shape(m, 0);
      if k < 22 {
        EndLineStart(n, m, k);
      } else {
        NameTails(n);
        if k <= |e| {
          TailOccurs(e, b, p, 22, 24, k);
        }
      }
    }
  }

  lemma NameTails(n: string)
    ensures |Named(n).end| >= 22 && |Named(n).begin| >= 24
    ensures Named(n).end[22..] == n && Named(n).begin[24..] == n && Named(n).begin[..24] == BEGIN_PREFIX
  {}

  lemma EndLineStart(n: string, m: string, k: nat)
    requires k < 22
    ensures !OccursAt(Named(n).end, Named(m).begin, k)
  {
    Shape(n, k);
    Shape(n, 2);
    Shape(m, 0);
    Shape(m, 2);
    PrefixChars(0);
    PrefixChars(2);
    PrefixChars(k);
    if k == 0 {
      DiffersAt(Named(n).end, Named(m).begin, 0, 2);
    } else {
      DiffersAt(Named(n).end, Named(m).begin, k, 0);
    }
  }

  /** One begin marker holds another exactly when the other name is a prefix of its name, or is marked inside it. */
  lemma MarkerHoldsIff(n: string, m: string)
    ensures Contains(Named(n).begin, Named(m).begin) <==> m <= n || Contains(n, Named(m).begin)
  {
    var b, p := Named(n).begin, Named(m).begin;
    OccursAtStart(n, m);
    NameTails(n);
    assert n[0..] == n;
    forall k: nat | k > 0
      ensures OccursAt(b, p, k) <==> k >= 24 && OccursAt(n, p, k - 24)
    {
      if k < 24 {
        BeginLineStart(n, m, k);
      } else {
        TailOccurs(b, n, p, 24, 0, k);
      }
    }
    if Contains(n, p) {
      assert OccursAt(b, p, Index(n, p) + 24);
    }
  }

  lemma BeginLineStart(n: string, m: string, k: nat)
    requires 0 < k < 24
    ensures !OccursAt(Named(n).begin, Named(m).begin, k)
  {
    Shape(n, k);
    Shape(m, 0);
    PrefixChars(0);
    PrefixChars(k);
    DiffersAt(Named(n).begin, Named(m).begin, k, 0);
  }

  lemma OccursAtStart(n: string, m: string)
    ensures OccursAt(Named(n).begin, Named(m).begin, 0) <==> m <= n
  {
    var b, p := Named(n).begin, Named(m).begin;
    NameTails(n);
    NameTails(m);
    if |m| <= |n| {
      assert b[0..|p|] == BEGIN_PREFIX + n[..|m|];
      assert (BEGIN_PREFIX + n[..|m|])[24..] == n[..|m|];
    }
  }

  lemma WrappedCloses(block: string, name: string)
    requires NewlineFree(name) && !Contains(TrimNewlines(block), Named(name).end)
    ensures LineMarks(Named(name)) && Closes(Wrapped(block, name), Named(name))
    ensures Wrapped(block, name)[|Named(name).begin|] == '\n'
  {
    NamedLineMarks(name);
    LinesClose(TrimNewlines(block), Named(name));
  }

  /** A wrapped block holds another begin marker exactly when its begin marker does, for blocks that do not. */
  lemma WrappedHoldsIff(block: string, n: string, m: string)
    requires NewlineFree(m) && !Contains(TrimNewlines(block), Named(m).begin)
    ensures Contains(Wrapped(block, n), Named(m).begin) <==> Contains(Named(n).begin, Named(m).begin)
  {
    NamedLineMarks(m);
    if Contains(Named(n).begin, Named(m).begin) {
      LinesHold(Named(n).begin, TrimNewlines(block), Named(n).end, Named(m).begin);
    } else {
      BeginInEnd(n, m);
      LinesLack(Named(n).begin, TrimNewlines(block), Named(n).end, Named(m).begin);
    }
  }

  // ---------------------------------------------------------------- what upserting promises

  /** A name in one line and a block that does not hold its end marker. */
  ghost predicate Fit(block: string, name: string) {
    NewlineFree(name) && !Contains(TrimNewlines(block), Named(name).end)
  }

  /** What was written is what a reader finds. */
  lemma UpsertThenRead(x: string, block: string, name: string)
    requires Fit(block, name) && (Absent(x, Named(name)) || Terminated(x, Named(name)))
    ensures Terminated(Upsert(x, block, name), Named(name))
    ensures BlockText(Upsert(x, block, name), Named(name)) + "\n" == Wrapped(block, name)
  {
    WrappedCloses(block, name);
    PutThenRead(x, Wrapped(block, name), Named(name));
  }

  /** Text before and behind a replaced block is kept. */
  lemma OutsideIntact(x: string, block: string, name: string)
    requires Fit(block, name) && Terminated(x, Named(name))
    ensures var y, mk := Upsert(x, block, name), Named(name);
            Terminated(y, mk) && StartOf(y, mk) == StartOf(x, mk) && y[..StartOf(y, mk)] == x[..StartOf(x, mk)] &&
            After(y, EndOf(y, mk)) <= |y| && y[After(y, EndOf(y, mk))..] == x[After(x, EndOf(x, mk))..]
  {
    WrappedCloses(block, name);
    OutsideKept(x, Wrapped(block, name), Named(name));
  }

  /**
    Upserting is idempotent if and only if the file has no begin marker of that name or an end marker after
    the first one.
   */
  lemma IdempotentIff(x: string, block: string, name: string)
    requires Fit(block, name)
    ensures Upsert(Upsert(x, block, name), block, name) == Upsert(x, block, name) <==>
            Absent(x, Named(name)) || Terminated(x, Named(name))
  {
    WrappedCloses(block, name);
    if Absent(x, Named(name)) || Terminated(x, Named(name)) {
      PutAgain(x, Wrapped(block, name), Named(name));
    } else {
      UnterminatedShrinks(x, Wrapped(block, name), Named(name));
    }
  }

  /** A begin marker behind another block is not part of that block's begin marker. */
  lemma LaterNotInside(x: string, n: Marks, m: Marks, s: nat, e: nat, k: nat)
    requires LineMarks(n) && BlockAt(x, n, s, e) && FirstAt(x, m.begin, 0, k) && e <= k
    ensures !Contains(n.begin, m.begin)
  {
    BeginFits(x, n, s, e);
    forall i: nat
      ensures !OccursAt(n.begin, m.begin, i)
    {
      if i + |m.begin| <= |n.begin| {
        SliceOccurs(x, m.begin, s, s + |n.begin|, s + i);
      }
    }
  }

  lemma AvoidsLater(x: string, block: string, n: string, m: string)
    requires Fit(block, n) && NewlineFree(m) && !Contains(TrimNewlines(block), Named(m).begin)
    requires Terminated(x, Named(n)) && Terminated(x, Named(m))
    requires EndOf(x, Named(n)) <= StartOf(x, Named(m))
    ensures Avoids(Wrapped(block, n), Named(n), Named(m))
  {
    WrappedCloses(block, n);
    BlockAtIff(x, Named(n), StartOf(x, Named(n)), EndOf(x, Named(n)));
    LaterNotInside(x, Named(n), Named(m), StartOf(x, Named(n)), EndOf(x, Named(n)), StartOf(x, Named(m)));
    WrappedHoldsIff(block, n, m);
  }

  /** Any other terminated block reads the same afterwards, unless it overlaps the replaced one. */
  lemma OtherBlockIntact(x: string, block: string, n: string, m: string)
    requires Fit(block, n) && NewlineFree(m) && !Contains(TrimNewlines(block), Named(m).begin)
    requires Terminated(x, Named(m)) && (Terminated(x, Named(n)) ==> Apart(x, Named(n), Named(m)))
    ensures Terminated(Upsert(x, block, n), Named(m))
    ensures BlockText(Upsert(x, block, n), Named(m)) == BlockText(x, Named(m))
  {
    NamedLineMarks(m);
    if Terminated(x, Named(n)) && EndOf(x, Named(n)) <= StartOf(x, Named(m)) {
      AvoidsLater(x, block, n, m);
      LaterIntact(x, Wrapped(block, n), Named(n), Named(m));
    } else {
      EarlierIntact(x, Wrapped(block, n), Named(n), Named(m));
    }
  }

  /** A block that lies inside another and nowhere else is lost when the other is rewritten. */
  lemma NestedBlockLost(x: string, block: string, n: string, m: string)
    requires Fit(block, n) && NewlineFree(m) && !Contains(TrimNewlines(block), Named(m).begin) && !Clashes(n, m)
    requires Terminated(x, Named(n)) && Terminated(x, Named(m))
    requires StartOf(x, Named(n)) <= StartOf(x, Named(m)) && EndOf(x, Named(m)) <= EndOf(x, Named(n))
    requires NoneIn(x, Named(m).begin, EndOf(x, Named(n)), |x| + 1)
    ensures Absent(Upsert(x, block, n), Named(m))
  {
    WrappedCloses(block, n);
    NamedLineMarks(m);
    WrappedHoldsIff(block, n, m);
    NestedLost(x, Wrapped(block, n), Named(n), Named(m));
  }

  /** Such files arise: a block of one name whose text is a block of another. */
  lemma NestedBlockWritten(x: string, b: string, n: string, c: string, m: string)
    requires Fit(b, m) && Fit(Wrapped(b, m), n) && Fit(c, n) && !Clashes(n, m)
    requires Absent(x, Named(n)) && Absent(x, Named(m)) && !Contains(TrimNewlines(c), Named(m).begin)
    ensures Contains(Upsert(x, Wrapped(b, m), n), Named(m).begin)
    ensures Absent(Upsert(Upsert(x, Wrapped(b, m), n), c, n), Named(m))
  {
    WrappedCloses(b, m);
    WrappedCloses(Wrapped(b, m), n);
    WrappedCloses(c, n);
    NamedLineMarks(m);
    WrappedHoldsIff(c, n, m);
    InnerMarkerHeld(b, n, m);
    AppendBrings(x, Wrapped(Wrapped(b, m), n), Named(n), Named(m));
    RewrittenText(x, Wrapped(Wrapped(b, m), n), Wrapped(c, n), Named(n), Named(m));
  }

  lemma InnerMarkerHeld(b: string, n: string, m: string)
    requires NewlineFree(m)
    ensures Contains(Wrapped(Wrapped(b, m), n), Named(m).begin)
  {
    var inner := Wrapped(b, m);
    NamedNewlineFree(m);
    MarkerChars(m);
    LinesLayout(Named(m).begin, TrimNewlines(b), Named(m).end);
    TrimmedHead(inner, Named(m).begin);
    LinesHoldMiddle(Named(n).begin, TrimNewlines(inner), Named(n).end, Named(m).begin);
  }

  /** Trimming newlines off the end leaves a newline-free start that does not reach the end. */
  lemma {:induction false} TrimmedHead(s: string, p: string)
    requires |p| > 0 && |p| <= |s| && s[..|p|] == p && p[|p| - 1] != '\n'
    ensures |p| <= |TrimNewlines(s)| && TrimNewlines(s)[..|p|] == p
  {
    if s[|s| - 1] == '\n' {
      assert |s| > |p| by {
        assert s[|p| - 1] == s[..|p|][|p| - 1];
      }
      assert s[..|s| - 1][..|p|] == s[..|p|];
      TrimmedHead(s[..|s| - 1], p);
    }
  }

  lemma LinesHoldMiddle(b: string, t: string, e: string, p: string)
    requires |p| <= |t| && t[..|p|] == p
    ensures Contains(Lines(b, t, e), p)
  {
    var w := Lines(b, t, e);
    LinesLayout(b, t, e);
    assert OccursAt(t, p, 0);
    SliceOccurs(w, p, |b| + 1, |b| + 1 + |t|, |b| + 1);
  }

  /** Upserts of two present blocks that lie apart commute. */
  lemma UpsertsCommute(x: string, b: string, n: string, c: string, m: string)
    requires Fit(b, n) && Fit(c, m)
    requires !Contains(TrimNewlines(b), Named(m).begin) && !Contains(TrimNewlines(c), Named(n).begin)
    requires Terminated(x, Named(n)) && Terminated(x, Named(m)) && Apart(x, Named(n), Named(m))
    ensures Upsert(Upsert(x, b, n), c, m) == Upsert(Upsert(x, c, m), b, n)
  {
    WrappedCloses(b, n);
    WrappedCloses(c, m);
    if EndOf(x, Named(n)) <= StartOf(x, Named(m)) {
      AvoidsLater(x, b, n, m);
      OrderedPutsCommute(x, Wrapped(b, n), Named(n), Wrapped(c, m), Named(m));
    } else {
      AvoidsLater(x, c, m, n);
      OrderedPutsCommute(x, Wrapped(c, m), Named(m), Wrapped(b, n), Named(n));
    }
  }

  // ---------------------------------------------------------------- names

  /** One marker is found inside the other. */
  predicate Clashes(n: string, m: string) {
    Contains(Named(n).begin, Named(m).begin)
  }

  /** Writing a block makes a block of another name appear exactly when its begin marker holds the other. */
  lemma AppearsIffClash(x: string, block: string, n: string, m: string)
    requires Fit(block, n) && NewlineFree(m) && !Contains(TrimNewlines(block), Named(m).begin)
    requires !Terminated(x, Named(n)) && Absent(x, Named(m))
    ensures Absent(Upsert(x, block, n), Named(m)) <==> !Clashes(n, m)
  {
    WrappedCloses(block, n);
    NamedLineMarks(m);
    AppendBrings(x, Wrapped(block, n), Named(n), Named(m));
    WrappedHoldsIff(block, n, m);
  }

  /** Two blocks written into a file without them are both found, and apart, unless the first marker holds the second. */
  lemma TwoBlocksApart(x: string, b: string, n: string, c: string, m: string)
    requires Fit(b, n) && Fit(c, m) && !Clashes(n, m) && !Contains(TrimNewlines(b), Named(m).begin)
    requires Absent(x, Named(n)) && Absent(x, Named(m))
    ensures var y := Upsert(Upsert(x, b, n), c, m);
            Terminated(y, Named(n)) && Terminated(y, Named(m)) && Apart(y, Named(n), Named(m))
  {
    WrappedCloses(b, n);
    WrappedCloses(c, m);
    WrappedHoldsIff(b, n, m);
    TwoWritten(x, Wrapped(b, n), Named(n), Wrapped(c, m), Named(m));
  }

  /** From then on rewriting the two blocks commutes. */
  lemma WrittenBlocksCommute(x: string, b: string, n: string, c: string, m: string, newB: string, newC: string)
    requires Fit(b, n) && Fit(c, m) && !Clashes(n, m) && !Contains(TrimNewlines(b), Named(m).begin)
    requires Absent(x, Named(n)) && Absent(x, Named(m))
    requires Fit(newB, n) && Fit(newC, m)
    requires !Contains(TrimNewlines(newB), Named(m).begin) && !Contains(TrimNewlines(newC), Named(n).begin)
    ensures var y := Upsert(Upsert(x, b, n), c, m);
            Upsert(Upsert(y, newB, n), newC, m) == Upsert(Upsert(y, newC, m), newB, n)
  {
    TwoBlocksApart(x, b, n, c, m);
    UpsertsCommute(Upsert(Upsert(x, b, n), c, m), newB, n, newC, m);
  }

  // ---------------------------------------------------------------- the text written

  /** The block without the line ends behind it, and nothing else taken away. */
  lemma {:induction false} TrimmedBlock(block: string)
    ensures var t := TrimNewlines(block);
            t <= block && (forall i :: |t| <= i < |block| ==> block[i] == '\n') && (t != "" ==> t[|t| - 1] != '\n')
  {
    if |block| > 0 && block[|block| - 1] == '\n' {
      TrimmedBlock(block[..|block| - 1]);
    }
  }

  /** The lines written for a block. */
  predicate BlockLines(block: string, name: string, lines: string) {
    lines == "# BEGIN managed by cam: " + name + "\n" + TrimNewlines(block) + "\n" + "# END managed by cam: " + name + "\n"
  }

  /** Where no block of the name is there, it is appended behind a blank line, after the file's own last line end. */
  lemma AppendedText(x: string, block: string, name: string) returns (lines: string)
    requires !Terminated(x, Named(name))
    ensures BlockLines(block, name, lines)
    ensures Upsert(x, block, name) ==
            if x == "" then lines else if x[|x| - 1] == '\n' then x + "\n" + lines else x + "\n\n" + lines
  {
    lines := Wrapped(block, name);
    assert x + "\n" + "\n" == x + "\n\n";
    assert BlockLines(block, name, lines);
  }
}
