/**
  Transcript chunking. `BuildChunks` cuts a message list into runs: a user message with
  everything up to the next one, and a singleton for each message before the first.
 */
module Chunking {
  import opened Prelude
  import opened Numerals

  datatype Message = Message(messageId: string, seqNo: int, role: string, toolName: string,
                             content: string, authoredAtMS: int, metadata: string)

  datatype Chunk = Chunk(chunkId: string, chunkSeq: nat, chunkKind: string, startSeq: int, endSeq: int,
                         text: string, authoredAtMS: int, sensitivity: string)

  /** The keyword and secret heuristics, kept abstract. */
  datatype Heuristics = Heuristics(kindOf: string -> string, isSecret: string -> bool,
                                   subjectOf: (string, string) -> string)

  const CHUNK_STRATEGY_VERSION: nat := 2

  type Run = seq<Message>

  predicate IsUser(m: Message) {
    m.role == "user"
  }

  // ---------------------------------------------------------------- what a chunk records

  function ChunkIdText(sessionId: string, chunkSeq: nat): string {
    sessionId + ":v" + Decimal(CHUNK_STRATEGY_VERSION) + ":" + Decimal(chunkSeq)
  }

  function Lines(run: Run): seq<string> {
    seq(|run|, k requires 0 <= k < |run| => run[k].role + ": " + run[k].content)
  }

  function LatestAuthored(run: Run): int
    requires |run| > 0
  {
    if |run| == 1 then run[0].authoredAtMS
    else
      var before := LatestAuthored(run[..|run| - 1]);
      if run[|run| - 1].authoredAtMS > before then run[|run| - 1].authoredAtMS else before
  }

  /** The timestamp of a chunk is the maximum over its run, and is attained. */
  lemma {:induction false} LatestAuthoredIsMaximum(run: Run) returns (at: nat)
    requires |run| > 0
    ensures at < |run| && run[at].authoredAtMS == LatestAuthored(run)
    ensures forall k :: 0 <= k < |run| ==> run[k].authoredAtMS <= LatestAuthored(run)
  {
    at := |run| - 1;
    if |run| > 1 {
      var before := run[..|run| - 1];
      var earlier := LatestAuthoredIsMaximum(before);
      if run[at].authoredAtMS <= LatestAuthored(before) {
        at := earlier;
      }
      assert forall k :: 0 <= k < |run| - 1 ==> run[k] == before[k];
    }
  }

  function ChunkOf(h: Heuristics, sessionId: string, sensitivity: string, chunkSeq: nat, run: Run): Chunk
    requires |run| > 0
  {
    var text := Join(Lines(run), "\n");
    Chunk(ChunkIdText(sessionId, chunkSeq), chunkSeq, h.kindOf(text), run[0].seqNo, run[|run| - 1].seqNo,
          text, LatestAuthored(run), if h.isSecret(text) then "secret" else sensitivity)
  }

  predicate NonEmptyRuns(runs: seq<Run>) {
    forall run <- runs :: |run| > 0
  }

  /** Chunks number the runs from 1, whatever the runs are. */
  function ChunksOf(h: Heuristics, sessionId: string, sensitivity: string, runs: seq<Run>): (chunks: seq<Chunk>)
    requires NonEmptyRuns(runs)
    ensures |chunks| == |runs|
  {
    seq(|runs|, i requires 0 <= i < |runs| => ChunkOf(h, sessionId, sensitivity, i + 1, runs[i]))
  }

  // ---------------------------------------------------------------- the segmentation

  function Flatten(runs: seq<Run>): Run {
    if |runs| == 0 then [] else runs[0] + Flatten(runs[1..])
  }

  /** A user message may only lead its run; a run led by another message is that message alone. */
  predicate WellFormedRun(run: Run) {
    |run| > 0 &&
    (forall k :: 1 <= k < |run| ==> !IsUser(run[k])) &&
    (!IsUser(run[0]) ==> |run| == 1)
  }

  /** A user-led run extends to the next user message or the end. */
  predicate Maximal(runs: seq<Run>)
    requires NonEmptyRuns(runs)
  {
    forall i :: 0 <= i < |runs| - 1 && IsUser(runs[i][0]) ==> IsUser(runs[i + 1][0])
  }

  ghost predicate IsSegmentation(runs: seq<Run>, messages: seq<Message>) {
    (forall run <- runs :: WellFormedRun(run)) && Maximal(runs) && Flatten(runs) == messages
  }

  function OtherPrefix(messages: seq<Message>): (n: nat)
    ensures n <= |messages|
    ensures forall k :: 0 <= k < n ==> !IsUser(messages[k])
    ensures n < |messages| ==> IsUser(messages[n])
  {
    if |messages| == 0 || IsUser(messages[0]) then 0 else 1 + OtherPrefix(messages[1..])
  }

  function RunLength(messages: seq<Message>): (n: nat)
    requires |messages| > 0
    ensures 1 <= n <= |messages|
  {
    if IsUser(messages[0]) then 1 + OtherPrefix(messages[1..]) else 1
  }

  function Runs(messages: seq<Message>): (runs: seq<Run>)
    ensures NonEmptyRuns(runs)
    decreases |messages|
  {
    if |messages| == 0 then []
    else [messages[..RunLength(messages)]] + Runs(messages[RunLength(messages)..])
  }

  lemma SegmentationCons(run: Run, runs: seq<Run>, rest: seq<Message>)
    requires WellFormedRun(run) && IsSegmentation(runs, rest)
    requires |rest| > 0 && IsUser(run[0]) ==> IsUser(rest[0])
    ensures IsSegmentation([run] + runs, run + rest)
  {
    assert ([run] + runs)[1..] == runs;
    if |runs| > 0 {
      assert WellFormedRun(runs[0]) && rest == runs[0] + Flatten(runs[1..]);
      assert rest[0] == runs[0][0];
    }
  }

  lemma SegmentationUncons(runs: seq<Run>, messages: seq<Message>)
    requires IsSegmentation(runs, messages) && |runs| > 0
    ensures WellFormedRun(runs[0]) && |runs[0]| <= |messages| && messages[..|runs[0]|] == runs[0]
    ensures IsSegmentation(runs[1..], messages[|runs[0]|..])
    ensures |runs[0]| < |messages| && IsUser(messages[0]) ==> IsUser(messages[|runs[0]|])
  {
    assert runs[0] in runs;
    assert messages == runs[0] + Flatten(runs[1..]);
    assert messages[|runs[0]|..] == Flatten(runs[1..]);
    if |runs| > 1 {
      assert runs[1] in runs && runs[1..][0] == runs[1];
      assert messages[|runs[0]|] == runs[1][0];
    }
  }

  lemma {:induction false} RunsSegment(messages: seq<Message>)
    ensures IsSegmentation(Runs(messages), messages)
    decreases |messages|
  {
    if |messages| > 0 {
      var n := RunLength(messages);
      RunsSegment(messages[n..]);
      assert forall k :: 1 <= k < n ==> messages[k] == messages[1..][k - 1];
      SegmentationCons(messages[..n], Runs(messages[n..]), messages[n..]);
      assert messages[..n] + messages[n..] == messages;
    }
  }

  /** Any list of runs with these properties is the one the chunker produces. */
  lemma {:induction false} SegmentationUnique(runs: seq<Run>, messages: seq<Message>)
    requires IsSegmentation(runs, messages)
    ensures runs == Runs(messages)
    decreases |runs|
  {
    if |runs| > 0 {
      SegmentationUncons(runs, messages);
      FirstRunLength(messages, |runs[0]|);
      SegmentationUnique(runs[1..], messages[|runs[0]|..]);
    }
  }

  lemma {:induction false} OtherPrefixIs(messages: seq<Message>, n: nat)
    requires n <= |messages| && forall k :: 0 <= k < n ==> !IsUser(messages[k])
    requires n < |messages| ==> IsUser(messages[n])
    ensures OtherPrefix(messages) == n
  {
    if n > 0 {
      OtherPrefixIs(messages[1..], n - 1);
    }
  }

  lemma FirstRunLength(messages: seq<Message>, n: nat)
    requires 1 <= n <= |messages| && WellFormedRun(messages[..n])
    requires n < |messages| && IsUser(messages[0]) ==> IsUser(messages[n])
    ensures RunLength(messages) == n
  {
    if IsUser(messages[0]) {
      assert forall k :: 1 <= k < n ==> messages[1..][k - 1] == messages[..n][k];
      OtherPrefixIs(messages[1..], n - 1);
    }
  }

  // ---------------------------------------------------------------- concatenation

  /** A place where a transcript may be cut without changing how it is chunked. */
  ghost predicate CleanCut(messages: seq<Message>, n: nat)
    requires n <= |messages|
  {
    n == |messages| || IsUser(messages[n]) || forall k :: 0 <= k < n ==> !IsUser(messages[k])
  }

  lemma RunsCons(messages: seq<Message>, n: nat)
    requires |messages| > 0 && n == RunLength(messages)
    ensures Runs(messages) == [messages[..n]] + Runs(messages[n..])
  {}

  /** Chunking distributes over a clean cut. */
  lemma {:induction false} RunsConcat(a: seq<Message>, b: seq<Message>)
    requires CleanCut(a + b, |a|)
    ensures Runs(a + b) == Runs(a) + Runs(b)
    decreases |a|
  {
    if |a| == 0 {
      assert a + b == b;
    } else {
      var n := RunLength(a);
      CleanTail(a, b, n);
      RunsConcat(a[n..], b);
      FirstRunLengthOfConcat(a, b);
      SplitConcat(a, b, n);
      ConcatStep(a, b, a + b, n);
    }
  }

  lemma ConcatStep(a: seq<Message>, b: seq<Message>, whole: seq<Message>, n: nat)
    requires |a| > 0 && |whole| > 0 && n == RunLength(a) == RunLength(whole)
    requires whole[..n] == a[..n] && Runs(whole[n..]) == Runs(a[n..]) + Runs(b)
    ensures Runs(whole) == Runs(a) + Runs(b)
  {
    RunsCons(a, n);
    RunsCons(whole, n);
    Regroup([a[..n]], Runs(a[n..]), Runs(b));
  }

  lemma SplitConcat(a: seq<Message>, b: seq<Message>, n: nat)
    requires n <= |a|
    ensures (a + b)[..n] == a[..n] && (a + b)[n..] == a[n..] + b
  {}

  lemma Regroup(a: seq<Run>, b: seq<Run>, c: seq<Run>)
    ensures a + (b + c) == a + b + c
  {}

  lemma CleanTail(a: seq<Message>, b: seq<Message>, n: nat)
    requires n <= |a| && CleanCut(a + b, |a|)
    ensures CleanCut(a[n..] + b, |a[n..]|)
  {
    forall k | 0 <= k < |a[n..]|
      ensures (a[n..] + b)[k] == (a + b)[n + k]
    {}
    assert |b| > 0 ==> (a[n..] + b)[|a[n..]|] == (a + b)[|a|];
  }

  lemma FirstRunLengthOfConcat(a: seq<Message>, b: seq<Message>)
    requires |a| > 0 && (RunLength(a) < |a| || CleanCut(a + b, |a|))
    ensures RunLength(a + b) == RunLength(a)
  {
    var n := RunLength(a);
    assert (a + b)[0] == a[0] && (a + b)[1..] == a[1..] + b;
    if IsUser(a[0]) {
      forall k | 0 <= k < n - 1
        ensures !IsUser((a[1..] + b)[k])
      {
        assert (a[1..] + b)[k] == a[1..][k];
      }
      if n < |a| {
        assert (a[1..] + b)[n - 1] == a[1..][n - 1];
      } else if |b| > 0 {
        assert IsUser((a + b)[0]) && (a + b)[|a|] == (a[1..] + b)[n - 1];
      }
      OtherPrefixIs(a[1..] + b, n - 1);
    }
  }

  /** At a cut that is not clean, the last run before the cut grows when the rest arrives. */
  ghost predicate LastGrows(before: seq<Run>, after: seq<Run>) {
    var k := |before| - 1;
    0 <= k < |after| && after[..k] == before[..k] && |before[k]| < |after[k]| && before[k] == after[k][..|before[k]|]
  }

  lemma {:induction false} LastRunGrows(a: seq<Message>, b: seq<Message>)
    requires !CleanCut(a + b, |a|)
    ensures LastGrows(Runs(a), Runs(a + b))
    decreases |a|
  {
    var n := RunLength(a);
    if n == |a| {
      SingleRunGrows(a, b);
    } else {
      FirstRunLengthOfConcat(a, b);
      assert (a + b)[..n] == a[..n] && (a + b)[n..] == a[n..] + b;
      UncleanTail(a, b, n);
      LastRunGrows(a[n..], b);
      LastGrowsCons(a[..n], Runs(a[n..]), Runs(a[n..] + b));
    }
  }

  lemma LastGrowsCons(run: Run, before: seq<Run>, after: seq<Run>)
    requires LastGrows(before, after)
    ensures LastGrows([run] + before, [run] + after)
  {
    var k := |before| - 1;
    assert ([run] + after)[..k + 1] == [run] + after[..k];
    assert ([run] + before)[..k + 1] == [run] + before[..k];
  }

  lemma UncleanTail(a: seq<Message>, b: seq<Message>, n: nat)
    requires !CleanCut(a + b, |a|) && n == RunLength(a) < |a|
    ensures !CleanCut(a[n..] + b, |a[n..]|)
  {
    assert (a + b)[|a|] == (a[n..] + b)[|a[n..]|];
    var k :| 0 <= k < |a| && IsUser((a + b)[k]);
    var later := if IsUser(a[0]) then n else k;
    assert IsUser(a[0]) ==> IsUser(a[1..][n - 1]) && a[1..][n - 1] == a[n];
    assert (a + b)[k] == a[k];
    assert later >= n && IsUser((a[n..] + b)[later - n]);
  }

  lemma SingleRunGrows(a: seq<Message>, b: seq<Message>)
    requires !CleanCut(a + b, |a|) && RunLength(a) == |a|
    ensures LastGrows(Runs(a), Runs(a + b))
  {
    SingleRunLength(a, b);
    var n := RunLength(a + b);
    RunsCons(a, |a|);
    RunsCons(a + b, n);
    assert a[..|a|] == a && a[|a|..] == [];
    assert (a + b)[..n][..|a|] == a;
    FirstGrows(a, (a + b)[..n], Runs((a + b)[n..]));
  }

  lemma SingleRunLength(a: seq<Message>, b: seq<Message>)
    requires !CleanCut(a + b, |a|) && RunLength(a) == |a|
    ensures RunLength(a + b) > |a|
  {
    var k :| 0 <= k < |a| && IsUser((a + b)[k]);
    assert (a + b)[k] == a[k] && (a + b)[|a|] == b[0];
    assert forall j :: 1 <= j < RunLength(a) && IsUser(a[0]) ==> a[j] == a[1..][j - 1];
    assert IsUser(a[0]);
    OtherPrefixAcross(a[1..], b);
    assert (a + b)[0] == a[0] && (a + b)[1..] == a[1..] + b;
  }

  lemma FirstGrows(run: Run, grown: Run, rest: seq<Run>)
    requires |run| < |grown| && grown[..|run|] == run
    ensures LastGrows([run], [grown] + rest)
  {}

  lemma {:induction false} OtherPrefixAcross(a: seq<Message>, b: seq<Message>)
    requires OtherPrefix(a) == |a|
    ensures OtherPrefix(a + b) == |a| + OtherPrefix(b)
  {
    if |a| == 0 {
      assert a + b == b;
    } else {
      assert (a + b)[1..] == a[1..] + b && !IsUser(a[0]);
      OtherPrefixAcross(a[1..], b);
    }
  }

  // ---------------------------------------------------------------- the method

  ghost predicate SortedBySeq(messages: seq<Message>) {
    forall i, j :: 0 <= i < j < |messages| ==> messages[i].seqNo <= messages[j].seqNo
  }

  ghost predicate StrictlySortedBySeq(messages: seq<Message>) {
    forall i, j :: 0 <= i < j < |messages| ==> messages[i].seqNo < messages[j].seqNo
  }

  method SortBySeq(messages: seq<Message>) returns (sorted: seq<Message>)
    ensures SortedBySeq(sorted) && multiset(sorted) == multiset(messages)
  {
    sorted := [];
    for i := 0 to |messages|
      invariant SortedBySeq(sorted) && multiset(sorted) == multiset(messages[..i])
    {
      var m := messages[i];
      var at := |sorted|;
      while at > 0 && sorted[at - 1].seqNo > m.seqNo
        invariant 0 <= at <= |sorted|
        invariant forall k :: at <= k < |sorted| ==> m.seqNo < sorted[k].seqNo
      {
        at := at - 1;
      }
      InsertKeepsSorted(sorted, at, m);
      sorted := sorted[..at] + [m] + sorted[at..];
      assert messages[..i + 1] == messages[..i] + [m];
    }
    assert messages[..|messages|] == messages;
  }

  lemma InsertKeepsSorted(sorted: seq<Message>, at: nat, m: Message)
    requires SortedBySeq(sorted) && at <= |sorted|
    requires at > 0 ==> sorted[at - 1].seqNo <= m.seqNo
    requires forall k :: at <= k < |sorted| ==> m.seqNo < sorted[k].seqNo
    ensures SortedBySeq(sorted[..at] + [m] + sorted[at..])
    ensures multiset(sorted[..at] + [m] + sorted[at..]) == multiset(sorted) + multiset{m}
  {
    var low, high := sorted[..at], sorted[at..];
    assert forall k :: 0 <= k < at ==> low[k].seqNo <= sorted[at - 1].seqNo;
    ConcatSorted(low, [m]);
    ConcatSorted(low + [m], high);
    MultisetInsert(sorted, at, m);
  }

  lemma ConcatSorted(a: seq<Message>, b: seq<Message>)
    requires SortedBySeq(a) && SortedBySeq(b)
    requires forall i, j :: 0 <= i < |a| && 0 <= j < |b| ==> a[i].seqNo <= b[j].seqNo
    ensures SortedBySeq(a + b)
  {}

  /** Messages loaded in sequence order have one chunking. */
  lemma ChunkingUnique(h: Heuristics, sessionId: string, sensitivity: string, messages: seq<Message>, chunks: seq<Chunk>)
    requires StrictlySortedBySeq(messages) && IsChunking(h, sessionId, sensitivity, messages, chunks)
    ensures chunks == ChunksOf(h, sessionId, sensitivity, Runs(messages))
  {
    var sorted :| SortedBySeq(sorted) && multiset(sorted) == multiset(messages) &&
                  chunks == ChunksOf(h, sessionId, sensitivity, Runs(sorted));
    SortedPermutationUnique(messages, sorted);
  }

  /** Rows loaded in sequence order are already sorted, and no other order is possible. */
  lemma {:induction false} SortedPermutationUnique(a: seq<Message>, b: seq<Message>)
    requires StrictlySortedBySeq(a) && SortedBySeq(b) && multiset(a) == multiset(b)
    ensures a == b
    decreases |a|
  {
    assert |multiset(a)| == |a| && |multiset(b)| == |b|;
    if |a| > 0 {
      SameFirst(a, b);
      WithoutFirst(a);
      WithoutFirst(b);
      SortedPermutationUnique(a[1..], b[1..]);
      assert a == [a[0]] + a[1..] && b == [b[0]] + b[1..];
    }
  }

  lemma SameFirst(a: seq<Message>, b: seq<Message>)
    requires StrictlySortedBySeq(a) && SortedBySeq(b) && multiset(a) == multiset(b)
    requires |a| > 0 && |b| > 0
    ensures a[0] == b[0]
  {
    assert a[0] in multiset(b) && b[0] in multiset(a);
    var j :| 0 <= j < |b| && b[j] == a[0];
    var i :| 0 <= i < |a| && a[i] == b[0];
    assert b[0].seqNo <= b[j].seqNo;
    assert a[0].seqNo <= a[i].seqNo;
    assert i == 0;
  }

  /** One round of the chunk loop: find the end of the run that starts here and describe it. */
  method CutRun(h: Heuristics, sessionId: string, sensitivity: string, sorted: seq<Message>, start: nat, chunkSeq: nat)
    returns (chunk: Chunk, end: nat)
    requires start < |sorted|
    ensures start <= end < |sorted| && end + 1 - start == RunLength(sorted[start..])
    ensures chunk == ChunkOf(h, sessionId, sensitivity, chunkSeq, sorted[start..end + 1])
  {
    end := start;
    if IsUser(sorted[start]) {
      while end + 1 < |sorted| && !IsUser(sorted[end + 1])
        invariant start <= end < |sorted|
        invariant forall k :: start < k <= end ==> !IsUser(sorted[k])
      {
        end := end + 1;
      }
    }
    var run := sorted[start..end + 1];
    assert run == sorted[start..][..end + 1 - start];
    FirstRunLength(sorted[start..], end + 1 - start);
    chunk := DescribeRun(h, sessionId, sensitivity, run, chunkSeq);
  }

  method DescribeRun(h: Heuristics, sessionId: string, sensitivity: string, run: Run, chunkSeq: nat)
    returns (chunk: Chunk)
    requires |run| > 0
    ensures chunk == ChunkOf(h, sessionId, sensitivity, chunkSeq, run)
  {
    var last := |run| - 1;
    var textParts: seq<string> := [];
    var authoredAtMS := run[last].authoredAtMS;
    ghost var at := last;
    for k := 0 to |run|
      invariant textParts == Lines(run[..k])
      invariant at < |run| && run[at].authoredAtMS == authoredAtMS
      invariant forall j :: 0 <= j < k ==> run[j].authoredAtMS <= authoredAtMS
    {
      textParts := textParts + [run[k].role + ": " + run[k].content];
      if run[k].authoredAtMS > authoredAtMS {
        authoredAtMS := run[k].authoredAtMS;
        at := k;
      }
    }
    assert run[..|run|] == run;
    ghost var maximal := LatestAuthoredIsMaximum(run);
    assert authoredAtMS == LatestAuthored(run);
    var text := Join(textParts, "\n");
    chunk := Chunk(ChunkIdText(sessionId, chunkSeq), chunkSeq, h.kindOf(text), run[0].seqNo, run[last].seqNo,
                   text, authoredAtMS, if h.isSecret(text) then "secret" else sensitivity);
  }

  lemma RunsUnfold(messages: seq<Message>, start: nat, next: nat)
    requires start < next <= |messages| && next - start == RunLength(messages[start..])
    ensures Runs(messages[start..]) == [messages[start..next]] + Runs(messages[next..])
  {
    assert messages[start..][..next - start] == messages[start..next];
    assert messages[start..][next - start..] == messages[next..];
  }

  lemma ChunksAppend(h: Heuristics, sessionId: string, sensitivity: string, runs: seq<Run>, run: Run)
    requires NonEmptyRuns(runs) && |run| > 0
    ensures NonEmptyRuns(runs + [run])
    ensures ChunksOf(h, sessionId, sensitivity, runs + [run]) ==
            ChunksOf(h, sessionId, sensitivity, runs) + [ChunkOf(h, sessionId, sensitivity, |runs| + 1, run)]
  {}

  lemma RunsAppend(runs: seq<Run>, messages: seq<Message>, start: nat, next: nat)
    requires start < next <= |messages| && next - start == RunLength(messages[start..])
    ensures runs + Runs(messages[start..]) == (runs + [messages[start..next]]) + Runs(messages[next..])
  {
    RunsUnfold(messages, start, next);
    Regroup(runs, [messages[start..next]], Runs(messages[next..]));
  }

  /** Chunks of the unique segmentation of some sorted arrangement of the messages. */
  ghost predicate IsChunking(h: Heuristics, sessionId: string, sensitivity: string, messages: seq<Message>,
                             chunks: seq<Chunk>)
  {
    exists sorted :: SortedBySeq(sorted) && multiset(sorted) == multiset(messages) &&
                     chunks == ChunksOf(h, sessionId, sensitivity, Runs(sorted))
  }

  /** `buildChunks`: sort, then cut. How the sort orders equal sequence numbers is left open. */
  method BuildChunks(h: Heuristics, sessionId: string, sensitivity: string, unsorted: seq<Message>)
    returns (chunks: seq<Chunk>)
    ensures IsChunking(h, sessionId, sensitivity, unsorted, chunks)
  {
    var sorted := SortBySeq(unsorted);
    chunks := [];
    ghost var runs: seq<Run> := [];
    var i := 0;
    assert sorted[0..] == sorted;
    while i < |sorted|
      invariant 0 <= i <= |sorted|
      invariant NonEmptyRuns(runs)
      invariant Runs(sorted) == runs + Runs(sorted[i..])
      invariant chunks == ChunksOf(h, sessionId, sensitivity, runs)
    {
      var chunk, end := CutRun(h, sessionId, sensitivity, sorted, i, |chunks| + 1);
      ghost var run := sorted[i..end + 1];
      RunsAppend(runs, sorted, i, end + 1);
      ChunksAppend(h, sessionId, sensitivity, runs, run);
      chunks := chunks + [chunk];
      runs := runs + [run];
      i := end + 1;
    }
    NoMoreRuns(runs, sorted, i);
  }

  lemma NoMoreRuns(runs: seq<Run>, messages: seq<Message>, i: nat)
    requires i == |messages|
    ensures runs + Runs(messages[i..]) == runs
  {}
}
