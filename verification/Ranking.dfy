/**
  Fused ranking of retrieval rows: merging of the vector and lexical candidates, scoring, sorting and
  cutting. Scores are real numbers; rounding of the floating-point originals is not modelled.
 */
module Ranking {
  import opened Prelude
  import opened Strings

  datatype RecallResult = RecallResult(unitId: string, memorySpace: string, memoryId: string, subject: string,
                                       body: string, authoredAtMS: int)

  datatype Row = Row(item: RecallResult, signatureStatus: string, hasSignature: bool, trustWeight: real,
                     semanticRank: int, lexicalRank: int)

  datatype Key = Key(memorySpace: string, memoryId: string)

  datatype GraphStat = GraphStat(edgeCount: nat, supportWeight: real, contradictWeight: real)

  datatype ArtifactStat = ArtifactStat(spanCount: nat, quoteCount: nat)

  datatype Profile = Profile(name: string, semanticWeight: real, lexicalWeight: real, graphWeight: real,
                             artifactWeight: real, recencyWeight: real, sourceWeight: real,
                             exactMatchBoost: real, transcriptBonus: real)

  /** Everything besides the rows that a ranking depends on. */
  datatype Context = Context(graph: map<Key, GraphStat>, artifacts: map<Key, ArtifactStat>, profileName: string,
                             query: string, nowMS: int)

  // ---------------------------------------------------------------- scores

  function RankingBucket(memorySpace: string, signatureStatus: string, hasSignature: bool): nat {
    if memorySpace == "private" then 0
    else if signatureStatus == "valid" then 0
    else if signatureStatus == "missing_signature" then 1
    else if signatureStatus == "unknown_peer" then 2
    else 1
  }

  function BucketOf(r: Row): nat {
    RankingBucket(r.item.memorySpace, r.signatureStatus, r.hasSignature)
  }

  function GraphScore(stat: GraphStat): real {
    var score := stat.edgeCount as real * 0.15 + stat.supportWeight * 0.20 - stat.contradictWeight * 0.25;
    if score < 0.0 then 0.0 else if score > 1.0 then 1.0 else score
  }

  function ArtifactScore(stat: ArtifactStat): real {
    var score := stat.spanCount as real * 0.25 + stat.quoteCount as real * 0.15;
    if score > 1.0 then 1.0 else score
  }

  function RecencyScore(authoredAtMS: int, nowMS: int): real {
    if authoredAtMS <= 0 || nowMS <= 0 then 0.0
    else if authoredAtMS > nowMS then 1.0
    else
      var ageHours := (nowMS - authoredAtMS) as real / 3600000.0;
      1.0 / (1.0 + ageHours / 24.0)
  }

  const JAPANESE := Profile("ja-default", 0.80, 0.50, 42.0, 40.0, 5.0, 24.0, 30.0, 40.0)
  const DEFAULT := Profile("default", 0.60, 0.40, 40.0, 40.0, 5.0, 20.0, 0.0, 25.0)

  function RankingProfile(name: string): Profile {
    if ToLower(TrimSpace(name)) in {"ja", "ja-default"} then JAPANESE else DEFAULT
  }

  function SourceScore(r: Row, p: Profile): real {
    (if r.semanticRank > 0 then p.semanticWeight / r.semanticRank as real else 0.0) +
    (if r.lexicalRank > 0 then p.lexicalWeight / r.lexicalRank as real else 0.0)
  }

  function ExactMatchScore(r: Row, query: string): real {
    var q := TrimSpace(ToLower(query));
    if q == "" then 0.0
    else if Contains(ToLower(r.item.subject), q) then 1.0
    else if Contains(ToLower(r.item.body), q) then 0.75
    else 0.0
  }

  function GraphOf(ctx: Context, r: Row): GraphStat {
    var k := Key(r.item.memorySpace, r.item.memoryId);
    if k in ctx.graph then ctx.graph[k] else GraphStat(0, 0.0, 0.0)
  }

  function ArtifactsOf(ctx: Context, r: Row): ArtifactStat {
    var k := Key(r.item.memorySpace, r.item.memoryId);
    if k in ctx.artifacts then ctx.artifacts[k] else ArtifactStat(0, 0)
  }

  /** The score a row is sorted by, transcript bonus included. */
  function Score(ctx: Context, r: Row): real {
    ScoreUnder(RankingProfile(ctx.profileName), ctx, r)
  }

  function ScoreUnder(p: Profile, ctx: Context, r: Row): real {
    Base(r) + SourcePart(p, r) + StatsPart(p, ctx, r) + TextPart(p, ctx, r) +
    (if r.item.memorySpace == "transcript" then p.transcriptBonus else 0.0)
  }

  function Base(r: Row): real {
    (3 - BucketOf(r)) as real * 1000.0 + r.trustWeight * 100.0
  }

  function Part(score: real, weight: real): real {
    score * weight
  }

  function SourcePart(p: Profile, r: Row): real {
    Part(SourceScore(r, p), p.sourceWeight)
  }

  function StatsPart(p: Profile, ctx: Context, r: Row): real {
    Part(GraphScore(GraphOf(ctx, r)), p.graphWeight) + Part(ArtifactScore(ArtifactsOf(ctx, r)), p.artifactWeight)
  }

  function TextPart(p: Profile, ctx: Context, r: Row): real {
    Part(RecencyScore(r.item.authoredAtMS, ctx.nowMS), p.recencyWeight) +
    Part(ExactMatchScore(r, ctx.query), p.exactMatchBoost)
  }

  /** Sorted before: higher score, then later, then smaller unit id. */
  predicate Before(ctx: Context, a: Row, b: Row) {
    if Score(ctx, a) != Score(ctx, b) then Score(ctx, a) > Score(ctx, b)
    else if a.item.authoredAtMS != b.item.authoredAtMS then a.item.authoredAtMS > b.item.authoredAtMS
    else StringLess(a.item.unitId, b.item.unitId)
  }

  // ---------------------------------------------------------------- ranking

  ghost predicate Sorted(ctx: Context, rows: seq<Row>) {
    forall i, j :: 0 <= i < j < |rows| ==> !Before(ctx, rows[j], rows[i])
  }

  function Items(rows: seq<Row>): seq<RecallResult> {
    seq(|rows|, i requires 0 <= i < |rows| => rows[i].item)
  }

  function Cut(rows: seq<Row>, limit: nat): seq<Row> {
    if |rows| > limit then rows[..limit] else rows
  }

  /** The first results of some sorted arrangement of the rows. */
  ghost predicate IsRanking(ctx: Context, rows: seq<Row>, limit: nat, out: seq<RecallResult>) {
    exists sorted :: Sorted(ctx, sorted) && multiset(sorted) == multiset(rows) && out == Items(Cut(sorted, limit))
  }

  /** Stable insertion sort, cut, projection. */
  method RankRetrievalRows(ctx: Context, rows: seq<Row>, limit: nat) returns (out: seq<RecallResult>)
    ensures IsRanking(ctx, rows, limit, out)
  {
    var scored: seq<Row> := [];
    for i := 0 to |rows|
      invariant Sorted(ctx, scored) && multiset(scored) == multiset(rows[..i])
    {
      var at := PlaceOf(ctx, scored, rows[i]);
      InsertKeepsSorted(ctx, scored, at, rows[i]);
      scored := scored[..at] + [rows[i]] + scored[at..];
      assert rows[..i + 1] == rows[..i] + [rows[i]];
    }
    assert rows[..|rows|] == rows;
    out := Project(Cut(scored, limit));
    assert Sorted(ctx, scored) && out == Items(Cut(scored, limit));
  }

  /** Behind everything the row does not come before. */
  method PlaceOf(ctx: Context, scored: seq<Row>, row: Row) returns (at: nat)
    ensures at <= |scored| && (at > 0 ==> !Before(ctx, row, scored[at - 1]))
    ensures forall k :: at <= k < |scored| ==> Before(ctx, row, scored[k])
  {
    at := |scored|;
    while at > 0 && Before(ctx, row, scored[at - 1])
      invariant 0 <= at <= |scored|
      invariant forall k :: at <= k < |scored| ==> Before(ctx, row, scored[k])
    {
      at := at - 1;
    }
  }

  method Project(rows: seq<Row>) returns (out: seq<RecallResult>)
    ensures out == Items(rows)
  {
    out := [];
    for i := 0 to |rows|
      invariant out == Items(rows[..i])
    {
      assert rows[..i + 1] == rows[..i] + [rows[i]];
      out := out + [rows[i].item];
    }
    assert rows[..|rows|] == rows;
  }

  lemma BeforeAsymmetric(ctx: Context, a: Row, b: Row)
    requires Before(ctx, a, b)
    ensures !Before(ctx, b, a)
  {
    if StringLess(b.item.unitId, a.item.unitId) && StringLess(a.item.unitId, b.item.unitId) {
      StringLessTransitive(a.item.unitId, b.item.unitId, a.item.unitId);
      StringLessIrreflexive(a.item.unitId);
    }
  }

  /** Not being sorted before is transitive, so a sorted list is sorted pairwise. */
  lemma NotBeforeTransitive(ctx: Context, a: Row, b: Row, c: Row)
    requires !Before(ctx, b, a) && !Before(ctx, c, b)
    ensures !Before(ctx, c, a)
  {
    StringLessTotal(a.item.unitId, b.item.unitId);
    StringLessTotal(b.item.unitId, c.item.unitId);
    if StringLess(c.item.unitId, a.item.unitId) {
      if StringLess(a.item.unitId, b.item.unitId) {
        StringLessTransitive(c.item.unitId, a.item.unitId, b.item.unitId);
      }
    }
  }

  lemma InsertKeepsSorted(ctx: Context, rows: seq<Row>, at: nat, row: Row)
    requires Sorted(ctx, rows) && at <= |rows|
    requires at > 0 ==> !Before(ctx, row, rows[at - 1])
    requires forall k :: at <= k < |rows| ==> Before(ctx, row, rows[k])
    ensures Sorted(ctx, rows[..at] + [row] + rows[at..])
    ensures multiset(rows[..at] + [row] + rows[at..]) == multiset(rows) + multiset{row}
  {
    forall k | 0 <= k < at
      ensures !Before(ctx, row, rows[k])
    {
      if k < at - 1 {
        NotBeforeTransitive(ctx, rows[k], rows[at - 1], row);
      }
    }
    forall k | at <= k < |rows|
      ensures !Before(ctx, rows[k], row)
    {
      BeforeAsymmetric(ctx, row, rows[k]);
    }
    ConcatSorted(ctx, rows[..at], [row]);
    PrefixBeforeSuffix(ctx, rows, at, row);
    ConcatSorted(ctx, rows[..at] + [row], rows[at..]);
    MultisetInsert(rows, at, row);
  }

  lemma PrefixBeforeSuffix(ctx: Context, rows: seq<Row>, at: nat, row: Row)
    requires Sorted(ctx, rows) && at <= |rows|
    requires forall k :: at <= k < |rows| ==> !Before(ctx, rows[k], row)
    ensures forall i, j :: 0 <= i < at + 1 && 0 <= j < |rows| - at ==>
              !Before(ctx, rows[at..][j], (rows[..at] + [row])[i])
  {
    forall i, j | 0 <= i < at + 1 && 0 <= j < |rows| - at
      ensures !Before(ctx, rows[at..][j], (rows[..at] + [row])[i])
    {
      assert rows[at..][j] == rows[at + j];
    }
  }

  lemma ConcatSorted(ctx: Context, a: seq<Row>, b: seq<Row>)
    requires Sorted(ctx, a) && Sorted(ctx, b)
    requires forall i, j :: 0 <= i < |a| && 0 <= j < |b| ==> !Before(ctx, b[j], a[i])
    ensures Sorted(ctx, a + b)
  {}

  // ---------------------------------------------------------------- determinism

  /** The query yields one row per retrieval unit. */
  ghost predicate OneRowPerUnit(rows: seq<Row>) {
    forall r, s :: r in rows && s in rows && r.item.unitId == s.item.unitId ==> r == s
  }

  /** With one row per unit there is one sorted order of a set of rows. */
  lemma SortedUnique(ctx: Context, a: seq<Row>, b: seq<Row>)
    requires Sorted(ctx, a) && Sorted(ctx, b) && multiset(a) == multiset(b) && OneRowPerUnit(a)
    ensures a == b
  {
    var before := (r: Row, s: Row) => Before(ctx, r, s);
    forall r, s | r in a && s in a
      ensures r == s || before(r, s) || before(s, r)
    {
      if r != s {
        Ordered(ctx, r, s);
      }
    }
    SortedByUnique(before, a, b);
  }

  lemma Ordered(ctx: Context, r: Row, s: Row)
    requires r.item.unitId != s.item.unitId
    ensures Before(ctx, r, s) || Before(ctx, s, r)
  {
    StringLessTotal(r.item.unitId, s.item.unitId);
  }

  /**
    The ranking is a function of the set of rows: whatever order they come in, and whatever the sort does with
    them, the results are the same.
   */
  lemma RankingDeterministic(ctx: Context, rows: seq<Row>, others: seq<Row>, limit: nat, out: seq<RecallResult>,
                             otherOut: seq<RecallResult>)
    requires multiset(rows) == multiset(others) && OneRowPerUnit(rows)
    requires IsRanking(ctx, rows, limit, out) && IsRanking(ctx, others, limit, otherOut)
    ensures out == otherOut
  {
    var a :| Sorted(ctx, a) && multiset(a) == multiset(rows) && out == Items(Cut(a, limit));
    var b :| Sorted(ctx, b) && multiset(b) == multiset(others) && otherOut == Items(Cut(b, limit));
    assert OneRowPerUnit(a) by {
      assert forall r :: r in a <==> r in multiset(a);
      assert forall r :: r in rows <==> r in multiset(rows);
    }
    SortedUnique(ctx, a, b);
  }

  // ---------------------------------------------------------------- dominance

  lemma ScoresBounded(ctx: Context, r: Row)
    ensures 0.0 <= GraphScore(GraphOf(ctx, r)) <= 1.0
    ensures 0.0 <= ArtifactScore(ArtifactsOf(ctx, r)) <= 1.0
    ensures 0.0 <= RecencyScore(r.item.authoredAtMS, ctx.nowMS) <= 1.0
    ensures 0.0 <= ExactMatchScore(r, ctx.query) <= 1.0
  {
    if 0 < r.item.authoredAtMS <= ctx.nowMS {
      var ageHours := (ctx.nowMS - r.item.authoredAtMS) as real / 3600000.0;
      assert 1.0 + ageHours / 24.0 >= 1.0;
      ReciprocalAtMostOne(1.0 + ageHours / 24.0);
    }
  }

  lemma ReciprocalAtMostOne(x: real)
    requires x >= 1.0
    ensures 0.0 <= 1.0 / x <= 1.0
  {}

  lemma ShareBounded(w: real, rank: int)
    requires w >= 0.0 && rank > 0
    ensures 0.0 <= w / rank as real <= w
  {
    var q, r := w / rank as real, rank as real;
    assert q * r == w;
    assert q >= 0.0 by {
      if q < 0.0 {
        ProductOfSigns(q, r);
      }
    }
    AtMostMultiple(q, r);
  }

  lemma ProductOfSigns(q: real, r: real)
    requires q < 0.0 && r >= 1.0
    ensures q * r < 0.0
  {}

  lemma AtMostMultiple(q: real, r: real)
    requires q >= 0.0 && r >= 1.0
    ensures q <= q * r
  {
    assert q * r == q + q * (r - 1.0);
  }

  lemma SourceBounded(r: Row, p: Profile)
    requires p.semanticWeight >= 0.0 && p.lexicalWeight >= 0.0
    ensures 0.0 <= SourceScore(r, p) <= p.semanticWeight + p.lexicalWeight
  {
    if r.semanticRank > 0 {
      ShareBounded(p.semanticWeight, r.semanticRank);
    }
    if r.lexicalRank > 0 {
      ShareBounded(p.lexicalWeight, r.lexicalRank);
    }
  }

  ghost predicate Weights(p: Profile) {
    p.semanticWeight > 0.0 && p.lexicalWeight > 0.0 && p.sourceWeight > 0.0 && p.graphWeight >= 0.0 &&
    p.artifactWeight >= 0.0 && p.recencyWeight >= 0.0 && p.exactMatchBoost >= 0.0 && p.transcriptBonus >= 0.0
  }

  /** What the two searches add. */
  lemma SourcePartBounded(p: Profile, r: Row)
    requires Weights(p)
    ensures 0.0 <= SourcePart(p, r) <= (p.semanticWeight + p.lexicalWeight) * p.sourceWeight
    ensures SourceScore(r, p) > 0.0 ==> SourcePart(p, r) > 0.0
  {
    SourceBounded(r, p);
    ScaledBound(SourceScore(r, p), p.semanticWeight + p.lexicalWeight, p.sourceWeight);
  }

  lemma ScaledBound(x: real, bound: real, w: real)
    requires 0.0 <= x <= bound && w > 0.0
    ensures 0.0 <= x * w <= bound * w && (x > 0.0 ==> x * w > 0.0)
  {
    assert (bound - x) * w == bound * w - x * w;
  }

  lemma PartBounded(score: real, weight: real)
    requires 0.0 <= score <= 1.0 && weight >= 0.0
    ensures 0.0 <= Part(score, weight) <= weight
  {
    assert (1.0 - score) * weight == weight - score * weight;
  }

  /** What statistics, age and text add. */
  lemma OtherPartsBounded(p: Profile, ctx: Context, r: Row)
    requires Weights(p)
    ensures 0.0 <= StatsPart(p, ctx, r) <= p.graphWeight + p.artifactWeight
    ensures 0.0 <= TextPart(p, ctx, r) <= p.recencyWeight + p.exactMatchBoost
  {
    ScoresBounded(ctx, r);
    PartBounded(GraphScore(GraphOf(ctx, r)), p.graphWeight);
    PartBounded(ArtifactScore(ArtifactsOf(ctx, r)), p.artifactWeight);
    PartBounded(RecencyScore(r.item.authoredAtMS, ctx.nowMS), p.recencyWeight);
    PartBounded(ExactMatchScore(r, ctx.query), p.exactMatchBoost);
  }

  /** All that a score adds to its bucket and trust part, for any row in any context. */
  lemma AddedUnder(p: Profile, ctx: Context, r: Row)
    requires Weights(p)
    ensures Base(r) <= ScoreUnder(p, ctx, r) <=
            Base(r) + (p.semanticWeight + p.lexicalWeight) * p.sourceWeight + p.graphWeight + p.artifactWeight +
            p.recencyWeight + p.exactMatchBoost + p.transcriptBonus
  {
    SourcePartBounded(p, r);
    OtherPartsBounded(p, ctx, r);
  }

  lemma AddedBounded(ctx: Context, r: Row)
    ensures Base(r) <= Score(ctx, r) <= Base(r) + 188.2
  {
    AddedUnder(JAPANESE, ctx, r);
    AddedUnder(DEFAULT, ctx, r);
  }

  /** In any context, with any rows at all, trust weights in [0, 1] leave the bucket in charge. */
  lemma BucketDominates(ctx: Context, better: Row, worse: Row)
    requires BucketOf(better) < BucketOf(worse)
    requires 0.0 <= better.trustWeight && worse.trustWeight <= 1.0
    ensures Before(ctx, better, worse) && !Before(ctx, worse, better)
  {
    AddedBounded(ctx, better);
    AddedBounded(ctx, worse);
  }

  ghost predicate TrustInRange(rows: seq<Row>) {
    forall r <- rows :: 0.0 <= r.trustWeight <= 1.0
  }

  /** In the sorted list buckets never improve, so the cut drops no row while keeping one of a worse bucket. */
  lemma CutRespectsBuckets(ctx: Context, sorted: seq<Row>, limit: nat, i: nat, j: nat)
    requires Sorted(ctx, sorted) && TrustInRange(sorted) && i < j < |sorted|
    ensures BucketOf(sorted[i]) <= BucketOf(sorted[j])
    ensures i < |Cut(sorted, limit)| <= j ==> BucketOf(Cut(sorted, limit)[i]) <= BucketOf(sorted[j])
  {
    if BucketOf(sorted[j]) < BucketOf(sorted[i]) {
      assert 0.0 <= sorted[i].trustWeight <= 1.0 && 0.0 <= sorted[j].trustWeight <= 1.0;
      BucketDominates(ctx, sorted[j], sorted[i]);
    }
  }

  // ---------------------------------------------------------------- how far trust can reach

  /** Statistics are loaded for shared and private memories only, for those that have edges or spans. */
  ghost predicate LoadedStats(ctx: Context) {
    ctx.nowMS > 0 &&
    (forall k <- ctx.graph :: k.memorySpace in {"shared", "private"} && ctx.graph[k].edgeCount > 0) &&
    (forall k <- ctx.artifacts :: k.memorySpace in {"shared", "private"} && ctx.artifacts[k].spanCount > 0 &&
                                  ctx.artifacts[k].quoteCount <= ctx.artifacts[k].spanCount)
  }

  /**
    What the candidate query returns: a row that at least one search ranked and whose signature is not known
    to be invalid. Signatures and peer trust are joined to shared memories only, verification to memories
    only, and chunks have no title.
   */
  ghost predicate LoadedRow(r: Row) {
    r.item.memorySpace in {"shared", "private", "transcript"} && r.signatureStatus != "invalid_signature" &&
    r.semanticRank >= 0 && r.lexicalRank >= 0 && r.semanticRank + r.lexicalRank > 0 &&
    (r.item.memorySpace != "shared" ==> !r.hasSignature && r.trustWeight == 1.0) &&
    (r.item.memorySpace == "transcript" ==> r.signatureStatus == "" && r.item.subject == "")
  }

  lemma ShareOfPositive(w: real, rank: int)
    requires w > 0.0 && rank > 0
    ensures w / rank as real > 0.0
  {
    var q, r := w / rank as real, rank as real;
    assert q * r == w;
    if q <= 0.0 {
      ProductNotPositive(q, r);
    }
  }

  lemma ProductNotPositive(q: real, r: real)
    requires q <= 0.0 && r >= 1.0
    ensures q * r <= 0.0
  {}

  lemma SourcePositive(r: Row, p: Profile)
    requires LoadedRow(r) && p.semanticWeight > 0.0 && p.lexicalWeight > 0.0
    ensures SourceScore(r, p) > 0.0
  {
    if r.semanticRank > 0 {
      ShareOfPositive(p.semanticWeight, r.semanticRank);
    }
    if r.lexicalRank > 0 {
      ShareOfPositive(p.lexicalWeight, r.lexicalRank);
    }
  }

  lemma NoStatsForChunks(p: Profile, ctx: Context, r: Row)
    requires LoadedStats(ctx) && r.item.memorySpace == "transcript"
    ensures StatsPart(p, ctx, r) == 0.0
  {
    assert GraphScore(GraphOf(ctx, r)) == 0.0 && ArtifactScore(ArtifactsOf(ctx, r)) == 0.0;
  }

  /** What a loaded row adds: something, and at most its text parts with either the statistics or the bonus. */
  lemma LoadedUnder(p: Profile, ctx: Context, r: Row)
    requires Weights(p) && LoadedStats(ctx) && LoadedRow(r) && p.transcriptBonus <= p.graphWeight + p.artifactWeight
    ensures Base(r) < ScoreUnder(p, ctx, r) <=
            Base(r) + (p.semanticWeight + p.lexicalWeight) * p.sourceWeight + p.graphWeight + p.artifactWeight +
            p.recencyWeight + p.exactMatchBoost
  {
    SourcePositive(r, p);
    SourcePartBounded(p, r);
    OtherPartsBounded(p, ctx, r);
    if r.item.memorySpace == "transcript" {
      NoStatsForChunks(p, ctx, r);
    }
  }

  lemma LoadedBounded(ctx: Context, r: Row)
    requires LoadedStats(ctx) && LoadedRow(r)
    ensures Base(r) < Score(ctx, r) <= Base(r) + 148.2
  {
    LoadedUnder(JAPANESE, ctx, r);
    LoadedUnder(DEFAULT, ctx, r);
  }

  // Two shared memories on which everything but bucket and trust speaks for the worse bucket.
  const EXTREME := Context(map[Key("shared", "b") := GraphStat(5, 5.0, 0.0)],
                           map[Key("shared", "b") := ArtifactStat(4, 0)], "ja", "x", 1)

  function LeastRow(trust: real, rank: int): Row {
    Row(RecallResult("a", "shared", "a", "", "", -1), "valid", true, trust, 0, rank)
  }

  function GreatestRow(trust: real): Row {
    Row(RecallResult("b", "shared", "b", "x", "", 2), "missing_signature", false, trust, 1, 1)
  }

  lemma ExtremeProfile()
    ensures RankingProfile("ja").name == "ja-default"
    ensures ExactMatchScore(GreatestRow(0.0), "x") == 1.0 && ExactMatchScore(LeastRow(0.0, 1), "x") == 0.0
  {
    assert ToLower("x") == "x" && TrimLeft("x") == "x" && TrimRight("x") == "x";
    assert OccursAt("x", "x", 0) && !OccursAt("", "x", 0);
    assert ToLower("") == "";
    assert TrimLeft("ja") == "ja" && TrimRight("ja") == "ja";
    assert ToLower("ja") == "ja";
  }

  lemma GreatestScore(u: real)
    ensures BucketOf(GreatestRow(u)) == 1 && Score(EXTREME, GreatestRow(u)) == 2000.0 + u * 100.0 + 148.2
  {
    ExtremeProfile();
    var greatest := GreatestRow(u);
    assert ExactMatchScore(greatest, "x") == ExactMatchScore(GreatestRow(0.0), "x");
    assert GraphScore(GraphOf(EXTREME, greatest)) == 1.0 && ArtifactScore(ArtifactsOf(EXTREME, greatest)) == 1.0;
    assert SourceScore(greatest, RankingProfile("ja")) == 1.3;
  }

  lemma LeastScore(t: real, rank: int)
    requires rank > 0
    ensures BucketOf(LeastRow(t, rank)) == 0
    ensures Score(EXTREME, LeastRow(t, rank)) == 3000.0 + t * 100.0 + (0.5 / rank as real) * 24.0
  {
    ExtremeProfile();
    var least := LeastRow(t, rank);
    assert ExactMatchScore(least, "x") == ExactMatchScore(LeastRow(0.0, 1), "x");
    assert GraphScore(GraphOf(EXTREME, least)) == 0.0 && ArtifactScore(ArtifactsOf(EXTREME, least)) == 0.0;
    assert SourceScore(least, RankingProfile("ja")) == 0.5 / rank as real;
  }

  /** A rank so low that it adds less than a given amount. */
  lemma LowRank(amount: real) returns (rank: int)
    requires amount > 0.0
    ensures rank > 0 && (0.5 / rank as real) * 24.0 < amount
  {
    var q := 12.0 / amount;
    assert q * amount == 12.0;
    ShareOfAmount(amount, q);
    rank := q.Floor + 1;
    RankBelow(rank as real, q, amount);
  }

  lemma ShareOfAmount(amount: real, q: real)
    requires amount > 0.0 && q * amount == 12.0
    ensures q > 0.0
  {
    if q <= 0.0 {
      NonNegativeProduct(-q, amount);
    }
  }

  lemma NonNegativeProduct(a: real, b: real)
    requires a >= 0.0 && b >= 0.0
    ensures a * b >= 0.0 && (-a) * b <= 0.0
  {}

  lemma RankBelow(r: real, q: real, amount: real)
    requires 0.0 < q < r && amount > 0.0 && q * amount == 12.0
    ensures (0.5 / r) * 24.0 < amount
  {
    var h := (0.5 / r) * 24.0;
    assert (0.5 / r) * r == 0.5;
    assert h * r == 12.0;
    SmallerFactor(h, r, amount, q);
  }

  lemma SmallerFactor(h: real, r: real, amount: real, q: real)
    requires 0.0 < q < r && amount > 0.0 && h * r == amount * q
    ensures h < amount
  {
    assert (h - amount) * r == amount * (q - r);
    assert amount * (q - r) < 0.0;
    if h >= amount {
      NonNegativeProduct(h - amount, r);
    }
  }

  /** Wins over every row of a worse bucket, whatever the loaded context and all other measures are. */
  ghost predicate Dominates(betterTrust: real, worseTrust: real) {
    forall ctx, better, worse ::
      LoadedStats(ctx) && LoadedRow(better) && LoadedRow(worse) && BucketOf(better) < BucketOf(worse) &&
      better.trustWeight == betterTrust && worse.trustWeight == worseTrust
      ==> Before(ctx, better, worse)
  }

  /**
    How far trust can reach over what recall loads: a better signature bucket wins on every other measure if
    and only if the worse row is trusted by at most 8.518 above the better one, that gap included.
   */
  lemma DominanceIff(betterTrust: real, worseTrust: real)
    ensures Dominates(betterTrust, worseTrust) <==> worseTrust - betterTrust <= 8.518
  {
    if worseTrust - betterTrust <= 8.518 {
      forall ctx, better: Row, worse: Row | LoadedStats(ctx) && LoadedRow(better) && LoadedRow(worse) &&
                                            BucketOf(better) < BucketOf(worse) &&
                                            better.trustWeight == betterTrust && worse.trustWeight == worseTrust
        ensures Before(ctx, better, worse)
      {
        LoadedBounded(ctx, better);
        LoadedBounded(ctx, worse);
      }
    } else {
      var rank := LowRank((worseTrust - betterTrust) * 100.0 - 851.8);
      GreatestScore(worseTrust);
      LeastScore(betterTrust, rank);
      assert LoadedStats(EXTREME) && LoadedRow(LeastRow(betterTrust, rank)) && LoadedRow(GreatestRow(worseTrust));
      assert !Before(EXTREME, LeastRow(betterTrust, rank), GreatestRow(worseTrust));
    }
  }

  // ---------------------------------------------------------------- merging candidates

  datatype Candidate = Candidate(unitId: string, semanticRank: nat, semanticDistance: real, lexicalRank: nat,
                                 lexicalBM25: real)

  type Merged = map<string, Candidate>

  /** One candidate into the map: each kind of rank keeps its smallest positive value with its measure. */
  function MergeOne(dst: Merged, c: Candidate): Merged {
    if c.unitId !in dst then dst[c.unitId := c]
    else
      var known := dst[c.unitId];
      var semantic := if c.semanticRank > 0 && (known.semanticRank == 0 || c.semanticRank < known.semanticRank)
                      then known.(semanticRank := c.semanticRank, semanticDistance := c.semanticDistance) else known;
      var both := if c.lexicalRank > 0 && (known.lexicalRank == 0 || c.lexicalRank < known.lexicalRank)
                  then semantic.(lexicalRank := c.lexicalRank, lexicalBM25 := c.lexicalBM25) else semantic;
      dst[c.unitId := both]
  }

  function MergeAll(dst: Merged, src: seq<Candidate>): Merged {
    if |src| == 0 then dst else MergeOne(MergeAll(dst, src[..|src| - 1]), src[|src| - 1])
  }

  method MergeRetrievalCandidates(dst0: Merged, src: seq<Candidate>) returns (dst: Merged)
    ensures dst == MergeAll(dst0, src)
  {
    dst := dst0;
    for i := 0 to |src|
      invariant dst == MergeAll(dst0, src[..i])
    {
      assert src[..i + 1][..i] == src[..i];
      var candidate := src[i];
      var key := candidate.unitId;
      if key in dst {
        var existing := dst[key];
        if candidate.semanticRank > 0 &&
           (existing.semanticRank == 0 || candidate.semanticRank < existing.semanticRank) {
          existing := existing.(semanticRank := candidate.semanticRank, semanticDistance := candidate.semanticDistance);
        }
        if candidate.lexicalRank > 0 && (existing.lexicalRank == 0 || candidate.lexicalRank < existing.lexicalRank) {
          existing := existing.(lexicalRank := candidate.lexicalRank, lexicalBM25 := candidate.lexicalBM25);
        }
        dst := dst[key := existing];
        continue;
      }
      dst := dst[key := candidate];
    }
    assert src[..|src|] == src;
  }

  /** A rank determines its measure, as it does in what the collectors return: ranks number their rows. */
  ghost predicate Consistent(src: seq<Candidate>) {
    forall a, b :: a in src && b in src && a.unitId == b.unitId ==>
      (a.semanticRank == b.semanticRank ==> a.semanticDistance == b.semanticDistance) &&
      (a.lexicalRank == b.lexicalRank ==> a.lexicalBM25 == b.lexicalBM25)
  }

  /** The entry of a unit: its best ranks, each with the measure of a candidate that has it. */
  ghost predicate BestOf(src: seq<Candidate>, unitId: string, m: Candidate) {
    m.unitId == unitId &&
    (exists c :: c in src && c.unitId == unitId && c.semanticRank == m.semanticRank &&
                 c.semanticDistance == m.semanticDistance) &&
    (exists c :: c in src && c.unitId == unitId && c.lexicalRank == m.lexicalRank && c.lexicalBM25 == m.lexicalBM25) &&
    (forall c :: c in src && c.unitId == unitId ==>
      (c.semanticRank > 0 ==> 0 < m.semanticRank <= c.semanticRank) &&
      (c.lexicalRank > 0 ==> 0 < m.lexicalRank <= c.lexicalRank))
  }

  lemma {:induction false} MergedIsBest(src: seq<Candidate>, unitId: string)
    ensures unitId in MergeAll(map[], src) <==> exists c :: c in src && c.unitId == unitId
    ensures unitId in MergeAll(map[], src) ==> BestOf(src, unitId, MergeAll(map[], src)[unitId])
  {
    if |src| > 0 {
      var before, last := src[..|src| - 1], src[|src| - 1];
      MergedIsBest(before, unitId);
      assert src == before + [last];
      assert last in src && forall c :: c in before ==> c in src;
      BestAfter(before, last, unitId);
    }
  }

  lemma BestAfter(before: seq<Candidate>, last: Candidate, unitId: string)
    requires unitId in MergeAll(map[], before) <==> exists c :: c in before && c.unitId == unitId
    requires unitId in MergeAll(map[], before) ==> BestOf(before, unitId, MergeAll(map[], before)[unitId])
    ensures unitId in MergeOne(MergeAll(map[], before), last) ==>
              BestOf(before + [last], unitId, MergeOne(MergeAll(map[], before), last)[unitId])
  {
    var dst, all := MergeAll(map[], before), before + [last];
    assert last in all && forall c :: c in before ==> c in all;
    assert forall c :: c in all ==> c in before || c == last;
    if unitId in dst {
      var c :| c in before && c.unitId == unitId && c.semanticRank == dst[unitId].semanticRank &&
               c.semanticDistance == dst[unitId].semanticDistance;
      var d :| d in before && d.unitId == unitId && d.lexicalRank == dst[unitId].lexicalRank &&
               d.lexicalBM25 == dst[unitId].lexicalBM25;
      assert c in all && d in all;
    }
  }

  /** The merged candidates depend on the set of candidates only: merging vector rows first or last is the same. */
  lemma MergeOrderIrrelevant(a: seq<Candidate>, b: seq<Candidate>)
    requires Consistent(a) && forall c :: c in a <==> c in b
    ensures MergeAll(map[], a) == MergeAll(map[], b)
  {
    var ma, mb := MergeAll(map[], a), MergeAll(map[], b);
    forall u
      ensures u in ma <==> u in mb
      ensures u in ma ==> ma[u] == mb[u]
    {
      MergedIsBest(a, u);
      MergedIsBest(b, u);
      if u in ma && u in mb {
        SameBest(a, b, u, ma[u], mb[u]);
      }
    }
  }

  lemma SameBest(a: seq<Candidate>, b: seq<Candidate>, unitId: string, m: Candidate, n: Candidate)
    requires Consistent(a) && (forall c :: c in a <==> c in b)
    requires BestOf(a, unitId, m) && BestOf(b, unitId, n)
    ensures m == n
  {
    var c :| c in a && c.unitId == unitId && c.semanticRank == m.semanticRank && c.semanticDistance == m.semanticDistance;
    var d :| d in b && d.unitId == unitId && d.semanticRank == n.semanticRank && d.semanticDistance == n.semanticDistance;
    var e :| e in a && e.unitId == unitId && e.lexicalRank == m.lexicalRank && e.lexicalBM25 == m.lexicalBM25;
    var f :| f in b && f.unitId == unitId && f.lexicalRank == n.lexicalRank && f.lexicalBM25 == n.lexicalBM25;
  }

  lemma {:induction false} MergeConcat(dst: Merged, a: seq<Candidate>, b: seq<Candidate>)
    ensures MergeAll(dst, a + b) == MergeAll(MergeAll(dst, a), b)
  {
    if |b| == 0 {
      assert a + b == a;
    } else {
      assert (a + b)[..|a + b| - 1] == a + b[..|b| - 1];
      MergeConcat(dst, a, b[..|b| - 1]);
    }
  }

  lemma VectorAndLexicalCommute(vector: seq<Candidate>, lexical: seq<Candidate>)
    requires Consistent(vector + lexical)
    ensures MergeAll(MergeAll(map[], vector), lexical) == MergeAll(MergeAll(map[], lexical), vector)
  {
    MergeConcat(map[], vector, lexical);
    MergeConcat(map[], lexical, vector);
    MergeOrderIrrelevant(vector + lexical, lexical + vector);
  }
}
