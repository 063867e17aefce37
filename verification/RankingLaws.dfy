/** What raises and what lowers a row in recall, measure by measure, and what a cut ranking shows. */
module RankingLaws {
  import opened Prelude
  import opened Strings
  import opened Ranking

  // ---------------------------------------------------------------- measures

  /** Private and validly signed memories come first, those of unknown peers last, all others between. */
  lemma BucketLaw(r: Row)
    ensures BucketOf(r) == 0 <==> r.item.memorySpace == "private" || r.signatureStatus == "valid"
    ensures BucketOf(r) == 2 <==> r.item.memorySpace != "private" && r.signatureStatus == "unknown_peer"
    ensures BucketOf(r) <= 2
  {}

  lemma Reciprocals(x: real, y: real)
    requires 0.0 < x < y
    ensures 1.0 / y < 1.0 / x
  {
    var a := 1.0 / x;
    assert a * x == 1.0;
    PositiveReciprocal(x);
    Positive(a, y - x);
    assert a * (y - x) == a * y - a * x;
    BelowQuotient(1.0, a, y);
  }

  lemma BelowQuotient(v: real, a: real, y: real)
    requires y > 0.0 && v < a * y
    ensures v / y < a
  {}

  lemma Positive(a: real, b: real)
    requires a > 0.0 && b > 0.0
    ensures a * b > 0.0
  {}

  /** Days of age halve the score first and ever less later; what is newer is more recent. */
  lemma RecencyLaw(authoredAtMS: int, later: int, nowMS: int)
    requires 0 < authoredAtMS < later <= nowMS
    ensures 0.0 < RecencyScore(authoredAtMS, nowMS) < RecencyScore(later, nowMS) <= 1.0
    ensures RecencyScore(nowMS, nowMS) == 1.0 && RecencyScore(nowMS + 1, nowMS) == 1.0
    ensures nowMS - authoredAtMS == 86400000 ==> RecencyScore(authoredAtMS, nowMS) == 0.5
    ensures RecencyScore(0, nowMS) == 0.0 && RecencyScore(authoredAtMS, 0) == 0.0
  {
    var older, newer := AgeTerm(authoredAtMS, nowMS), AgeTerm(later, nowMS);
    Ages(nowMS - later, nowMS - authoredAtMS);
    Reciprocals(newer, older);
    if newer > 1.0 {
      Reciprocals(1.0, newer);
    }
    assert AgeTerm(nowMS, nowMS) == 1.0;
    PositiveReciprocal(older);
  }

  lemma PositiveReciprocal(x: real)
    requires x > 0.0
    ensures 1.0 / x > 0.0
  {
    var a := 1.0 / x;
    assert a * x == 1.0;
    if a <= 0.0 {
      ProductNotPositive(a, x);
    }
  }

  function AgeTerm(authoredAtMS: int, nowMS: int): real {
    1.0 + ((nowMS - authoredAtMS) as real / 3600000.0) / 24.0
  }

  lemma Ages(a: nat, b: nat)
    requires a < b
    ensures 1.0 <= 1.0 + (a as real / 3600000.0) / 24.0 < 1.0 + (b as real / 3600000.0) / 24.0
  {}

  /** The share of one source. */
  function Share(w: real, rank: int): real {
    if rank > 0 then w / rank as real else 0.0
  }

  lemma ShareLaw(w: real, rank: int, worse: int)
    requires w > 0.0 && 0 < rank < worse
    ensures 0.0 < Share(w, worse) < Share(w, rank) <= w
  {
    Reciprocals(rank as real, worse as real);
    PositiveReciprocal(worse as real);
    Positive(w, 1.0 / worse as real);
    Positive(w, 1.0 / rank as real - 1.0 / worse as real);
    assert w * (1.0 / rank as real - 1.0 / worse as real) == w / rank as real - w / worse as real;
    assert w * (1.0 / worse as real) == w / worse as real;
    if rank > 1 {
      Reciprocals(1.0, rank as real);
      Positive(w, 1.0 - 1.0 / rank as real);
      assert w * (1.0 - 1.0 / rank as real) == w - w / rank as real;
    }
  }

  /** A better rank in either source scores higher, a missing one adds nothing, and the vector search counts for more. */
  lemma SourceLaw(p: Profile, r: Row, worse: int)
    requires p in {JAPANESE, DEFAULT} && 0 < r.semanticRank < worse && 0 < r.lexicalRank < worse
    ensures SourceScore(r, p) > SourceScore(r.(semanticRank := worse), p) > SourceScore(r.(semanticRank := 0), p)
    ensures SourceScore(r, p) > SourceScore(r.(lexicalRank := worse), p) > SourceScore(r.(lexicalRank := 0), p)
    ensures SourceScore(r.(semanticRank := 0, lexicalRank := 0), p) == 0.0
    ensures SourceScore(r.(semanticRank := 1, lexicalRank := worse), p) >
            SourceScore(r.(semanticRank := worse, lexicalRank := 1), p)
  {
    ShareLaw(p.semanticWeight, r.semanticRank, worse);
    ShareLaw(p.lexicalWeight, r.lexicalRank, worse);
    ShareLaw(p.semanticWeight - p.lexicalWeight, 1, worse);
    assert (p.semanticWeight - p.lexicalWeight) / worse as real ==
           p.semanticWeight / worse as real - p.lexicalWeight / worse as real;
  }

  /** Support never lowers a row, contradiction never raises it, and both count through clamped scores. */
  lemma GraphLaw(stat: GraphStat, more: real)
    requires more >= 0.0
    ensures GraphScore(stat.(supportWeight := stat.supportWeight + more)) >= GraphScore(stat)
    ensures GraphScore(stat.(contradictWeight := stat.contradictWeight + more)) <= GraphScore(stat)
    ensures GraphScore(stat.(edgeCount := stat.edgeCount + 1)) >= GraphScore(stat)
    ensures GraphScore(GraphStat(2, 1.0, 0.4)) == 0.4
    ensures GraphScore(GraphStat(0, 0.0, 0.0)) == 0.0 && GraphScore(GraphStat(0, 0.0, 1.0)) == 0.0
    ensures GraphScore(GraphStat(9, 0.0, 0.0)) == 1.0
  {}

  lemma ArtifactLaw(stat: ArtifactStat)
    ensures ArtifactScore(stat.(spanCount := stat.spanCount + 1)) >= ArtifactScore(stat)
    ensures ArtifactScore(stat.(quoteCount := stat.quoteCount + 1)) >= ArtifactScore(stat)
    ensures ArtifactScore(ArtifactStat(1, 1)) == 0.4 && ArtifactScore(ArtifactStat(0, 0)) == 0.0
    ensures ArtifactScore(ArtifactStat(4, 1)) == 1.0
  {}

  /** A query found in the subject counts most, one found in the body less, and a blank one nothing; case is ignored. */
  lemma MatchLaw(r: Row, query: string)
    ensures var q := TrimSpace(ToLower(query));
            var inSubject := q != "" && Contains(ToLower(r.item.subject), q);
            var inBody := q != "" && Contains(ToLower(r.item.body), q);
            (ExactMatchScore(r, query) == 1.0 <==> inSubject) &&
            (ExactMatchScore(r, query) == 0.75 <==> inBody && !inSubject) &&
            (ExactMatchScore(r, query) == 0.0 <==> !inSubject && !inBody)
  {}

  /** The two profiles, by the names the configuration may use. */
  lemma ProfileLaw(name: string)
    ensures RankingProfile(name).name == "ja-default" <==> ToLower(TrimSpace(name)) in {"ja", "ja-default"}
    ensures RankingProfile(name).name == "default" <==> ToLower(TrimSpace(name)) !in {"ja", "ja-default"}
  {}

  // ---------------------------------------------------------------- the score

  // A chunk found by both searches, one day old, whose text holds the query.
  const SAMPLE := Row(RecallResult("u", "transcript", "m", "", "x", 1), "", false, 1.0, 1, 2)

  function SampleContext(profile: string): Context {
    Context(map[Key("transcript", "m") := GraphStat(2, 1.0, 0.4)], map[Key("transcript", "m") := ArtifactStat(1, 1)],
            profile, "x", 86400001)
  }

  lemma SampleText()
    ensures TrimSpace(ToLower("x")) == "x" && Contains(ToLower("x"), "x") && !Contains(ToLower(""), "x")
    ensures RankingProfile("ja") == JAPANESE && RankingProfile("") == DEFAULT
  {
    ExtremeProfile();
    assert ToLower("x") == "x" && TrimLeft("x") == "x" && TrimRight("x") == "x";
    assert OccursAt("x", "x", 0) && !OccursAt("", "x", 0) && ToLower("") == "";
  }

  /** Its whole score, under either profile. */
  lemma SampleScores()
    ensures Score(SampleContext("ja"), SAMPLE) == 2223.0 && Score(SampleContext(""), SAMPLE) == 2175.5
  {
    SampleText();
    SampleMatch("ja");
    SampleMatch("");
    RecencyLaw(1, 2, 86400001);
  }

  lemma SampleMatch(profile: string)
    ensures ExactMatchScore(SAMPLE, SampleContext(profile).query) == 0.75
  {
    SampleText();
  }

  /** Ten points of trust weigh as much as one bucket; a measure that differs alone decides. */
  lemma TrustLaw(ctx: Context, r: Row, more: real)
    ensures Score(ctx, r.(trustWeight := r.trustWeight + more)) == Score(ctx, r) + 100.0 * more
    ensures r.item.memorySpace != "private" && r.signatureStatus == "valid" ==>
              Score(ctx, r) == Score(ctx, r.(signatureStatus := "missing_signature", trustWeight := r.trustWeight + 10.0)) &&
              Score(ctx, r) == Score(ctx, r.(signatureStatus := "unknown_peer", trustWeight := r.trustWeight + 20.0))
  {
    var raised := r.(trustWeight := r.trustWeight + more);
    SameParts(ctx, r, raised);
    SameParts(ctx, r, r.(signatureStatus := "missing_signature", trustWeight := r.trustWeight + 10.0));
    SameParts(ctx, r, r.(signatureStatus := "unknown_peer", trustWeight := r.trustWeight + 20.0));
  }

  lemma SameParts(ctx: Context, r: Row, s: Row)
    requires r.item == s.item && r.semanticRank == s.semanticRank && r.lexicalRank == s.lexicalRank
    ensures Score(ctx, r) - Base(r) == Score(ctx, s) - Base(s)
  {}

  /** Of two rows that differ in age or in rank alone, the newer or better ranked comes first. */
  lemma NewerFirst(ctx: Context, r: Row, older: int)
    requires 0 < older < r.item.authoredAtMS <= ctx.nowMS
    ensures Before(ctx, r, r.(item := r.item.(authoredAtMS := older)))
  {
    var s := r.(item := r.item.(authoredAtMS := older));
    var p := RankingProfile(ctx.profileName);
    RecencyLaw(older, r.item.authoredAtMS, ctx.nowMS);
    assert Base(r) == Base(s) && SourcePart(p, r) == SourcePart(p, s) && StatsPart(p, ctx, r) == StatsPart(p, ctx, s);
    assert ExactMatchScore(r, ctx.query) == ExactMatchScore(s, ctx.query);
    assert Part(RecencyScore(r.item.authoredAtMS, ctx.nowMS), 5.0) > Part(RecencyScore(older, ctx.nowMS), 5.0);
  }

  lemma BetterRankFirst(ctx: Context, r: Row, worse: int)
    requires 0 < r.semanticRank < worse && 0 < r.lexicalRank < worse
    ensures Before(ctx, r, r.(semanticRank := worse)) && Before(ctx, r, r.(lexicalRank := worse))
  {
    var p, s, l := RankingProfile(ctx.profileName), r.(semanticRank := worse), r.(lexicalRank := worse);
    SourceLaw(p, r, worse);
    OtherPartsSame(p, ctx, r, s);
    OtherPartsSame(p, ctx, r, l);
    Positive(SourceScore(r, p) - SourceScore(s, p), p.sourceWeight);
    Positive(SourceScore(r, p) - SourceScore(l, p), p.sourceWeight);
    Distributes(SourceScore(r, p), SourceScore(s, p), p.sourceWeight);
    Distributes(SourceScore(r, p), SourceScore(l, p), p.sourceWeight);
  }

  lemma Distributes(a: real, b: real, w: real)
    ensures (a - b) * w == Part(a, w) - Part(b, w)
  {}

  lemma OtherPartsSame(p: Profile, ctx: Context, r: Row, s: Row)
    requires r.item == s.item && r.signatureStatus == s.signatureStatus && r.trustWeight == s.trustWeight
    requires r.hasSignature == s.hasSignature
    ensures ScoreUnder(p, ctx, r) - SourcePart(p, r) == ScoreUnder(p, ctx, s) - SourcePart(p, s)
  {}

  // ---------------------------------------------------------------- the order and the cut

  /** The higher score comes first; equal scores go to the newer row, and then to the lower unit id. */
  lemma OrderLaw(ctx: Context, a: Row, b: Row)
    ensures Score(ctx, a) > Score(ctx, b) ==> Before(ctx, a, b) && !Before(ctx, b, a)
    ensures Score(ctx, a) == Score(ctx, b) && a.item.authoredAtMS > b.item.authoredAtMS ==>
              Before(ctx, a, b) && !Before(ctx, b, a)
    ensures Score(ctx, a) == Score(ctx, b) && a.item.authoredAtMS == b.item.authoredAtMS ==>
              (Before(ctx, a, b) <==> StringLess(a.item.unitId, b.item.unitId))
  {}

  /** What a ranking shows: the best rows, as many as the limit allows, in falling order. */
  lemma RankingShows(ctx: Context, rows: seq<Row>, limit: nat, out: seq<RecallResult>)
    returns (kept: seq<Row>, dropped: seq<Row>)
    requires IsRanking(ctx, rows, limit, out)
    ensures multiset(kept) + multiset(dropped) == multiset(rows)
    ensures |out| == |kept| == (if |rows| < limit then |rows| else limit)
    ensures forall i :: 0 <= i < |out| ==> out[i] == kept[i].item
    ensures Falling(ctx, kept)
    ensures forall i, j :: 0 <= i < |kept| && 0 <= j < |dropped| ==> Score(ctx, kept[i]) >= Score(ctx, dropped[j])
  {
    var sorted :| Sorted(ctx, sorted) && multiset(sorted) == multiset(rows) && out == Items(Cut(sorted, limit));
    kept := Cut(sorted, limit);
    dropped := sorted[|kept|..];
    CutParts(sorted, rows, limit);
    ScoresFall(ctx, sorted);
    FallingParts(ctx, kept, dropped);
  }

  lemma CutParts(sorted: seq<Row>, rows: seq<Row>, limit: nat)
    requires multiset(sorted) == multiset(rows)
    ensures var kept := Cut(sorted, limit);
            kept + sorted[|kept|..] == sorted && multiset(kept) + multiset(sorted[|kept|..]) == multiset(rows) &&
            |Items(kept)| == |kept| == (if |rows| < limit then |rows| else limit) &&
            forall i :: 0 <= i < |kept| ==> Items(kept)[i] == kept[i].item
  {
    assert |multiset(rows)| == |rows| && |multiset(sorted)| == |sorted|;
    assert Cut(sorted, limit) + sorted[|Cut(sorted, limit)|..] == sorted;
  }

  ghost predicate Falling(ctx: Context, rows: seq<Row>) {
    forall i, j :: 0 <= i < j < |rows| ==> Score(ctx, rows[i]) >= Score(ctx, rows[j])
  }

  lemma ScoresFall(ctx: Context, rows: seq<Row>)
    requires Sorted(ctx, rows)
    ensures Falling(ctx, rows)
  {
    forall i, j | 0 <= i < j < |rows|
      ensures Score(ctx, rows[i]) >= Score(ctx, rows[j])
    {
      OrderLaw(ctx, rows[j], rows[i]);
    }
  }

  lemma FallingParts(ctx: Context, kept: seq<Row>, dropped: seq<Row>)
    requires Falling(ctx, kept + dropped)
    ensures Falling(ctx, kept)
    ensures forall i, j :: 0 <= i < |kept| && 0 <= j < |dropped| ==> Score(ctx, kept[i]) >= Score(ctx, dropped[j])
  {
    var all := kept + dropped;
    forall i, j | 0 <= i < j < |kept|
      ensures Score(ctx, kept[i]) >= Score(ctx, kept[j])
    {
      assert all[i] == kept[i] && all[j] == kept[j];
    }
    forall i, j | 0 <= i < |kept| && 0 <= j < |dropped|
      ensures Score(ctx, kept[i]) >= Score(ctx, dropped[j])
    {
      assert all[i] == kept[i] && all[|kept| + j] == dropped[j];
    }
  }
}
