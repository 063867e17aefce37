/** Extraction of outbound batches, and the lossless paging it gives over a fixed log. */
module SyncExtract {
  import opened Prelude
  import opened SyncTypes

  datatype LogRow = LogRow(dbVersion: int, namespace: string)

  /** ORDER BY db_version, "table", seq. */
  predicate ChangeLeq(a: Change, b: Change) {
    a.dbVersion < b.dbVersion ||
    (a.dbVersion == b.dbVersion &&
     (StringLess(a.table, b.table) || (a.table == b.table && a.seqNo <= b.seqNo)))
  }

  ghost predicate Ordered(changes: seq<Change>) {
    forall i, j :: 0 <= i < j < |changes| ==> ChangeLeq(changes[i], changes[j])
  }

  /** The change table, its rows in the order the extraction query sorts them. */
  type Changes = cs: seq<Change> | Ordered(cs) ghost witness []

  /** The fixed source of a series of extractions. */
  datatype Source = Source(log: seq<LogRow>, changes: Changes, meta: Meta, selfPeer: string)

  const DEFAULT_LIMIT := 256

  // ---------------------------------------------------------------- specification

  /** The versions logged for a namespace above a cursor. */
  function Pending(log: seq<LogRow>, namespace: string, cursor: int): set<int> {
    set row | row in log && row.namespace == namespace && row.dbVersion > cursor :: row.dbVersion
  }

  /** SELECT DISTINCT … ORDER BY … LIMIT: the first `n` members, ascending. */
  ghost function FirstOf(s: set<int>, n: nat): seq<int>
    decreases n
  {
    if n == 0 || |s| == 0 then [] else [Least(s)] + FirstOf(s - {Least(s)}, n - 1)
  }

  /** The changes of the given versions, in table order. */
  function WithVersions(changes: seq<Change>, versions: set<int>): seq<Change> {
    if |changes| == 0 then []
    else
      var c := changes[|changes| - 1];
      WithVersions(changes[..|changes| - 1], versions) + (if c.dbVersion in versions then [c] else [])
  }

  ghost function Versions(src: Source, namespace: string, cursor: int, limit: int): seq<int> {
    FirstOf(Pending(src.log, namespace, cursor), if limit <= 0 then DEFAULT_LIMIT else limit)
  }

  ghost function Extracted(src: Source, namespace: string, cursor: int, limit: int, batchId: string): Batch {
    var versions := Versions(src, namespace, cursor, limit);
    Batch(batchId, src.selfPeer, namespace, src.meta.schemaHash, src.meta.crrManifestHash,
          if versions == [] then 0 else versions[|versions| - 1], WithVersions(src.changes, ToSet(versions)))
  }

  class Service {
    const src: Source
    var cursors: map<(string, string), int>

    constructor (src: Source, cursors: map<(string, string), int>)
      ensures this.src == src && this.cursors == cursors
    {
      this.src, this.cursors := src, cursors;
    }

    method LeastOf(s: set<int>) returns (k: int)
      requires |s| > 0
      ensures k == Least(s)
    {
      var todo := s;
      ghost var some := Pick(s);
      assert some in todo;
      k :| k in todo;
      todo := todo - {k};
      while |todo| > 0
        invariant k in s && todo <= s
        invariant forall j :: j in s ==> j in todo || k <= j
        decreases todo
      {
        ghost var another := Pick(todo);
        assert another in todo;
        var j :| j in todo;
        if j < k {
          k := j;
        }
        todo := todo - {j};
      }
    }

    method LoggedVersions(namespace: string, cursor: int, limit: nat) returns (versions: seq<int>)
      ensures versions == FirstOf(Pending(src.log, namespace, cursor), limit)
    {
      var rest := Pending(src.log, namespace, cursor);
      versions := [];
      while |rest| > 0 && |versions| < limit
        invariant |versions| <= limit
        invariant FirstOf(Pending(src.log, namespace, cursor), limit) == versions + FirstOf(rest, limit - |versions|)
        decreases rest
      {
        var v := LeastOf(rest);
        versions := versions + [v];
        rest := rest - {v};
      }
    }

    method ExtractBatch(peerId: string, namespace: string, limit: int, batchId: string) returns (batch: Batch)
      ensures var cursor := if (peerId, namespace) in cursors then cursors[(peerId, namespace)] else 0;
              batch == Extracted(src, namespace, cursor, limit, batchId) &&
              CarriesNext(src, namespace, cursor, limit, batchId, batch)
    {
      var cursor := 0;
      if (peerId, namespace) in cursors {
        cursor := cursors[(peerId, namespace)];
      }
      batch := ExtractFrom(cursor, namespace, limit, batchId);
      ExtractedCarriesNext(src, namespace, cursor, limit, batchId);
    }

    method ExtractFrom(cursor: int, namespace: string, limit: int, batchId: string) returns (batch: Batch)
      ensures batch == Extracted(src, namespace, cursor, limit, batchId)
    {
      var lim := if limit <= 0 then DEFAULT_LIMIT else limit;
      var versions := LoggedVersions(namespace, cursor, lim);
      if |versions| == 0 {
        NoVersions(src.changes);
        return Batch(batchId, src.selfPeer, namespace, src.meta.schemaHash, src.meta.crrManifestHash, 0, []);
      }
      var maxVersion := versions[|versions| - 1];
      var changes: seq<Change> := [];
      for i := 0 to |src.changes|
        invariant changes == WithVersions(src.changes[..i], ToSet(versions))
      {
        assert src.changes[..i + 1][..i] == src.changes[..i];
        if src.changes[i].dbVersion in versions {
          changes := changes + [src.changes[i]];
        }
      }
      assert src.changes[..|src.changes|] == src.changes;
      return Batch(batchId, src.selfPeer, namespace, src.meta.schemaHash, src.meta.crrManifestHash, maxVersion, changes);
    }
  }

  // ---------------------------------------------------------------- what a batch carries

  /** A version logged for the namespace that a peer at this cursor has not seen. */
  ghost predicate Unseen(src: Source, namespace: string, cursor: int, v: int) {
    v > cursor && exists row :: row in src.log && row.namespace == namespace && row.dbVersion == v
  }

  /** The rows of the table whose version is one of these, each once and in table order, and no others. */
  ghost predicate PicksExactly(table: seq<Change>, picked: seq<Change>, versions: set<int>) {
    exists at: seq<int> :: PicksAt(table, picked, versions, at)
  }

  ghost predicate PicksAt(table: seq<Change>, picked: seq<Change>, versions: set<int>, at: seq<int>) {
    (forall i, j :: 0 <= i < j < |at| ==> at[i] < at[j]) &&
    (forall k :: k in at <==> 0 <= k < |table| && table[k].dbVersion in versions) &&
    |picked| == |at| && forall i :: 0 <= i < |at| ==> 0 <= at[i] < |table| && picked[i] == table[at[i]]
  }

  /** These are the lowest unseen versions, as many as there are up to the limit. */
  ghost predicate LowestUnseen(src: Source, namespace: string, cursor: int, limit: int, now: set<int>) {
    (forall v :: v in now ==> Unseen(src, namespace, cursor, v)) &&
    (forall v, w :: v in now && Unseen(src, namespace, cursor, w) && w !in now ==> v < w) &&
    |now| <= limit && (|now| < limit ==> forall v :: Unseen(src, namespace, cursor, v) ==> v in now)
  }

  /**
    The batch holds all changes of the lowest unseen versions, and its own max version is the greatest of
    them: from there on exactly the others are unseen. With nothing unseen it is empty and says 0.
   */
  ghost predicate Carries(src: Source, namespace: string, cursor: int, limit: int, batch: Batch, now: set<int>) {
    LowestUnseen(src, namespace, cursor, limit, now) && PicksExactly(src.changes, batch.changes, now) &&
    (now == {} ==> batch.maxVersion == 0) &&
    (now != {} ==>
      batch.maxVersion in now && (forall v :: v in now ==> v <= batch.maxVersion) &&
      forall w :: Unseen(src, namespace, batch.maxVersion, w) <==> Unseen(src, namespace, cursor, w) && w !in now)
  }

  /** By version, then by table name, then by sequence number. */
  ghost predicate InReplayOrder(changes: seq<Change>) {
    forall i, j :: 0 <= i < j < |changes| ==> NotAfter(changes[i], changes[j])
  }

  predicate NotAfter(a: Change, b: Change) {
    a.dbVersion <= b.dbVersion &&
    (a.dbVersion == b.dbVersion ==> a.table == b.table || StringLess(a.table, b.table)) &&
    (a.dbVersion == b.dbVersion && a.table == b.table ==> a.seqNo <= b.seqNo)
  }

  lemma PicksInOrder(table: seq<Change>, picked: seq<Change>, versions: set<int>)
    requires Ordered(table) && PicksExactly(table, picked, versions)
    ensures InReplayOrder(picked)
  {
    var at :| PicksAt(table, picked, versions, at);
    forall i, j | 0 <= i < j < |picked|
      ensures NotAfter(picked[i], picked[j])
    {
      assert ChangeLeq(table[at[i]], table[at[j]]);
      StringLessIrreflexive(picked[i].table);
    }
  }

  ghost predicate CarriesNext(src: Source, namespace: string, cursor: int, limit: int, batchId: string, batch: Batch) {
    batch.batchId == batchId && batch.fromPeerId == src.selfPeer && batch.namespace == namespace &&
    batch.schemaHash == src.meta.schemaHash && batch.crrManifestHash == src.meta.crrManifestHash &&
    InReplayOrder(batch.changes) && (limit < 1 ==> exists now :: Carries(src, namespace, cursor, 256, batch, now)) &&
    (limit >= 1 ==> exists now :: Carries(src, namespace, cursor, limit, batch, now))
  }

  lemma PendingUnseen(src: Source, namespace: string, cursor: int, v: int)
    ensures v in Pending(src.log, namespace, cursor) <==> Unseen(src, namespace, cursor, v)
  {}

  lemma {:induction false} WithVersionsPicks(table: seq<Change>, versions: set<int>)
    ensures PicksExactly(table, WithVersions(table, versions), versions)
  {
    if |table| == 0 {
      assert PicksAt(table, [], versions, []);
    } else {
      var before := table[..|table| - 1];
      WithVersionsPicks(before, versions);
      var at :| PicksAt(before, WithVersions(before, versions), versions, at);
      PicksSnoc(before, table[|table| - 1], WithVersions(before, versions), versions, at);
      assert before + [table[|table| - 1]] == table;
    }
  }

  lemma PicksSnoc(before: seq<Change>, last: Change, picked: seq<Change>, versions: set<int>, at: seq<int>)
    requires PicksAt(before, picked, versions, at)
    ensures PicksExactly(before + [last], picked + (if last.dbVersion in versions then [last] else []), versions)
  {
    var n, table := |before|, before + [last];
    var more := if last.dbVersion in versions then at + [n] else at;
    forall i, j | 0 <= i < j < |more|
      ensures more[i] < more[j]
    {
      assert at[i] in at && (j < |at| || more[j] == n);
    }
    forall k
      ensures k in more <==> 0 <= k < |table| && table[k].dbVersion in versions
    {
      assert k in more <==> k in at || (k == n && last.dbVersion in versions);
    }
    assert PicksAt(table, picked + (if last.dbVersion in versions then [last] else []), versions, more);
  }

  lemma ExtractedCarriesNext(src: Source, namespace: string, cursor: int, limit: int, batchId: string)
    ensures CarriesNext(src, namespace, cursor, limit, batchId, Extracted(src, namespace, cursor, limit, batchId))
  {
    var lim := if limit < 1 then 256 else limit;
    var now := ToSet(Versions(src, namespace, cursor, limit));
    WithVersionsPicks(src.changes, now);
    PicksInOrder(src.changes, WithVersions(src.changes, now), now);
    VersionsLowest(src, namespace, cursor, lim);
    if |Pending(src.log, namespace, cursor)| == 0 {
      FirstOfWithin(Pending(src.log, namespace, cursor), lim);
      assert now == {};
    } else {
      MaxLeavesRest(src, namespace, cursor, lim);
    }
    assert Versions(src, namespace, cursor, limit) == Versions(src, namespace, cursor, lim);
    assert Carries(src, namespace, cursor, lim, Extracted(src, namespace, cursor, limit, batchId), now);
  }

  lemma VersionsLowest(src: Source, namespace: string, cursor: int, limit: nat)
    requires limit > 0
    ensures LowestUnseen(src, namespace, cursor, limit, ToSet(Versions(src, namespace, cursor, limit)))
  {
    var pending, versions := Pending(src.log, namespace, cursor), Versions(src, namespace, cursor, limit);
    FirstOfWithin(pending, limit);
    FirstOfAscends(pending, limit);
    DistinctCount(versions);
    forall v
      ensures v in pending <==> Unseen(src, namespace, cursor, v)
    {
      PendingUnseen(src, namespace, cursor, v);
    }
    forall v, w | v in ToSet(versions) && Unseen(src, namespace, cursor, w) && w !in ToSet(versions)
      ensures v < w
    {
      FirstOfBelow(pending, limit, v, w);
    }
    if |versions| < limit {
      SameCount(ToSet(versions), pending);
    }
  }

  lemma SameCount(a: set<int>, b: set<int>)
    requires a <= b && |a| == |b|
    ensures a == b
  {
    assert |b - a| == |b| - |a|;
  }

  lemma MaxLeavesRest(src: Source, namespace: string, cursor: int, limit: nat)
    requires limit > 0 && |Pending(src.log, namespace, cursor)| > 0
    ensures var now := ToSet(Versions(src, namespace, cursor, limit));
            var max := Extracted(src, namespace, cursor, limit, "").maxVersion;
            max in now && (forall v :: v in now ==> v <= max) &&
            forall w :: Unseen(src, namespace, max, w) <==> Unseen(src, namespace, cursor, w) && w !in now
  {
    var versions := Versions(src, namespace, cursor, limit);
    var max := versions[|versions| - 1];
    OneRound(src, namespace, cursor, limit);
    FirstOfAscends(Pending(src.log, namespace, cursor), limit);
    forall w
      ensures Unseen(src, namespace, max, w) <==> Unseen(src, namespace, cursor, w) && w !in ToSet(versions)
    {
      PendingUnseen(src, namespace, max, w);
      PendingUnseen(src, namespace, cursor, w);
    }
  }

  lemma NoVersions(changes: seq<Change>)
    ensures WithVersions(changes, ToSet<int>([])) == []
  {}

  // ---------------------------------------------------------------- one round

  lemma {:induction false} FirstOfWithin(s: set<int>, n: nat)
    ensures |FirstOf(s, n)| == (if |s| < n then |s| else n)
    ensures forall v :: v in FirstOf(s, n) ==> v in s
    decreases n
  {
    if n > 0 && |s| > 0 {
      FirstOfWithin(s - {Least(s)}, n - 1);
    }
  }

  ghost predicate Ascends(picks: seq<int>) {
    forall i, j :: 0 <= i < j < |picks| ==> picks[i] < picks[j]
  }

  /** The picks ascend. */
  lemma {:induction false} FirstOfAscends(s: set<int>, n: nat)
    ensures Ascends(FirstOf(s, n))
    decreases n
  {
    if n > 0 && |s| > 0 {
      var tail := FirstOf(s - {Least(s)}, n - 1);
      FirstOfAscends(s - {Least(s)}, n - 1);
      FirstOfWithin(s - {Least(s)}, n - 1);
      AscendsCons(Least(s), s, tail);
    }
  }

  lemma AscendsCons(least: int, s: set<int>, tail: seq<int>)
    requires Ascends(tail) && (forall v :: v in tail ==> v in s - {least}) && forall v :: v in s ==> least <= v
    ensures Ascends([least] + tail)
  {
    forall i | 0 <= i < |tail|
      ensures least < tail[i]
    {
      assert tail[i] in tail;
    }
  }

  /** They stay below everything not picked. */
  lemma {:induction false} FirstOfBelow(s: set<int>, n: nat, pick: int, w: int)
    requires pick in FirstOf(s, n) && w in s && w !in FirstOf(s, n)
    ensures pick < w
    decreases n
  {
    var least, tail := Least(s), FirstOf(s - {Least(s)}, n - 1);
    assert FirstOf(s, n) == [least] + tail && ([least] + tail)[0] == least;
    if pick != least {
      assert pick in tail && w !in tail;
      FirstOfBelow(s - {least}, n - 1, pick, w);
    }
  }

  /** A non-empty batch advances the cursor past exactly the versions it carries. */
  lemma OneRound(src: Source, namespace: string, cursor: int, limit: nat)
    requires limit > 0 && |Pending(src.log, namespace, cursor)| > 0
    ensures var pending, versions := Pending(src.log, namespace, cursor), Versions(src, namespace, cursor, limit);
            |versions| == (if |pending| < limit then |pending| else limit) &&
            cursor < Extracted(src, namespace, cursor, limit, "").maxVersion &&
            ToSet(versions) <= pending &&
            Pending(src.log, namespace, Extracted(src, namespace, cursor, limit, "").maxVersion) == pending - ToSet(versions)
  {
    var pending, versions := Pending(src.log, namespace, cursor), Versions(src, namespace, cursor, limit);
    FirstOfWithin(pending, limit);
    FirstOfAscends(pending, limit);
    var max := versions[|versions| - 1];
    assert max in versions && max in pending;
    forall v
      ensures v in Pending(src.log, namespace, max) <==> v in pending - ToSet(versions)
    {
      if v in ToSet(versions) {
        var i :| 0 <= i < |versions| && versions[i] == v;
        assert v <= max;
      } else if v in pending {
        FirstOfBelow(pending, limit, max, v);
      }
    }
  }

  lemma {:induction false} WithVersionsSplit(changes: seq<Change>, low: set<int>, high: set<int>)
    requires Ordered(changes) && forall v, w :: v in low && w in high ==> v < w
    ensures WithVersions(changes, low + high) == WithVersions(changes, low) + WithVersions(changes, high)
  {
    if |changes| > 0 {
      var before, last := changes[..|changes| - 1], changes[|changes| - 1];
      WithVersionsSplit(before, low, high);
      if last.dbVersion in low {
        forall i | 0 <= i < |before|
          ensures before[i].dbVersion !in high
        {
          assert ChangeLeq(changes[i], last);
        }
        NoneWithVersions(before, high);
        assert last.dbVersion !in high;
      }
    }
  }

  lemma {:induction false} NoneWithVersions(changes: seq<Change>, versions: set<int>)
    requires forall i :: 0 <= i < |changes| ==> changes[i].dbVersion !in versions
    ensures WithVersions(changes, versions) == []
  {
    if |changes| > 0 {
      NoneWithVersions(changes[..|changes| - 1], versions);
    }
  }

  // ---------------------------------------------------------------- paging

  /** The cursors at which successive extractions start, each the max version of the batch before. */
  ghost function Cursors(src: Source, namespace: string, cursor: int, limit: nat): seq<int>
    requires limit > 0
    decreases |Pending(src.log, namespace, cursor)|
  {
    if |Pending(src.log, namespace, cursor)| == 0 then []
    else
      OneRound(src, namespace, cursor, limit);
      var versions := Versions(src, namespace, cursor, limit);
      StrictlyFewer(Pending(src.log, namespace, cursor), ToSet(versions), versions[0]);
      [cursor] + Cursors(src, namespace, Extracted(src, namespace, cursor, limit, "").maxVersion, limit)
  }

  lemma StrictlyFewer(s: set<int>, removed: set<int>, v: int)
    requires v in removed && removed <= s
    ensures |s - removed| < |s|
  {
    assert |s| == |s - removed| + |removed|;
  }

  ghost function Emitted(src: Source, namespace: string, cursors: seq<int>, limit: nat): seq<Change> {
    if |cursors| == 0 then []
    else Extracted(src, namespace, cursors[0], limit, "").changes + Emitted(src, namespace, cursors[1..], limit)
  }

  /** ⌈n / d⌉. */
  function CeilDiv(n: nat, d: nat): (r: nat)
    requires d > 0
    ensures n <= r * d < n + d
  {
    if n == 0 then 0 else 1 + CeilDiv(if n < d then 0 else n - d, d)
  }

  /**
    Paging is lossless. Following the max versions from any cursor, for any positive limit, the batches
    together carry the changes of every pending version exactly once, in table order.
   */
  lemma {:induction false} PagingLossless(src: Source, namespace: string, cursor: int, limit: nat)
    requires limit > 0
    ensures Emitted(src, namespace, Cursors(src, namespace, cursor, limit), limit) ==
            WithVersions(src.changes, Pending(src.log, namespace, cursor))
    decreases |Pending(src.log, namespace, cursor)|
  {
    var pending := Pending(src.log, namespace, cursor);
    if |pending| == 0 {
      assert pending == {};
      NoneWithVersions(src.changes, {});
    } else {
      var next := NextRound(src, namespace, cursor, limit);
      PagingLossless(src, namespace, next, limit);
      RoundsAdd(src.changes, ToSet(Versions(src, namespace, cursor, limit)), pending);
      EmittedCons(src, namespace, cursor, Cursors(src, namespace, next, limit), limit);
    }
  }

  /** In the table's own terms: every change of an unseen version once, in table order, and no other. */
  lemma PagingEmitsUnseen(src: Source, namespace: string, cursor: int, limit: nat) returns (unseen: set<int>)
    requires limit > 0
    ensures forall v :: v in unseen <==> Unseen(src, namespace, cursor, v)
    ensures PicksExactly(src.changes, Emitted(src, namespace, Cursors(src, namespace, cursor, limit), limit), unseen)
    ensures InReplayOrder(Emitted(src, namespace, Cursors(src, namespace, cursor, limit), limit))
  {
    unseen := Pending(src.log, namespace, cursor);
    PagingLossless(src, namespace, cursor, limit);
    WithVersionsPicks(src.changes, unseen);
    PicksInOrder(src.changes, WithVersions(src.changes, unseen), unseen);
    forall v
      ensures v in unseen <==> Unseen(src, namespace, cursor, v)
    {
      PendingUnseen(src, namespace, cursor, v);
    }
  }

  lemma RoundsAdd(changes: seq<Change>, now: set<int>, pending: set<int>)
    requires Ordered(changes) && now <= pending && forall v, w :: v in now && w in pending - now ==> v < w
    ensures WithVersions(changes, pending) == WithVersions(changes, now) + WithVersions(changes, pending - now)
  {
    WithVersionsSplit(changes, now, pending - now);
    assert now + (pending - now) == pending;
  }

  lemma EmittedCons(src: Source, namespace: string, cursor: int, later: seq<int>, limit: nat)
    ensures Emitted(src, namespace, [cursor] + later, limit) ==
            WithVersions(src.changes, ToSet(Versions(src, namespace, cursor, limit))) + Emitted(src, namespace, later, limit)
  {
    assert ([cursor] + later)[1..] == later;
  }

  /** It takes ⌈pending / limit⌉ non-empty rounds. */
  lemma {:induction false} PagingRounds(src: Source, namespace: string, cursor: int, limit: nat)
    requires limit > 0
    ensures |Cursors(src, namespace, cursor, limit)| == CeilDiv(|Pending(src.log, namespace, cursor)|, limit)
    decreases |Pending(src.log, namespace, cursor)|
  {
    if |Pending(src.log, namespace, cursor)| > 0 {
      var next := NextRound(src, namespace, cursor, limit);
      PagingRounds(src, namespace, next, limit);
    }
  }

  /** One unfolding of the paging loop. */
  lemma NextRound(src: Source, namespace: string, cursor: int, limit: nat) returns (next: int)
    requires limit > 0 && |Pending(src.log, namespace, cursor)| > 0
    ensures var pending, now := Pending(src.log, namespace, cursor), ToSet(Versions(src, namespace, cursor, limit));
            Pending(src.log, namespace, next) == pending - now && now <= pending &&
            |pending - now| == (if |pending| < limit then 0 else |pending| - limit) && |pending - now| < |pending| &&
            (forall v, w :: v in now && w in pending - now ==> v < w)
    ensures Cursors(src, namespace, cursor, limit) == [cursor] + Cursors(src, namespace, next, limit)
    ensures cursor < next
  {
    var pending, versions := Pending(src.log, namespace, cursor), Versions(src, namespace, cursor, limit);
    OneRound(src, namespace, cursor, limit);
    next := Extracted(src, namespace, cursor, limit, "").maxVersion;
    FirstOfAscends(pending, limit);
    DistinctCount(versions);
    StrictlyFewer(pending, ToSet(versions), versions[0]);
    assert |pending| == |pending - ToSet(versions)| + |ToSet(versions)|;
  }

  lemma {:induction false} DistinctCount(vs: seq<int>)
    requires forall i, j :: 0 <= i < j < |vs| ==> vs[i] < vs[j]
    ensures |ToSet(vs)| == |vs|
  {
    if |vs| > 0 {
      var before, last := vs[..|vs| - 1], vs[|vs| - 1];
      DistinctCount(before);
      assert ToSet(vs) == ToSet(before) + {last} && last !in ToSet(before);
    }
  }

  /** No version is split: a batch carries all changes of each version it touches, and cursors only move up. */
  lemma {:induction false} RoundsAreWhole(src: Source, namespace: string, cursor: int, limit: nat, i: nat, c: Change)
    requires limit > 0 && i < |Cursors(src, namespace, cursor, limit)|
    ensures var cursors := Cursors(src, namespace, cursor, limit);
            c in Extracted(src, namespace, cursors[i], limit, "").changes <==>
            c in src.changes && c.dbVersion in Versions(src, namespace, cursors[i], limit)
    ensures i > 0 ==> Cursors(src, namespace, cursor, limit)[i - 1] < Cursors(src, namespace, cursor, limit)[i]
    decreases |Pending(src.log, namespace, cursor)|
  {
    InWithVersions(src.changes, ToSet(Versions(src, namespace, Cursors(src, namespace, cursor, limit)[i], limit)), c);
    var next := NextRound(src, namespace, cursor, limit);
    if i > 0 {
      RoundsAreWhole(src, namespace, next, limit, i - 1, c);
    }
    if i == 1 {
      var afterNext := NextRound(src, namespace, next, limit);
    }
  }

  lemma {:induction false} InWithVersions(changes: seq<Change>, versions: set<int>, c: Change)
    ensures c in WithVersions(changes, versions) <==> c in changes && c.dbVersion in versions
  {
    if |changes| > 0 {
      InWithVersions(changes[..|changes| - 1], versions, c);
      assert changes == changes[..|changes| - 1] + [changes[|changes| - 1]];
    }
  }
}
