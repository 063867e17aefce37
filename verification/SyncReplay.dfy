/** What batch verification and application guarantee, across memories and across replays. */
module SyncReplay {
  import opened Prelude
  import opened SyncTypes
  import opened SyncApply

  // ---------------------------------------------------------------- one verdict per memory

  lemma {:induction false} TouchedExact(p: Primitives, changes: seq<Change>, id: string)
    ensures id in Touched(p, changes) <==> exists ch :: ch in changes && Touches(p, ch) == Some(id)
    ensures id in Touched(p, changes) <==> Own(p, changes, id) != []
  {
    if |changes| > 0 {
      TouchedExact(p, changes[..|changes| - 1], id);
      assert changes == changes[..|changes| - 1] + [changes[|changes| - 1]];
    }
  }

  lemma {:induction false} TouchedOnce(p: Primitives, changes: seq<Change>)
    ensures NoDuplicates(Touched(p, changes))
  {
    if |changes| > 0 {
      TouchedOnce(p, changes[..|changes| - 1]);
    }
  }

  /** The list grows by first appearances only, so a prefix of the batch yields a prefix of it. */
  lemma {:induction false} TouchedInOrder(p: Primitives, changes: seq<Change>, n: nat)
    requires n <= |changes|
    ensures Touched(p, changes[..n]) <= Touched(p, changes)
    decreases |changes|
  {
    if n == |changes| {
      assert changes[..n] == changes;
    } else {
      assert changes[..|changes| - 1][..n] == changes[..n];
      TouchedInOrder(p, changes[..|changes| - 1], n);
    }
  }

  /** A touched memory whose own changes fold to a claim that is unsigned or properly signed. */
  ghost predicate Acceptable(p: Primitives, st: State, changes: seq<Change>, id: string) {
    ClaimAfter(p, st.cells, changes, id).Some? && Judge(p, st, id, ClaimAfter(p, st.cells, changes, id).value).Ok?
  }

  ghost predicate AllAcceptable(p: Primitives, st: State, changes: seq<Change>, ids: seq<string>) {
    forall id :: id in ids ==> Acceptable(p, st, changes, id)
  }

  /** These verdicts are those of these memories, one each and in order. */
  ghost predicate JudgedAs(p: Primitives, st: State, changes: seq<Change>, ids: seq<string>, verdicts: seq<Verdict>) {
    |verdicts| == |ids| &&
    forall i :: 0 <= i < |ids| ==> JudgedAt(p, st, changes, ids[i], verdicts[i])
  }

  ghost predicate JudgedAt(p: Primitives, st: State, changes: seq<Change>, id: string, verdict: Verdict) {
    verdict.memoryId == id && Acceptable(p, st, changes, id) &&
    Judge(p, st, id, ClaimAfter(p, st.cells, changes, id).value) == Ok(verdict)
  }

  lemma {:induction false} JudgedOneByOne(p: Primitives, st: State, changes: seq<Change>, ids: seq<string>)
    ensures JudgeAll(p, st, changes, ids).Ok? <==> AllAcceptable(p, st, changes, ids)
    ensures JudgeAll(p, st, changes, ids).Ok? ==> JudgedAs(p, st, changes, ids, JudgeAll(p, st, changes, ids).value)
  {
    if |ids| == 0 {
    } else {
      var before, last := ids[..|ids| - 1], ids[|ids| - 1];
      assert before + [last] == ids;
      JudgedOneByOne(p, st, changes, before);
      JudgeLast(p, st, changes, before, last);
    }
  }

  lemma JudgeLast(p: Primitives, st: State, changes: seq<Change>, before: seq<string>, last: string)
    requires JudgeAll(p, st, changes, before).Ok? <==> AllAcceptable(p, st, changes, before)
    requires JudgeAll(p, st, changes, before).Ok? ==>
               JudgedAs(p, st, changes, before, JudgeAll(p, st, changes, before).value)
    ensures JudgeAll(p, st, changes, before + [last]).Ok? <==> AllAcceptable(p, st, changes, before + [last])
    ensures JudgeAll(p, st, changes, before + [last]).Ok? ==>
              JudgedAs(p, st, changes, before + [last], JudgeAll(p, st, changes, before + [last]).value)
  {
    assert (before + [last])[..|before|] == before;
    assert last in before + [last] && forall id :: id in before ==> id in before + [last];
  }

  /**
    A batch verifies exactly when each touched memory, taken alone, does; and then it yields one verdict per
    touched memory in order of first appearance, each the verdict of that memory's own changes.
   */
  lemma VerifiedIff(p: Primitives, st: State, changes: seq<Change>)
    ensures Verified(p, st, changes).Ok? <==> AllAcceptable(p, st, changes, Touched(p, changes))
    ensures Verified(p, st, changes).Ok? ==>
              JudgedAs(p, st, changes, Touched(p, changes), Verified(p, st, changes).value)
  {
    JudgedOneByOne(p, st, changes, Touched(p, changes));
  }

  /** How changes of different memories interleave changes no outcome. */
  lemma InterleavingIrrelevant(p: Primitives, st: State, a: seq<Change>, b: seq<Change>)
    requires forall id :: Own(p, a, id) == Own(p, b, id)
    ensures Verified(p, st, a).Ok? <==> Verified(p, st, b).Ok?
    ensures Verified(p, st, a).Ok? ==> ToSet(Verified(p, st, a).value) == ToSet(Verified(p, st, b).value)
  {
    VerifiedIff(p, st, a);
    VerifiedIff(p, st, b);
    forall id
      ensures id in Touched(p, a) <==> id in Touched(p, b)
      ensures Acceptable(p, st, a, id) <==> Acceptable(p, st, b, id)
    {
      TouchedExact(p, a, id);
      TouchedExact(p, b, id);
    }
    if Verified(p, st, a).Ok? {
      VerdictsCarryOver(p, st, a, b);
      VerdictsCarryOver(p, st, b, a);
    }
  }

  lemma VerdictsCarryOver(p: Primitives, st: State, a: seq<Change>, b: seq<Change>)
    requires forall id :: Own(p, a, id) == Own(p, b, id)
    requires Verified(p, st, a).Ok? && Verified(p, st, b).Ok?
    ensures ToSet(Verified(p, st, a).value) <= ToSet(Verified(p, st, b).value)
  {
    VerifiedIff(p, st, a);
    VerifiedIff(p, st, b);
    var va, vb := Verified(p, st, a).value, Verified(p, st, b).value;
    forall v | v in va
      ensures v in vb
    {
      var i :| 0 <= i < |va| && va[i] == v;
      var id := Touched(p, a)[i];
      assert JudgedAt(p, st, a, id, v);
      VerdictFound(p, st, a, b, id, v, vb);
    }
  }

  lemma VerdictFound(p: Primitives, st: State, a: seq<Change>, b: seq<Change>, id: string, v: Verdict, vb: seq<Verdict>)
    requires Own(p, a, id) == Own(p, b, id) && id in Touched(p, a)
    requires JudgedAt(p, st, a, id, v) && JudgedAs(p, st, b, Touched(p, b), vb)
    ensures v in vb
  {
    TouchedExact(p, a, id);
    TouchedExact(p, b, id);
    var j :| 0 <= j < |Touched(p, b)| && Touched(p, b)[j] == id;
    assert JudgedAt(p, st, b, id, vb[j]);
  }

  // ---------------------------------------------------------------- replay: cells

  lemma {:induction false} MergeKeepsNewest(p: Primitives, cells: Cells, changes: seq<Change>, ch: Change)
    requires KeyOf(p, ch) in cells && !Newer(p, StateOf(p, ch), cells[KeyOf(p, ch)])
    ensures KeyOf(p, ch) in MergeAll(p, cells, changes)
    ensures !Newer(p, StateOf(p, ch), MergeAll(p, cells, changes)[KeyOf(p, ch)])
  {
    if |changes| > 0 {
      MergeKeepsNewest(p, cells, changes[..|changes| - 1], ch);
    }
  }

  lemma {:induction false} MergedIsNewest(p: Primitives, cells: Cells, changes: seq<Change>, ch: Change)
    requires ch in changes
    ensures KeyOf(p, ch) in MergeAll(p, cells, changes)
    ensures !Newer(p, StateOf(p, ch), MergeAll(p, cells, changes)[KeyOf(p, ch)])
  {
    var before, last := changes[..|changes| - 1], changes[|changes| - 1];
    if ch != last {
      assert changes == before + [last];
      MergedIsNewest(p, cells, before, ch);
    }
  }

  lemma {:induction false} NothingNewer(p: Primitives, cells: Cells, changes: seq<Change>)
    requires forall ch :: ch in changes ==>
               KeyOf(p, ch) in cells && !Newer(p, StateOf(p, ch), cells[KeyOf(p, ch)])
    ensures MergeAll(p, cells, changes) == cells
  {
    if |changes| > 0 {
      NothingNewer(p, cells, changes[..|changes| - 1]);
    }
  }

  /** Merging a batch again changes no cell. */
  lemma MergeIdempotent(p: Primitives, cells: Cells, changes: seq<Change>)
    ensures MergeAll(p, MergeAll(p, cells, changes), changes) == MergeAll(p, cells, changes)
  {
    forall ch | ch in changes
      ensures KeyOf(p, ch) in MergeAll(p, cells, changes)
      ensures !Newer(p, StateOf(p, ch), MergeAll(p, cells, changes)[KeyOf(p, ch)])
    {
      MergedIsNewest(p, cells, changes, ch);
    }
    NothingNewer(p, MergeAll(p, cells, changes), changes);
  }

  /** A merge writes only cells that the batch names. */
  lemma {:induction false} MergeWritesNamed(p: Primitives, cells: Cells, changes: seq<Change>, k: (RowKey, string))
    requires forall ch :: ch in changes ==> KeyOf(p, ch) != k
    ensures k in MergeAll(p, cells, changes) <==> k in cells
    ensures k in cells ==> MergeAll(p, cells, changes)[k] == cells[k]
  {
    if |changes| > 0 {
      assert changes == changes[..|changes| - 1] + [changes[|changes| - 1]];
      MergeWritesNamed(p, cells, changes[..|changes| - 1], k);
    }
  }

  // ---------------------------------------------------------------- replay: claims

  /** The claim columns a change list names. */
  function Named(changes: seq<Change>): set<Column> {
    set ch | ch in changes && ColumnOf(ch.cid).Some? :: ColumnOf(ch.cid).value
  }

  datatype Field = TextField(text: string) | IntField(n: int)

  /** The part of a candidate that a column feeds. */
  function FieldOf(c: Candidate, column: Column): Field {
    match column
    case MemoryId => TextField(c.claim.memoryId)
    case MemoryType => TextField(c.claim.memoryType)
    case Namespace => TextField(c.claim.namespace)
    case Subject => TextField(c.claim.subject)
    case Body => TextField(c.claim.body)
    case SourceUri => TextField(c.claim.sourceUri)
    case SourceHash => TextField(c.claim.sourceHash)
    case AuthorAgentId => TextField(c.claim.authorAgentId)
    case OriginPeerId => TextField(c.claim.originPeerId)
    case AuthoredAt => IntField(c.claim.authoredAtMS)
    case ValidFrom => IntField(c.claim.validFromMS)
    case ValidTo => IntField(c.claim.validToMS)
    case AuthorSignature => TextField(c.signature)
  }

  /** Two candidates that may differ only in the given columns. */
  ghost predicate AgreeExcept(a: Candidate, b: Candidate, columns: set<Column>) {
    forall column: Column :: column !in columns ==> FieldOf(a, column) == FieldOf(b, column)
  }

  lemma AgreeingEverywhere(a: Candidate, b: Candidate)
    requires AgreeExcept(a, b, {})
    ensures a == b
  {
    assert FieldOf(a, MemoryId) == FieldOf(b, MemoryId) && FieldOf(a, MemoryType) == FieldOf(b, MemoryType);
    assert FieldOf(a, Namespace) == FieldOf(b, Namespace) && FieldOf(a, Subject) == FieldOf(b, Subject);
    assert FieldOf(a, Body) == FieldOf(b, Body) && FieldOf(a, SourceUri) == FieldOf(b, SourceUri);
    assert FieldOf(a, SourceHash) == FieldOf(b, SourceHash) && FieldOf(a, AuthorAgentId) == FieldOf(b, AuthorAgentId);
    assert FieldOf(a, OriginPeerId) == FieldOf(b, OriginPeerId) && FieldOf(a, AuthoredAt) == FieldOf(b, AuthoredAt);
    assert FieldOf(a, ValidFrom) == FieldOf(b, ValidFrom) && FieldOf(a, ValidTo) == FieldOf(b, ValidTo);
    assert FieldOf(a, AuthorSignature) == FieldOf(b, AuthorSignature);
  }

  /** What a change says of its column; a value it cannot be read as counts for nothing here, being refused. */
  function Carried(p: Primitives, column: Column, val: Value): Field {
    match column
    case AuthoredAt | ValidFrom | ValidTo =>
      IntField(match ValueAsInt64(val) case Some(n) => n case None => 0)
    case AuthorSignature =>
      TextField(match ValueAsBytes(p, val) case Some(b) => b case None => "")
    case _ => TextField(ValueAsString(p, val))
  }

  /** A change sets its own column's field to what it carries and leaves the others alone. */
  lemma FieldAfter(p: Primitives, c: Candidate, ch: Change, column: Column)
    requires ApplyChange(p, c, ch).Some?
    ensures FieldOf(ApplyChange(p, c, ch).value, column) ==
            if ColumnOf(ch.cid) == Some(column) then Carried(p, column, ch.val) else FieldOf(c, column)
  {}

  /** Whether a change is refused does not depend on the candidate. */
  lemma RefusedAlike(p: Primitives, a: Candidate, b: Candidate, ch: Change)
    ensures ApplyChange(p, a, ch).Some? <==> ApplyChange(p, b, ch).Some?
  {}

  /** The last of the changes to name the column. */
  function LastNaming(changes: seq<Change>, column: Column): Change
    requires column in Named(changes)
  {
    var before, last := changes[..|changes| - 1], changes[|changes| - 1];
    if ColumnOf(last.cid) == Some(column) then last
    else
      assert changes == before + [last];
      LastNaming(before, column)
  }

  /** A fold leaves unnamed fields as they were and sets each named one to what its last change carries. */
  lemma {:induction false} FieldFolded(p: Primitives, c: Candidate, changes: seq<Change>, column: Column)
    requires Fold(p, c, changes).Some?
    ensures FieldOf(Fold(p, c, changes).value, column) ==
            if column in Named(changes) then Carried(p, column, LastNaming(changes, column).val) else FieldOf(c, column)
  {
    if |changes| > 0 {
      var before, last := changes[..|changes| - 1], changes[|changes| - 1];
      assert changes == before + [last];
      FieldFolded(p, c, before, column);
      FieldAfter(p, Fold(p, c, before).value, last, column);
    }
  }

  lemma {:induction false} FoldsAlike(p: Primitives, a: Candidate, b: Candidate, changes: seq<Change>)
    ensures Fold(p, a, changes).Some? <==> Fold(p, b, changes).Some?
  {
    if |changes| > 0 {
      var before := changes[..|changes| - 1];
      FoldsAlike(p, a, b, before);
      if Fold(p, a, before).Some? {
        RefusedAlike(p, Fold(p, a, before).value, Fold(p, b, before).value, changes[|changes| - 1]);
      }
    }
  }

  /** Folding changes over candidates that differ only in columns they name makes them equal. */
  lemma FoldLevels(p: Primitives, a: Candidate, b: Candidate, changes: seq<Change>)
    requires AgreeExcept(a, b, Named(changes))
    ensures Fold(p, a, changes) == Fold(p, b, changes)
  {
    FoldsAlike(p, a, b, changes);
    if Fold(p, a, changes).Some? {
      forall column: Column | column !in {}
        ensures FieldOf(Fold(p, a, changes).value, column) == FieldOf(Fold(p, b, changes).value, column)
      {
        FieldFolded(p, a, changes, column);
        FieldFolded(p, b, changes, column);
      }
      AgreeingEverywhere(Fold(p, a, changes).value, Fold(p, b, changes).value);
    }
  }

  lemma {:induction false} OwnMember(p: Primitives, changes: seq<Change>, id: string, ch: Change)
    ensures ch in Own(p, changes, id) <==> ch in changes && Touches(p, ch) == Some(id)
  {
    if |changes| > 0 {
      assert changes == changes[..|changes| - 1] + [changes[|changes| - 1]];
      OwnMember(p, changes[..|changes| - 1], id, ch);
    }
  }

  function Cid(column: Column): (cid: string)
    ensures ColumnOf(cid) == Some(column)
  {
    match column
    case MemoryId => "memory_id"
    case MemoryType => "memory_type"
    case Namespace => "namespace"
    case Subject => "subject"
    case Body => "body"
    case SourceUri => "source_uri"
    case SourceHash => "source_hash"
    case AuthorAgentId => "author_agent_id"
    case OriginPeerId => "origin_peer_id"
    case AuthoredAt => "authored_at_ms"
    case ValidFrom => "valid_from_ms"
    case ValidTo => "valid_to_ms"
    case AuthorSignature => "author_signature"
  }

  lemma CidOf(cid: string)
    ensures ColumnOf(cid).Some? ==> cid == Cid(ColumnOf(cid).value)
  {}

  /** The field that loading a memory makes of a column's cell; the id is the row's own. */
  function ReadBack(p: Primitives, id: string, column: Column, cell: Option<CellState>): Field {
    match column
    case MemoryId => TextField(id)
    case AuthoredAt | ValidFrom | ValidTo => IntField(match cell case Some(c) => p.cellInt(c.value) case None => 0)
    case _ => TextField(match cell case Some(c) => p.cellText(c.value) case None => "")
  }

  lemma LoadedField(p: Primitives, cells: Cells, id: string, column: Column)
    ensures FieldOf(Loaded(p, cells, id), column) == ReadBack(p, id, column, Lookup(cells, (Memory(id), Cid(column))))
  {}

  /** The cell that wins a column: the stored one, or the newest of the changes if one is newer. */
  function Winner(p: Primitives, stored: Option<CellState>, changes: seq<Change>, column: Column): Option<CellState> {
    if |changes| == 0 then stored
    else
      var before, last := Winner(p, stored, changes[..|changes| - 1], column), changes[|changes| - 1];
      if ColumnOf(last.cid) != Some(column) then before
      else if before.Some? && !Newer(p, StateOf(p, last), before.value) then before
      else Some(StateOf(p, last))
  }

  lemma {:induction false} WonUnnamed(p: Primitives, stored: Option<CellState>, changes: seq<Change>, column: Column)
    requires column !in Named(changes)
    ensures Winner(p, stored, changes, column) == stored
  {
    if |changes| > 0 {
      assert changes == changes[..|changes| - 1] + [changes[|changes| - 1]];
      WonUnnamed(p, stored, changes[..|changes| - 1], column);
    }
  }

  lemma WonNext(p: Primitives, stored: Option<CellState>, before: seq<Change>, last: Change, column: Column)
    ensures Winner(p, stored, before + [last], column) ==
            var won := Winner(p, stored, before, column);
            if ColumnOf(last.cid) != Some(column) || (won.Some? && !Newer(p, StateOf(p, last), won.value)) then won
            else Some(StateOf(p, last))
  {
    assert (before + [last])[..|before|] == before;
  }

  lemma MergedNext(p: Primitives, cells: Cells, ch: Change, k: (RowKey, string))
    ensures Lookup(Merge(p, cells, ch), k) ==
            var won := Lookup(cells, k);
            if KeyOf(p, ch) != k || (won.Some? && !Newer(p, StateOf(p, ch), won.value)) then won
            else Some(StateOf(p, ch))
  {}

  lemma KeyIff(p: Primitives, ch: Change, id: string, column: Column)
    requires TrimSpace(id) != ""
    ensures KeyOf(p, ch) == (Memory(id), Cid(column)) <==> Touches(p, ch) == Some(id) && ColumnOf(ch.cid) == Some(column)
  {
    CidOf(ch.cid);
  }

  /** A merge decides each claim cell of a memory by that memory's own changes alone. */
  lemma {:induction false} MergedCell(p: Primitives, cells: Cells, changes: seq<Change>, id: string, column: Column)
    requires TrimSpace(id) != ""
    ensures var k := (Memory(id), Cid(column));
            Lookup(MergeAll(p, cells, changes), k) == Winner(p, Lookup(cells, k), Own(p, changes, id), column)
  {
    if |changes| > 0 {
      var k, before, last := (Memory(id), Cid(column)), changes[..|changes| - 1], changes[|changes| - 1];
      MergedCell(p, cells, before, id, column);
      MergedNext(p, MergeAll(p, cells, before), last, k);
      KeyIff(p, last, id, column);
      if Touches(p, last) == Some(id) {
        WonNext(p, Lookup(cells, k), Own(p, before, id), last, column);
      } else {
        assert Own(p, changes, id) == Own(p, before, id);
      }
    }
  }

  lemma {:induction false} TouchedNamed(p: Primitives, changes: seq<Change>, id: string)
    requires id in Touched(p, changes)
    ensures TrimSpace(id) != ""
  {
    if id !in Touched(p, changes[..|changes| - 1]) {
      assert Touches(p, changes[|changes| - 1]) == Some(id);
    } else {
      TouchedNamed(p, changes[..|changes| - 1], id);
    }
  }

  lemma MergedField(p: Primitives, cells: Cells, changes: seq<Change>, id: string, column: Column)
    requires id in Touched(p, changes)
    ensures FieldOf(Loaded(p, MergeAll(p, cells, changes), id), column) ==
            ReadBack(p, id, column, Winner(p, Lookup(cells, (Memory(id), Cid(column))), Own(p, changes, id), column))
  {
    TouchedNamed(p, changes, id);
    MergedCell(p, cells, changes, id, column);
    LoadedField(p, MergeAll(p, cells, changes), id, column);
  }

  lemma UnnamedFieldKept(p: Primitives, cells: Cells, changes: seq<Change>, id: string, column: Column)
    requires id in Touched(p, changes) && column !in Named(Own(p, changes, id))
    ensures FieldOf(Loaded(p, MergeAll(p, cells, changes), id), column) == FieldOf(Loaded(p, cells, id), column)
  {
    MergedField(p, cells, changes, id, column);
    WonUnnamed(p, Lookup(cells, (Memory(id), Cid(column))), Own(p, changes, id), column);
    LoadedField(p, cells, id, column);
  }

  /** Overlaying the batch on the merged row reaches the claim it reached on the original row. */
  lemma SameClaimOnReplay(p: Primitives, cells: Cells, changes: seq<Change>, id: string)
    requires id in Touched(p, changes)
    ensures ClaimAfter(p, MergeAll(p, cells, changes), changes, id) == ClaimAfter(p, cells, changes, id)
  {
    var merged, own := MergeAll(p, cells, changes), Own(p, changes, id);
    forall column: Column | column !in Named(own)
      ensures FieldOf(Loaded(p, merged, id), column) == FieldOf(Loaded(p, cells, id), column)
    {
      UnnamedFieldKept(p, cells, changes, id, column);
    }
    FoldLevels(p, Loaded(p, merged, id), Loaded(p, cells, id), own);
  }

  // ---------------------------------------------------------------- the row kept and the row verified

  /** The cell that wins a named column reads otherwise than the last change verified for it. */
  ghost predicate Lost(p: Primitives, cells: Cells, own: seq<Change>, id: string, column: Column) {
    column in Named(own) &&
    ReadBack(p, id, column, Winner(p, Lookup(cells, (Memory(id), Cid(column))), own, column)) !=
      Carried(p, column, LastNaming(own, column).val)
  }

  lemma KeptField(p: Primitives, cells: Cells, changes: seq<Change>, id: string, column: Column)
    requires id in Touched(p, changes) && ClaimAfter(p, cells, changes, id).Some?
    ensures FieldOf(Loaded(p, MergeAll(p, cells, changes), id), column) ==
              FieldOf(ClaimAfter(p, cells, changes, id).value, column)
            <==> !Lost(p, cells, Own(p, changes, id), id, column)
  {
    FieldFolded(p, Loaded(p, cells, id), Own(p, changes, id), column);
    if column in Named(Own(p, changes, id)) {
      MergedField(p, cells, changes, id, column);
    } else {
      UnnamedFieldKept(p, cells, changes, id, column);
    }
  }

  /**
    Verification overlays the batch on the stored row, while the merge keeps the newest cells. The row kept is
    the row verified exactly when no named cell of the memory loses the merge to a differing value.
   */
  lemma KeptIsVerifiedIff(p: Primitives, cells: Cells, changes: seq<Change>, id: string)
    requires id in Touched(p, changes) && ClaimAfter(p, cells, changes, id).Some?
    ensures Loaded(p, MergeAll(p, cells, changes), id) == ClaimAfter(p, cells, changes, id).value <==>
            forall column: Column :: !Lost(p, cells, Own(p, changes, id), id, column)
  {
    var kept, verified := Loaded(p, MergeAll(p, cells, changes), id), ClaimAfter(p, cells, changes, id).value;
    forall column: Column
      ensures FieldOf(kept, column) == FieldOf(verified, column) <==> !Lost(p, cells, Own(p, changes, id), id, column)
    {
      KeptField(p, cells, changes, id, column);
    }
    if column: Column :| Lost(p, cells, Own(p, changes, id), id, column) {
      KeptField(p, cells, changes, id, column);
    } else {
      assert AgreeExcept(kept, verified, {});
      AgreeingEverywhere(kept, verified);
    }
  }

  lemma {:induction false} SameJudgements(p: Primitives, st: State, next: State, changes: seq<Change>, ids: seq<string>)
    requires next.publicKeys == st.publicKeys && next.cells == MergeAll(p, st.cells, changes)
    requires forall id :: id in ids ==> id in Touched(p, changes)
    ensures JudgeAll(p, next, changes, ids) == JudgeAll(p, st, changes, ids)
  {
    if |ids| > 0 {
      SameJudgements(p, st, next, changes, ids[..|ids| - 1]);
      SameClaimOnReplay(p, st.cells, changes, ids[|ids| - 1]);
    }
  }

  lemma SameVerdicts(p: Primitives, st: State, next: State, changes: seq<Change>)
    requires next.publicKeys == st.publicKeys && next.cells == MergeAll(p, st.cells, changes)
    ensures Verified(p, next, changes) == Verified(p, st, changes)
  {
    SameJudgements(p, st, next, changes, Touched(p, changes));
    forall id | id in Touched(p, changes)
      ensures ClaimAfter(p, next.cells, changes, id) == ClaimAfter(p, st.cells, changes, id)
    {
      SameClaimOnReplay(p, st.cells, changes, id);
    }
  }

  /** The last verdict on a memory is the recorded one. */
  lemma {:induction false} RecordedLast(table: map<string, Status>, verdicts: seq<Verdict>, i: nat)
    requires i < |verdicts| && forall j :: i < j < |verdicts| ==> verdicts[j].memoryId != verdicts[i].memoryId
    ensures verdicts[i].memoryId in RecordVerdicts(table, verdicts)
    ensures RecordVerdicts(table, verdicts)[verdicts[i].memoryId] == verdicts[i].status
  {
    if i < |verdicts| - 1 {
      RecordedLast(table, verdicts[..|verdicts| - 1], i);
    }
  }

  lemma {:induction false} RecordingKnown(table: map<string, Status>, verdicts: seq<Verdict>)
    requires forall v :: v in verdicts ==> v.memoryId in table && table[v.memoryId] == v.status
    ensures RecordVerdicts(table, verdicts) == table
  {
    if |verdicts| > 0 {
      RecordingKnown(table, verdicts[..|verdicts| - 1]);
    }
  }

  lemma VerdictsIdempotent(p: Primitives, st: State, changes: seq<Change>)
    requires Verified(p, st, changes).Ok?
    ensures var verdicts := Verified(p, st, changes).value;
            RecordVerdicts(RecordVerdicts(st.verification, verdicts), verdicts) == RecordVerdicts(st.verification, verdicts)
  {
    var verdicts := Verified(p, st, changes).value;
    VerdictsDistinct(p, st, changes);
    forall v | v in verdicts
      ensures v.memoryId in RecordVerdicts(st.verification, verdicts)
      ensures RecordVerdicts(st.verification, verdicts)[v.memoryId] == v.status
    {
      var i :| 0 <= i < |verdicts| && verdicts[i] == v;
      RecordedLast(st.verification, verdicts, i);
    }
    RecordingKnown(RecordVerdicts(st.verification, verdicts), verdicts);
  }

  lemma VerdictsDistinct(p: Primitives, st: State, changes: seq<Change>)
    requires Verified(p, st, changes).Ok?
    ensures var verdicts := Verified(p, st, changes).value;
            forall i, j :: 0 <= i < j < |verdicts| ==> verdicts[j].memoryId != verdicts[i].memoryId
  {
    var verdicts, ids := Verified(p, st, changes).value, Touched(p, changes);
    VerifiedIff(p, st, changes);
    TouchedOnce(p, changes);
    forall i | 0 <= i < |verdicts|
      ensures verdicts[i].memoryId == ids[i]
    {
      assert JudgedAt(p, st, changes, ids[i], verdicts[i]);
    }
  }

  /**
    Replay safety: a batch that was applied is accepted again, with the same verdicts, and applying it a
    second time changes neither cells nor verification states nor cursors nor anything else modelled here.
   */
  lemma ReplaySafe(p: Primitives, st: State, meta: Meta, fromPeerId: string, batch: Batch)
    requires Applied(p, st, meta, fromPeerId, batch).1 == None
    ensures var once := Applied(p, st, meta, fromPeerId, batch).0;
            Checked(p, once, meta, batch) == Checked(p, st, meta, batch) &&
            Applied(p, once, meta, fromPeerId, batch) == (once, None)
  {
    var once := Applied(p, st, meta, fromPeerId, batch).0;
    SameVerdicts(p, st, once, batch.changes);
    AcceptedTwice(p, st, fromPeerId, batch);
  }

  lemma AcceptedTwice(p: Primitives, st: State, fromPeerId: string, batch: Batch)
    requires Verified(p, st, batch.changes).Ok?
    ensures var verdicts := Verified(p, st, batch.changes).value;
            var once := Accepted(p, st, fromPeerId, batch, verdicts);
            Accepted(p, once, fromPeerId, batch, verdicts) == once
  {
    MergeIdempotent(p, st.cells, batch.changes);
    VerdictsIdempotent(p, st, batch.changes);
  }

  /** A refused batch touches nothing but the quarantine and the peer's error. */
  lemma RefusalIsContained(p: Primitives, st: State, meta: Meta, fromPeerId: string, batch: Batch)
    requires Applied(p, st, meta, fromPeerId, batch).1 != None
    ensures var after := Applied(p, st, meta, fromPeerId, batch).0;
            after.cells == st.cells && after.verification == st.verification && after.cursors == st.cursors &&
            (forall b :: b in st.quarantine ==> b in after.quarantine && after.quarantine[b] == st.quarantine[b]) &&
            (batch.batchId !in st.quarantine ==>
              Checked(p, st, meta, batch) == Err(after.quarantine[batch.batchId]))
  {}

  /** The verdict a batch records for a memory it touches is that of the memory's claim. */
  lemma RecordedVerdict(p: Primitives, st: State, changes: seq<Change>, id: string)
    requires Verified(p, st, changes).Ok? && id in Touched(p, changes)
    ensures var table := RecordVerdicts(st.verification, Verified(p, st, changes).value);
            ClaimAfter(p, st.cells, changes, id).Some? && id in table &&
            Judge(p, st, id, ClaimAfter(p, st.cells, changes, id).value) == Ok(Verdict(id, table[id]))
  {
    var verdicts, ids := Verified(p, st, changes).value, Touched(p, changes);
    VerifiedIff(p, st, changes);
    VerdictsDistinct(p, st, changes);
    var i :| 0 <= i < |ids| && ids[i] == id;
    assert JudgedAt(p, st, changes, ids[i], verdicts[i]);
    RecordedLast(st.verification, verdicts, i);
  }

  /** Where no cell is lost, the status recorded for a memory is the verdict on the row now stored. */
  lemma StatusOfKeptRow(p: Primitives, st: State, meta: Meta, fromPeerId: string, batch: Batch, id: string)
    requires Applied(p, st, meta, fromPeerId, batch).1 == None && id in Touched(p, batch.changes)
    requires forall column: Column :: !Lost(p, st.cells, Own(p, batch.changes, id), id, column)
    ensures var after := Applied(p, st, meta, fromPeerId, batch).0;
            id in after.verification &&
            Judge(p, after, id, Loaded(p, after.cells, id)) == Ok(Verdict(id, after.verification[id]))
  {
    var after := Applied(p, st, meta, fromPeerId, batch).0;
    RecordedVerdict(p, st, batch.changes, id);
    KeptIsVerifiedIff(p, st.cells, batch.changes, id);
    SameKeys(p, st, after, id, Loaded(p, after.cells, id));
  }

  lemma SameKeys(p: Primitives, a: State, b: State, id: string, c: Candidate)
    requires a.publicKeys == b.publicKeys
    ensures Judge(p, a, id, c) == Judge(p, b, id, c)
  {}

  /** Encodings that decode to themselves, and a signature that covers the body "old". */
  const PLAIN := Primitives(text => Some(text), number => "", (cell: Cell) => if cell.TextCell? then cell.s else "",
                            cell => 0, cell => 0, (claim: Claim, signature, key) => claim.body == "old")

  const NEW_ROW: Cells := map[(Memory("m"), "body") := CellState(TextCell("new"), 2),
                              (Memory("m"), "origin_peer_id") := CellState(TextCell("peer"), 1),
                              (Memory("m"), "author_signature") := CellState(TextCell("s"), 1)]

  function OlderBatch(meta: Meta): Batch {
    Batch("b", "peer", "n", meta.schemaHash, meta.crrManifestHash, 1,
          [Change("memory_nodes", "m", "body", Value(false, None, None, Some("old"), None), 1, 1, "site", 0, 0)])
  }

  lemma OlderTouches(meta: Meta)
    ensures Touches(PLAIN, OlderBatch(meta).changes[0]) == Some("m")
    ensures Touched(PLAIN, OlderBatch(meta).changes) == ["m"]
    ensures Own(PLAIN, OlderBatch(meta).changes, "m") == OlderBatch(meta).changes
  {
    assert FromAlphaNumeric("m") == Some("m");
    assert TrimSpace("m") == "m";
  }

  /** The claim that is verified has the older body, and passes. */
  lemma OlderClaim(st: State, meta: Meta)
    requires st.cells == NEW_ROW && st.publicKeys == map["peer" := "key"]
    ensures Verified(PLAIN, st, OlderBatch(meta).changes) == Ok([Verdict("m", Valid)])
  {
    OlderTouches(meta);
    OlderFold(Loaded(PLAIN, st.cells, "m"), meta);
    assert TrimSpace("key") == "key";
    OnlyVerdict(PLAIN, st, OlderBatch(meta).changes, "m", Verdict("m", Valid));
  }

  lemma OlderFold(start: Candidate, meta: Meta)
    ensures Fold(PLAIN, start, OlderBatch(meta).changes) == Some(start.(claim := start.claim.(body := "old")))
  {
    var changes := OlderBatch(meta).changes;
    assert changes[..0] == [] && ColumnOf(changes[0].cid) == Some(Body);
  }

  lemma OnlyVerdict(p: Primitives, st: State, changes: seq<Change>, id: string, v: Verdict)
    requires Touched(p, changes) == [id] && ClaimAfter(p, st.cells, changes, id).Some?
    requires Judge(p, st, id, ClaimAfter(p, st.cells, changes, id).value) == Ok(v)
    ensures Verified(p, st, changes) == Ok([v])
  {
    assert JudgeAll(p, st, changes, [id][..0]) == Ok([]) && [id][..1] == [id];
    JudgeAllNext(p, st, changes, [id], 0, ClaimAfter(p, st.cells, changes, id).value, []);
    assert forall other :: other in Touched(p, changes) ==> other == id;
    var none: seq<Verdict> := [];
    assert none + [v] == [v];
  }

  lemma OnlyRecorded(table: map<string, Status>, v: Verdict)
    ensures RecordVerdicts(table, [v]) == table[v.memoryId := v.status]
  {
    assert [v][..0] == [] && RecordVerdicts(table, []) == table;
  }

  lemma OlderWellFormed(meta: Meta)
    ensures FirstMalformed(PLAIN, OlderBatch(meta).changes) == None
  {
    var changes := OlderBatch(meta).changes;
    assert changes[..0] == [] && FirstMalformed(PLAIN, []) == None && Malformed(PLAIN, changes[0]) == None;
  }

  /** The merge keeps the stored row. */
  lemma OlderMerge(meta: Meta)
    ensures MergeAll(PLAIN, NEW_ROW, OlderBatch(meta).changes) == NEW_ROW
  {
    var changes := OlderBatch(meta).changes;
    OlderTouches(meta);
    assert changes[..0] == [] && KeyOf(PLAIN, changes[0]) == (Memory("m"), "body");
  }

  /** The stored row, judged, is refused. */
  lemma StoredRowRefused(st: State)
    requires st.cells == NEW_ROW && st.publicKeys == map["peer" := "key"]
    ensures Judge(PLAIN, st, "m", Loaded(PLAIN, st.cells, "m")) == Err(InvalidSignature("m"))
  {
    assert TrimSpace("key") == "key";
  }

  lemma AppliedWhen(p: Primitives, st: State, meta: Meta, fromPeerId: string, batch: Batch, verdicts: seq<Verdict>)
    requires batch.schemaHash == meta.schemaHash && batch.crrManifestHash == meta.crrManifestHash
    requires Verified(p, st, batch.changes) == Ok(verdicts) && FirstMalformed(p, batch.changes) == None
    ensures Applied(p, st, meta, fromPeerId, batch) == (Accepted(p, st, fromPeerId, batch, verdicts), None)
  {}

  /**
    A cell that is lost: the body verified is the batch's, the body kept the stored newer one, and the status
    recorded is not the verdict on the row kept.
   */
  lemma OlderChangeVerified(st: State, meta: Meta)
    requires st.cells == NEW_ROW && st.publicKeys == map["peer" := "key"]
    ensures var after := Applied(PLAIN, st, meta, "peer", OlderBatch(meta));
            after.1 == None && "m" in after.0.verification && after.0.verification["m"] == Valid &&
            Judge(PLAIN, after.0, "m", Loaded(PLAIN, after.0.cells, "m")) == Err(InvalidSignature("m"))
  {
    OlderClaim(st, meta);
    OlderMerge(meta);
    OlderWellFormed(meta);
    OnlyRecorded(st.verification, Verdict("m", Valid));
    AppliedWhen(PLAIN, st, meta, "peer", OlderBatch(meta), [Verdict("m", Valid)]);
    StoredRowRefused(Accepted(PLAIN, st, "peer", OlderBatch(meta), [Verdict("m", Valid)]));
  }
}
