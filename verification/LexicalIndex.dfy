/**
  The trigger cascade retrieval_units → retrieval_fts → retrieval_fts_index, and the migrator's
  rebuild. The two derived tables always hold exactly what the units say.
 */
module LexicalIndex {
  import opened Prelude
  import opened Records

  datatype FtsRow = FtsRow(memorySpace: string, namespace: string, sourceType: string, unitKind: string,
                           title: string, body: string)

  /** A row of the full-text table, which no constraint keeps unique. */
  datatype IndexRow = IndexRow(unitId: string, row: FtsRow)

  datatype IndexTable = IndexTable(rows: multiset<IndexRow>, tokenizer: string)

  /** `storedTokenizer` is the metadata value, empty in databases older than the key. */
  datatype Tables = Tables(units: map<string, UnitRow>, fts: map<string, FtsRow>, index: Option<IndexTable>,
                           memoryIndexExists: bool, triggers: bool, storedTokenizer: string)

  datatype Options = Options(tokenizer: string, forceRebuild: bool, appliedNewMigration: bool, fts5: bool)

  datatype Error = UniqueViolation | UnsupportedTokenizer

  type Outcome = Result<Tables, Error>

  /** The projection both trigger bodies spell out: the body is blanked unless the unit is exposed. */
  function Projection(u: UnitRow): FtsRow {
    FtsRow(u.memorySpace, u.namespace, u.sourceType, u.unitKind, u.title,
           if u.state != "active" || u.sensitivity == "secret" then "" else u.body)
  }

  // ---------------------------------------------------------------- statements as functions

  ghost function Deleted(rows: multiset<IndexRow>, unitId: string): (r: multiset<IndexRow>)
    ensures forall x :: r[x] == if x.unitId == unitId then 0 else rows[x]
    decreases |rows|
  {
    if exists x :: x in rows && x.unitId == unitId then
      var x :| x in rows && x.unitId == unitId;
      assert rows == rows[x := 0] + multiset{x}[x := rows[x]];
      Deleted(rows[x := 0], unitId)
    else rows
  }

  /** INSERT INTO retrieval_fts, with its trigger. */
  function InsertFts(t: Tables, unitId: string, row: FtsRow): Outcome {
    if unitId in t.fts then Err(UniqueViolation)
    else
      var index := if t.triggers && t.index.Some?
                   then Some(t.index.value.(rows := t.index.value.rows + multiset{IndexRow(unitId, row)})) else t.index;
      Ok(t.(fts := t.fts[unitId := row], index := index))
  }

  /** DELETE FROM retrieval_fts WHERE unit_id = ?, with its trigger. */
  ghost function DeleteFts(t: Tables, unitId: string): Tables {
    if unitId !in t.fts then t
    else
      var index := if t.triggers && t.index.Some?
                   then Some(t.index.value.(rows := Deleted(t.index.value.rows, unitId))) else t.index;
      t.(fts := t.fts - {unitId}, index := index)
  }

  /** UNIQUE(source_type, source_id): another unit has this source. */
  predicate SourceTaken(units: map<string, UnitRow>, unitId: string, u: UnitRow) {
    exists other :: other in units && other != unitId &&
                    units[other].sourceType == u.sourceType && units[other].sourceId == u.sourceId
  }

  function InsertUnit(t: Tables, unitId: string, u: UnitRow): Outcome {
    if unitId in t.units || SourceTaken(t.units, unitId, u) then Err(UniqueViolation)
    else InsertFts(t.(units := t.units[unitId := u]), unitId, Projection(u))
  }

  /** UPDATE of one row, possibly to another key. */
  ghost function UpdateUnit(t: Tables, unitId: string, newId: string, u: UnitRow): Outcome {
    if unitId !in t.units then Ok(t)
    else if (newId != unitId && newId in t.units) || SourceTaken(t.units, unitId, u) then Err(UniqueViolation)
    else InsertFts(DeleteFts(t.(units := (t.units - {unitId})[newId := u]), newId), newId, Projection(u))
  }

  /** The service's upsert, which never changes the key. */
  ghost function UpsertUnit(t: Tables, unitId: string, u: UnitRow): Outcome {
    if unitId in t.units then UpdateUnit(t, unitId, unitId, u) else InsertUnit(t, unitId, u)
  }

  ghost function DeleteUnit(t: Tables, unitId: string): Tables {
    if unitId !in t.units then t else DeleteFts(t.(units := t.units - {unitId}), unitId)
  }

  // ---------------------------------------------------------------- the migrator

  function TokenizerDdl(tokenizer: string): Option<string> {
    var name := ToLower(TrimSpace(tokenizer));
    if name == "" || name == "unicode61" then Some("unicode61")
    else if name == "trigram" then Some("trigram")
    else None
  }

  function NormalTokenizer(tokenizer: string): string {
    if TrimSpace(tokenizer) == "" then "unicode61" else tokenizer
  }

  function ShouldBackfill(t: Tables, o: Options): bool {
    var tokenizer := NormalTokenizer(o.tokenizer);
    o.appliedNewMigration || o.forceRebuild || !t.memoryIndexExists || t.index.None? ||
    (if t.storedTokenizer == "" then tokenizer != "unicode61" else t.storedTokenizer != tokenizer)
  }

  function AllRows(fts: map<string, FtsRow>): multiset<IndexRow> {
    multiset(set id | id in fts :: IndexRow(id, fts[id]))
  }

  /** `ensureFTSIndexes`: drop when rebuilding, create what is missing, install triggers, refill when rebuilding. */
  function EnsureIndexes(t: Tables, rebuild: bool, tokenizer: string): Outcome {
    match TokenizerDdl(tokenizer)
    case None => Err(UnsupportedTokenizer)
    case Some(ddl) =>
      var kept := if rebuild then None else t.index;
      var table := if kept.Some? then kept.value else IndexTable(multiset{}, ddl);
      Ok(t.(index := Some(if rebuild then table.(rows := AllRows(t.fts)) else table),
            memoryIndexExists := true, triggers := true))
  }

  function Migrate(t: Tables, o: Options): Outcome {
    var tokenizer := NormalTokenizer(o.tokenizer);
    match (if o.fts5 then EnsureIndexes(t, ShouldBackfill(t, o), tokenizer) else Ok(t))
    case Err(e) => Err(e)
    case Ok(t1) => Ok(t1.(storedTokenizer := tokenizer))
  }

  // ---------------------------------------------------------------- the database

  class Database {
    var t: Tables

    constructor ()
      ensures t == EMPTY
    {
      t := EMPTY;
    }

    method DeleteFromIndex(rows0: multiset<IndexRow>, unitId: string) returns (rows: multiset<IndexRow>)
      ensures rows == Deleted(rows0, unitId)
    {
      rows := rows0;
      var hits := set r | r in rows && r.unitId == unitId;
      while hits != {}
        invariant hits <= set r | r in rows0 && r.unitId == unitId
        invariant forall r :: rows[r] == if r in rows0 && r.unitId == unitId && r !in hits then 0 else rows0[r]
        decreases hits
      {
        var r :| r in hits;
        rows := rows[r := 0];
        hits := hits - {r};
      }
      assert forall r :: rows[r] == Deleted(rows0, unitId)[r];
    }

    method InsertIntoFts(t0: Tables, unitId: string, row: FtsRow) returns (r: Outcome)
      ensures r == InsertFts(t0, unitId, row)
    {
      if unitId in t0.fts {
        return Err(UniqueViolation);
      }
      var t1 := t0.(fts := t0.fts[unitId := row]);
      if t1.triggers && t1.index.Some? {
        t1 := t1.(index := Some(t1.index.value.(rows := t1.index.value.rows + multiset{IndexRow(unitId, row)})));
      }
      return Ok(t1);
    }

    method DeleteFromFts(t0: Tables, unitId: string) returns (t1: Tables)
      ensures t1 == DeleteFts(t0, unitId)
    {
      t1 := t0;
      if unitId in t0.fts {
        t1 := t1.(fts := t1.fts - {unitId});
        if t1.triggers && t1.index.Some? {
          var rows := DeleteFromIndex(t1.index.value.rows, unitId);
          t1 := t1.(index := Some(t1.index.value.(rows := rows)));
        }
      }
    }

    method Insert(unitId: string, u: UnitRow) returns (failure: Option<Error>)
      modifies this
      ensures Committed(old(t), InsertUnit(old(t), unitId, u), failure, t)
    {
      if unitId in t.units || SourceTaken(t.units, unitId, u) {
        return Some(UniqueViolation);
      }
      var r := InsertIntoFts(t.(units := t.units[unitId := u]), unitId, Projection(u));
      if r.Err? {
        return Some(r.error);
      }
      t := r.value;
      return None;
    }

    method Update(unitId: string, newId: string, u: UnitRow) returns (failure: Option<Error>)
      modifies this
      ensures Committed(old(t), UpdateUnit(old(t), unitId, newId, u), failure, t)
    {
      if unitId !in t.units {
        return None;
      }
      if (newId != unitId && newId in t.units) || SourceTaken(t.units, unitId, u) {
        return Some(UniqueViolation);
      }
      var t1 := t.(units := (t.units - {unitId})[newId := u]);
      t1 := DeleteFromFts(t1, newId);
      var r := InsertIntoFts(t1, newId, Projection(u));
      if r.Err? {
        return Some(r.error);
      }
      t := r.value;
      return None;
    }

    method Delete(unitId: string)
      modifies this
      ensures t == DeleteUnit(old(t), unitId)
    {
      if unitId in t.units {
        t := DeleteFromFts(t.(units := t.units - {unitId}), unitId);
      }
    }

    /** Statement by statement, in one transaction. */
    method EnsureFtsIndexes(t0: Tables, rebuild: bool, tokenizer: string) returns (r: Outcome)
      ensures r == EnsureIndexes(t0, rebuild, tokenizer)
    {
      var ddl := TokenizerDdl(tokenizer);
      if ddl.None? {
        return Err(UnsupportedTokenizer);
      }
      var t1 := t0;
      if rebuild {
        t1 := t1.(index := None, memoryIndexExists := false);
      }
      if t1.index.None? {
        t1 := t1.(index := Some(IndexTable(multiset{}, ddl.value)));
      }
      t1 := t1.(memoryIndexExists := true);
      t1 := t1.(triggers := true);
      if !rebuild {
        return Ok(t1);
      }
      t1 := t1.(index := Some(t1.index.value.(rows := multiset{})));
      var rows := CopyRows(t1.fts);
      t1 := t1.(index := Some(t1.index.value.(rows := rows)));
      return Ok(t1);
    }

    /** INSERT … SELECT: every row of the source table, in whatever order. */
    method CopyRows(fts: map<string, FtsRow>) returns (rows: multiset<IndexRow>)
      ensures rows == AllRows(fts)
    {
      rows := multiset{};
      var todo := fts.Keys;
      ghost var done: set<IndexRow> := {};
      while todo != {}
        invariant todo <= fts.Keys
        invariant done == set id | id in fts && id !in todo :: IndexRow(id, fts[id])
        invariant rows == multiset(done)
        decreases todo
      {
        var id :| id in todo;
        assert IndexRow(id, fts[id]) !in done;
        rows := rows + multiset{IndexRow(id, fts[id])};
        done := done + {IndexRow(id, fts[id])};
        todo := todo - {id};
      }
      assert done == set id | id in fts :: IndexRow(id, fts[id]);
    }

    method RunMigrations(o: Options) returns (failure: Option<Error>)
      modifies this
      ensures Committed(old(t), Migrate(old(t), o), failure, t)
    {
      var tokenizer := NormalTokenizer(o.tokenizer);
      var t1 := t;
      if o.fts5 {
        var r := EnsureFtsIndexes(t1, ShouldBackfill(t1, o), tokenizer);
        if r.Err? {
          return Some(r.error);
        }
        t1 := r.value;
      }
      t := t1.(storedTokenizer := tokenizer);
      return None;
    }
  }

  ghost predicate Committed(before: Tables, outcome: Outcome, failure: Option<Error>, after: Tables) {
    match outcome
    case Ok(done) => failure == None && after == done
    case Err(e) => failure == Some(e) && after == before
  }

  const EMPTY := Tables(map[], map[], None, false, false, "")

  // ---------------------------------------------------------------- agreement

  /** One masked row per unit; the index, once there, equals that table as a multiset. */
  ghost predicate Agreement(t: Tables) {
    t.fts.Keys == t.units.Keys &&
    (forall id :: id in t.units ==> t.fts[id] == Projection(t.units[id])) &&
    (t.index.Some? <==> t.triggers) &&
    (t.index.Some? ==> t.index.value.rows == AllRows(t.fts))
  }

  lemma AllRowsAt(fts: map<string, FtsRow>, x: IndexRow)
    ensures AllRows(fts)[x] == if x.unitId in fts && fts[x.unitId] == x.row then 1 else 0
  {
    var s := set id | id in fts :: IndexRow(id, fts[id]);
    assert x in s <==> x.unitId in fts && fts[x.unitId] == x.row;
  }

  lemma AllRowsInsert(fts: map<string, FtsRow>, unitId: string, row: FtsRow)
    requires unitId !in fts
    ensures AllRows(fts[unitId := row]) == AllRows(fts) + multiset{IndexRow(unitId, row)}
  {
    forall x
      ensures AllRows(fts[unitId := row])[x] == (AllRows(fts) + multiset{IndexRow(unitId, row)})[x]
    {
      AllRowsAt(fts, x);
      AllRowsAt(fts[unitId := row], x);
    }
  }

  lemma AllRowsDelete(fts: map<string, FtsRow>, unitId: string)
    ensures AllRows(fts - {unitId}) == Deleted(AllRows(fts), unitId)
  {
    forall x
      ensures AllRows(fts - {unitId})[x] == Deleted(AllRows(fts), unitId)[x]
    {
      AllRowsAt(fts, x);
      AllRowsAt(fts - {unitId}, x);
    }
  }

  /** The index half of agreement, which fts statements keep whatever the units are. */
  ghost predicate IndexFollows(t: Tables) {
    (t.index.Some? <==> t.triggers) && (t.index.Some? ==> t.index.value.rows == AllRows(t.fts))
  }

  lemma DeleteFtsFollows(t: Tables, unitId: string)
    requires IndexFollows(t)
    ensures IndexFollows(DeleteFts(t, unitId)) && unitId !in DeleteFts(t, unitId).fts
    ensures DeleteFts(t, unitId).fts == t.fts - {unitId} && DeleteFts(t, unitId).units == t.units
  {
    AllRowsDelete(t.fts, unitId);
  }

  lemma InsertFtsFollows(t: Tables, unitId: string, row: FtsRow)
    requires IndexFollows(t) && unitId !in t.fts
    ensures InsertFts(t, unitId, row).Ok? && IndexFollows(InsertFts(t, unitId, row).value)
    ensures InsertFts(t, unitId, row).value.fts == t.fts[unitId := row]
    ensures InsertFts(t, unitId, row).value.units == t.units
  {
    AllRowsInsert(t.fts, unitId, row);
  }

  datatype Op =
    | Insert(unitId: string, u: UnitRow)
    | Upsert(unitId: string, u: UnitRow)
    | Delete(unitId: string)
    | RunMigrations(o: Options)

  ghost function After(t: Tables, op: Op): Tables {
    match op
    case Insert(id, u) => Kept(t, InsertUnit(t, id, u))
    case Upsert(id, u) => Kept(t, UpsertUnit(t, id, u))
    case Delete(id) => DeleteUnit(t, id)
    case RunMigrations(o) => Kept(t, Migrate(t, o))
  }

  function Kept(t: Tables, outcome: Outcome): Tables {
    match outcome
    case Ok(done) => done
    case Err(_) => t
  }

  ghost function RunOps(ops: seq<Op>): Tables {
    if |ops| == 0 then EMPTY else After(RunOps(ops[..|ops| - 1]), ops[|ops| - 1])
  }

  /** A key-preserving update goes through, whatever else the row changes, if its source is its own. */
  lemma UpdateKeeps(t: Tables, unitId: string, u: UnitRow)
    requires Agreement(t) && unitId in t.units && !SourceTaken(t.units, unitId, u)
    ensures UpdateUnit(t, unitId, unitId, u).Ok? && Agreement(UpdateUnit(t, unitId, unitId, u).value)
    ensures UpdateUnit(t, unitId, unitId, u).value.units == t.units[unitId := u]
  {
    var t1 := t.(units := (t.units - {unitId})[unitId := u]);
    assert t1.units == t.units[unitId := u];
    DeleteFtsFollows(t1, unitId);
    InsertFtsFollows(DeleteFts(t1, unitId), unitId, Projection(u));
  }

  lemma InsertKeeps(t: Tables, unitId: string, u: UnitRow)
    requires Agreement(t) && unitId !in t.units && !SourceTaken(t.units, unitId, u)
    ensures InsertUnit(t, unitId, u).Ok? && Agreement(InsertUnit(t, unitId, u).value)
    ensures InsertUnit(t, unitId, u).value.units == t.units[unitId := u]
  {
    InsertFtsFollows(t.(units := t.units[unitId := u]), unitId, Projection(u));
  }

  /** No two units have one source. */
  ghost predicate SourcesUnique(units: map<string, UnitRow>) {
    forall id :: id in units ==> !SourceTaken(units, id, units[id])
  }

  lemma SourcesStayUnique(units: map<string, UnitRow>, unitId: string, u: UnitRow)
    requires SourcesUnique(units) && !SourceTaken(units, unitId, u)
    ensures SourcesUnique(units[unitId := u])
  {
    var after := units[unitId := u];
    forall id | id in after
      ensures !SourceTaken(after, id, after[id])
    {
      if id in units {
        assert !SourceTaken(units, id, units[id]);
      }
    }
  }

  lemma WriteKeeps(t: Tables, unitId: string, u: UnitRow)
    requires Agreement(t) && SourcesUnique(t.units) && UpsertUnit(t, unitId, u).Ok?
    ensures Agreement(UpsertUnit(t, unitId, u).value) && SourcesUnique(UpsertUnit(t, unitId, u).value.units)
  {
    SourcesStayUnique(t.units, unitId, u);
    if unitId in t.units {
      UpdateKeeps(t, unitId, u);
    } else {
      InsertKeeps(t, unitId, u);
    }
  }

  lemma DeleteKeeps(t: Tables, unitId: string)
    requires Agreement(t) && SourcesUnique(t.units)
    ensures Agreement(DeleteUnit(t, unitId)) && SourcesUnique(DeleteUnit(t, unitId).units)
  {
    if unitId in t.units {
      DeleteFtsFollows(t.(units := t.units - {unitId}), unitId);
      forall id | id in t.units - {unitId}
        ensures !SourceTaken(t.units - {unitId}, id, t.units[id])
      {
        assert !SourceTaken(t.units, id, t.units[id]);
      }
    }
  }

  lemma AfterKeeps(t: Tables, op: Op)
    requires Agreement(t) && SourcesUnique(t.units)
    ensures Agreement(After(t, op)) && SourcesUnique(After(t, op).units)
  {
    match op
    case Insert(id, u) =>
      if InsertUnit(t, id, u).Ok? {
        WriteKeeps(t, id, u);
      }
    case Upsert(id, u) =>
      if UpsertUnit(t, id, u).Ok? {
        WriteKeeps(t, id, u);
      }
    case Delete(id) => DeleteKeeps(t, id);
    case RunMigrations(o) =>
  }

  /**
    After any sequence of inserts, upserts and deletes mixed with migrator runs, each unit has exactly one
    lexical row, blanked unless it is exposed, and the full-text index equals that table.
   */
  lemma {:induction false} AlwaysAgrees(ops: seq<Op>)
    ensures Agreement(RunOps(ops)) && SourcesUnique(RunOps(ops).units)
  {
    if |ops| > 0 {
      AlwaysAgrees(ops[..|ops| - 1]);
      AfterKeeps(RunOps(ops[..|ops| - 1]), ops[|ops| - 1]);
    }
  }

  // ---------------------------------------------------------------- what search shows

  /** The lexical row of a unit: its own columns, with the body only while it is active and not secret. */
  predicate ShowsUnit(u: UnitRow, row: FtsRow) {
    row.memorySpace == u.memorySpace && row.namespace == u.namespace && row.sourceType == u.sourceType &&
    row.unitKind == u.unitKind && row.title == u.title &&
    (u.state != "active" || u.sensitivity == "secret" ==> row.body == "") &&
    (u.state == "active" && u.sensitivity != "secret" ==> row.body == u.body)
  }

  /** The index row is that of a stored unit. */
  predicate Shown(t: Tables, x: IndexRow) {
    x.unitId in t.units && ShowsUnit(t.units[x.unitId], x.row)
  }

  function Count(there: bool): nat {
    if there then 1 else 0
  }

  lemma ProjectionShows(u: UnitRow, row: FtsRow)
    ensures ShowsUnit(u, row) <==> row == Projection(u)
  {}

  /**
    After any sequence of writes and migrator runs the lexical table holds the row of each unit and no other,
    and the index, once it is there, holds each of these rows once and no other.
   */
  lemma SearchShowsUnits(ops: seq<Op>)
    ensures var t := RunOps(ops);
            (forall id :: id in t.fts <==> id in t.units) &&
            (forall id :: id in t.units ==> ShowsUnit(t.units[id], t.fts[id])) &&
            (t.index.Some? ==> forall x :: t.index.value.rows[x] == Count(Shown(t, x)))
  {
    var t := RunOps(ops);
    AlwaysAgrees(ops);
    forall id | id in t.units
      ensures ShowsUnit(t.units[id], t.fts[id])
    {
      ProjectionShows(t.units[id], t.fts[id]);
    }
    if t.index.Some? {
      forall x
        ensures t.index.value.rows[x] == Count(Shown(t, x))
      {
        AllRowsAt(t.fts, x);
        if x.unitId in t.units {
          ProjectionShows(t.units[x.unitId], x.row);
        }
      }
    }
  }

  /** So nothing that is inactive or secret can be found by its text, and everything else can, in one row. */
  lemma FoundIffExposed(ops: seq<Op>, id: string)
    requires RunOps(ops).index.Some? && id in RunOps(ops).units && RunOps(ops).units[id].body != ""
    ensures var t := RunOps(ops);
            var hits := set x | x in t.index.value.rows && x.unitId == id && x.row.body == t.units[id].body;
            if Exposed(t.units[id]) then exists x :: hits == {x} && t.index.value.rows[x] == 1 else hits == {}
  {
    var t := RunOps(ops);
    var hits := set x | x in t.index.value.rows && x.unitId == id && x.row.body == t.units[id].body;
    SearchShowsUnits(ops);
    ProjectionShows(t.units[id], Projection(t.units[id]));
    if Exposed(t.units[id]) {
      var x := IndexRow(id, Projection(t.units[id]));
      forall y | y in hits
        ensures y == x
      {
        ProjectionShows(t.units[id], y.row);
      }
      assert t.index.value.rows[x] == 1 && hits == {x};
    }
  }

  /** A reachable database. */
  ghost predicate Sound(t: Tables) {
    Agreement(t) && SourcesUnique(t.units)
  }

  /** A write goes through exactly when the source is free, an insert if its key is new too; then the row is as given. */
  lemma WriteIff(t: Tables, unitId: string, u: UnitRow)
    requires Sound(t)
    ensures var free := forall other :: other in t.units && other != unitId ==>
                          (t.units[other].sourceType, t.units[other].sourceId) != (u.sourceType, u.sourceId);
            (InsertUnit(t, unitId, u).Ok? <==> unitId !in t.units && free) && (UpsertUnit(t, unitId, u).Ok? <==> free)
    ensures forall outcome :: outcome in {InsertUnit(t, unitId, u), UpsertUnit(t, unitId, u)} && outcome.Ok? ==>
              outcome.value.units == t.units[unitId := u] && outcome.value.storedTokenizer == t.storedTokenizer
  {
    if !SourceTaken(t.units, unitId, u) {
      if unitId in t.units {
        UpdateKeeps(t, unitId, u);
      } else {
        InsertKeeps(t, unitId, u);
      }
    }
  }

  /** A key change also needs the new key to be free; a row that is not there is not updated. */
  lemma UpdateIff(t: Tables, unitId: string, newId: string, u: UnitRow)
    requires Sound(t)
    ensures var free := forall other :: other in t.units && other != unitId ==>
                          other != newId &&
                          (t.units[other].sourceType, t.units[other].sourceId) != (u.sourceType, u.sourceId);
            match UpdateUnit(t, unitId, newId, u)
            case Ok(next) =>
              if unitId in t.units then free && next.units == (t.units - {unitId})[newId := u] else next == t
            case Err(e) => unitId in t.units && !free && e == UniqueViolation
  {
    if unitId in t.units && !SourceTaken(t.units, unitId, u) {
      DeleteFtsFollows(t.(units := (t.units - {unitId})[newId := u]), newId);
      InsertFtsFollows(DeleteFts(t.(units := (t.units - {unitId})[newId := u]), newId), newId, Projection(u));
    }
  }

  lemma DeleteMeans(t: Tables, unitId: string)
    ensures DeleteUnit(t, unitId).units == t.units - {unitId}
    ensures DeleteUnit(t, unitId).storedTokenizer == t.storedTokenizer
  {}

  /** The tokenizers that the full-text module is asked for; no name means unicode61. */
  predicate Names(tokenizer: string, ddl: string) {
    var name := ToLower(TrimSpace(tokenizer));
    (ddl == "unicode61" && name in {"", "unicode61"}) || (ddl == "trigram" && name == "trigram")
  }

  /** The metadata speaks of this tokenizer; databases without the key were built with unicode61. */
  predicate Recorded(stored: string, tokenizer: string) {
    stored == tokenizer || (stored == "" && tokenizer == "unicode61")
  }

  /**
    A migrator run fails only with FTS5 and a name it does not know. It never touches units and lexical rows.
    With FTS5 it leaves an index: the one that was there, unless a migration was applied, a rebuild is forced,
    a table is missing or the metadata speaks of another tokenizer; then one with the requested tokenizer that
    holds every lexical row.
   */
  lemma MigrateMeans(t: Tables, o: Options)
    ensures var name := if TrimSpace(o.tokenizer) == "" then "unicode61" else o.tokenizer;
            var rebuild := o.appliedNewMigration || o.forceRebuild || !t.memoryIndexExists || t.index.None? ||
                          !Recorded(t.storedTokenizer, name);
            match Migrate(t, o)
            case Err(e) => e == UnsupportedTokenizer && o.fts5 && forall ddl :: !Names(name, ddl)
            case Ok(next) =>
              next.units == t.units && next.fts == t.fts && next.storedTokenizer == name &&
              (!o.fts5 ==> next.index == t.index && next.triggers == t.triggers) &&
              (o.fts5 ==>
                next.triggers && next.memoryIndexExists && next.index.Some? &&
                (!rebuild ==> next.index == t.index) &&
                (rebuild ==> next.index.value.rows == AllRows(t.fts) && Names(name, next.index.value.tokenizer)))
  {}

  /** An update keeps agreement if and only if it keeps the key: the trigger deletes by the new one. */
  lemma UpdateKeepsIff(t: Tables, unitId: string, newId: string, u: UnitRow)
    requires Agreement(t) && unitId in t.units && UpdateUnit(t, unitId, newId, u).Ok?
    ensures Agreement(UpdateUnit(t, unitId, newId, u).value) <==> newId == unitId
  {
    if newId == unitId {
      UpdateKeeps(t, unitId, u);
    } else {
      var t1 := t.(units := (t.units - {unitId})[newId := u]);
      DeleteFtsFollows(t1, newId);
      InsertFtsFollows(DeleteFts(t1, newId), newId, Projection(u));
      assert unitId in UpdateUnit(t, unitId, newId, u).value.fts;
    }
  }

  /** A rebuild repairs any index, however far off, as long as the lexical table is right. */
  lemma RebuildRepairs(t: Tables, o: Options)
    requires o.fts5 && ShouldBackfill(t, o) && TokenizerDdl(NormalTokenizer(o.tokenizer)).Some?
    requires t.fts.Keys == t.units.Keys && forall id :: id in t.units ==> t.fts[id] == Projection(t.units[id])
    ensures Migrate(t, o).Ok? && Agreement(Migrate(t, o).value)
  {}

  // ---------------------------------------------------------------- the tokenizer

  /** The index was built with the tokenizer that the metadata names. */
  ghost predicate TokenizerKnown(t: Tables) {
    t.index.Some? ==> TokenizerDdl(t.storedTokenizer) == Some(t.index.value.tokenizer)
  }

  /**
    Deciding by the metadata is sound as long as every migration that meets an existing index has FTS5 or
    asks for the tokenizer the index has: a run without FTS5 records the new name but rebuilds nothing.
   */
  lemma TokenizerKnownIff(t: Tables, o: Options)
    requires TokenizerKnown(t) && Migrate(t, o).Ok?
    ensures TokenizerKnown(Migrate(t, o).value) <==>
            o.fts5 || t.index.None? || TokenizerDdl(NormalTokenizer(o.tokenizer)) == Some(t.index.value.tokenizer)
  {
    assert TokenizerDdl("") == Some("unicode61");
  }
}
