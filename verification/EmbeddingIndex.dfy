/**
  The embedding queue and its worker. Writers of retrieval units enqueue; the worker embeds.
  However their transactions interleave, the index never silently disagrees with the units.
 */
module EmbeddingIndex {
  import opened Prelude
  import opened Records

  type Vector = seq<real>

  datatype QueueRow = QueueRow(unitId: string, enqueuedAtMS: int, processed: bool)

  datatype EmbeddingRow = EmbeddingRow(memorySpace: string, vector: Vector)

  datatype VectorRow = VectorRow(memorySpace: string, unitId: string, vector: Vector)

  datatype Store = Store(units: map<string, UnitRow>, queue: seq<QueueRow>, embeddings: map<string, EmbeddingRow>,
                         vectors: seq<VectorRow>)

  /** The embedding provider, deterministic when it answers, and whether the vector table exists. */
  datatype Config = Config(embed: string -> Vector, vecEnabled: bool)

  const BATCH: nat := 128

  // ---------------------------------------------------------------- transactions as functions

  function MarkProcessed(queue: seq<QueueRow>, unitId: string): seq<QueueRow> {
    seq(|queue|, i requires 0 <= i < |queue| =>
      if queue[i].unitId == unitId then queue[i].(processed := true) else queue[i])
  }

  function Without(rows: seq<VectorRow>, unitId: string): seq<VectorRow> {
    if |rows| == 0 then []
    else Without(rows[..|rows| - 1], unitId) + (if rows[|rows| - 1].unitId == unitId then [] else [rows[|rows| - 1]])
  }

  function Of(rows: seq<VectorRow>, unitId: string): seq<VectorRow> {
    if |rows| == 0 then []
    else Of(rows[..|rows| - 1], unitId) + (if rows[|rows| - 1].unitId == unitId then [rows[|rows| - 1]] else [])
  }

  /** `upsertRetrievalUnit`: the row is replaced and the unit enqueued, whatever changed. */
  function UpsertUnit(st: Store, unitId: string, row: UnitRow, now: int): Store {
    st.(units := st.units[unitId := row], queue := st.queue + [QueueRow(unitId, now, false)])
  }

  /** Ingest of a new chunk: an existing unit is left alone, but the unit is enqueued. */
  function IngestUnit(st: Store, unitId: string, row: UnitRow, now: int): Store {
    st.(units := if unitId in st.units then st.units else st.units[unitId := row],
        queue := st.queue + [QueueRow(unitId, now, false)])
  }

  function Indexable(st: Store, unitId: string): bool {
    unitId in st.units && st.units[unitId].state == "active"
  }

  function Embedded(c: Config, st: Store, unitId: string): Store
    requires unitId in st.units
  {
    var u := st.units[unitId];
    st.(embeddings := st.embeddings[unitId := EmbeddingRow(u.memorySpace, c.embed(u.body))],
        vectors := if c.vecEnabled then Without(st.vectors, unitId) +
                                        [VectorRow(u.memorySpace, unitId, c.embed(u.body))]
                   else st.vectors)
  }

  function Unindexed(c: Config, st: Store, unitId: string): Store {
    st.(embeddings := st.embeddings - {unitId},
        vectors := if c.vecEnabled then Without(st.vectors, unitId) else st.vectors)
  }

  /** `processRetrievalItem`: one transaction; it rolls back when the provider fails. */
  function ProcessItem(c: Config, st: Store, unitId: string, providerOk: bool): Option<Store> {
    if !Indexable(st, unitId) then
      Some(Unindexed(c, st, unitId).(queue := MarkProcessed(st.queue, unitId)))
    else if st.units[unitId].sensitivity == "secret" then
      Some(st.(queue := MarkProcessed(st.queue, unitId)))
    else if !providerOk then None
    else Some(Embedded(c, st, unitId).(queue := MarkProcessed(st.queue, unitId)))
  }

  // ---------------------------------------------------------------- the worker

  function PendingRows(queue: seq<QueueRow>): set<nat> {
    set i: nat | i < |queue| && !queue[i].processed
  }

  /** Picks so far and what is left: the picks are distinct pending rows, none younger than a later or remaining one. */
  ghost predicate Picking(queue: seq<QueueRow>, rest: set<nat>, picked: seq<nat>) {
    (forall i :: 0 <= i < |picked| ==> picked[i] in PendingRows(queue) && picked[i] !in rest) &&
    NoDuplicates(picked) && rest <= PendingRows(queue) && |rest| + |picked| == |PendingRows(queue)| &&
    (forall r :: r in PendingRows(queue) ==> r in rest || r in picked) &&
    (forall i, j :: 0 <= i < j < |picked| ==> queue[picked[i]].enqueuedAtMS <= queue[picked[j]].enqueuedAtMS) &&
    (forall i, r :: 0 <= i < |picked| && r in rest ==> queue[picked[i]].enqueuedAtMS <= queue[r].enqueuedAtMS)
  }

  lemma PickOne(queue: seq<QueueRow>, rest: set<nat>, picked: seq<nat>, k: nat)
    requires Picking(queue, rest, picked) && k in rest
    requires forall r :: r in rest ==> queue[k].enqueuedAtMS <= queue[r].enqueuedAtMS
    ensures Picking(queue, rest - {k}, picked + [k])
  {
    var more := picked + [k];
    forall r | r in PendingRows(queue)
      ensures r in rest - {k} || r in more
    {
      if r == k {
        assert more[|picked|] == k;
      } else if r in picked {
        var i :| 0 <= i < |picked| && picked[i] == r;
        assert more[i] == r;
      }
    }
  }

  /** Rows picked by ORDER BY enqueued_at_ms LIMIT: oldest first, ties in any order, as many as there are. */
  ghost predicate OldestPending(queue: seq<QueueRow>, limit: nat, picked: seq<nat>) {
    (exists rest :: Picking(queue, rest, picked)) &&
    |picked| == (if |PendingRows(queue)| < limit then |PendingRows(queue)| else limit)
  }

  ghost predicate UnitsAt(queue: seq<QueueRow>, picked: seq<nat>, items: seq<string>) {
    |items| == |picked| &&
    forall i :: 0 <= i < |items| ==> picked[i] < |queue| && items[i] == queue[picked[i]].unitId
  }

  /** The unit ids of such rows. */
  ghost predicate OldestUnits(queue: seq<QueueRow>, limit: nat, items: seq<string>) {
    exists picked :: OldestPending(queue, limit, picked) && UnitsAt(queue, picked, items)
  }

  /** They are of different pending rows, oldest first, and every pending row left out is no older than any of them. */
  lemma OldestMeans(queue: seq<QueueRow>, limit: nat, items: seq<string>) returns (rows: seq<nat>)
    requires OldestUnits(queue, limit, items)
    ensures |items| == |rows| == (if |PendingRows(queue)| < limit then |PendingRows(queue)| else limit)
    ensures NoDuplicates(rows)
    ensures forall i :: 0 <= i < |rows| ==>
              rows[i] < |queue| && !queue[rows[i]].processed && queue[rows[i]].unitId == items[i]
    ensures forall i, j :: 0 <= i < j < |rows| ==> queue[rows[i]].enqueuedAtMS <= queue[rows[j]].enqueuedAtMS
    ensures forall i, r :: 0 <= i < |rows| && 0 <= r < |queue| && !queue[r].processed && r !in rows ==>
              queue[rows[i]].enqueuedAtMS <= queue[r].enqueuedAtMS
  {
    rows :| OldestPending(queue, limit, rows) && UnitsAt(queue, rows, items);
    var rest :| Picking(queue, rest, rows);
    PickedMeans(queue, rest, rows);
  }

  lemma PickedMeans(queue: seq<QueueRow>, rest: set<nat>, rows: seq<nat>)
    requires Picking(queue, rest, rows)
    ensures NoDuplicates(rows) && forall i :: 0 <= i < |rows| ==> rows[i] < |queue| && !queue[rows[i]].processed
    ensures forall i, j :: 0 <= i < j < |rows| ==> queue[rows[i]].enqueuedAtMS <= queue[rows[j]].enqueuedAtMS
    ensures forall i, r :: 0 <= i < |rows| && 0 <= r < |queue| && !queue[r].processed && r !in rows ==>
              queue[rows[i]].enqueuedAtMS <= queue[r].enqueuedAtMS
  {
    forall i, r | 0 <= i < |rows| && 0 <= r < |queue| && !queue[r].processed && r !in rows
      ensures queue[rows[i]].enqueuedAtMS <= queue[r].enqueuedAtMS
    {
      assert r in PendingRows(queue) && r in rest;
    }
  }

  class Worker {
    var db: Store
    const c: Config

    constructor (db: Store, c: Config)
      ensures this.db == db && this.c == c
    {
      this.db, this.c := db, c;
    }

    method Oldest(rows: set<nat>) returns (k: nat)
      requires rows <= PendingRows(db.queue) && rows != {}
      ensures k in rows && forall r :: r in rows ==> db.queue[k].enqueuedAtMS <= db.queue[r].enqueuedAtMS
    {
      var todo := rows;
      k :| k in todo;
      todo := todo - {k};
      while todo != {}
        invariant todo <= rows && k in rows
        invariant forall r :: r in rows - todo ==> db.queue[k].enqueuedAtMS <= db.queue[r].enqueuedAtMS
        decreases todo
      {
        var r :| r in todo;
        if db.queue[r].enqueuedAtMS < db.queue[k].enqueuedAtMS {
          k := r;
        }
        todo := todo - {r};
      }
    }

    method PendingRetrievalItems(limit: nat) returns (items: seq<string>)
      ensures OldestUnits(db.queue, limit, items)
    {
      var rest := PendingRows(db.queue);
      items := [];
      ghost var picked: seq<nat> := [];
      while rest != {} && |items| < limit
        invariant |items| <= limit && Picking(db.queue, rest, picked) && UnitsAt(db.queue, picked, items)
        decreases rest
      {
        var k := Oldest(rest);
        PickOne(db.queue, rest, picked, k);
        items := items + [db.queue[k].unitId];
        picked := picked + [k];
        rest := rest - {k};
      }
      assert OldestPending(db.queue, limit, picked);
    }

    method ProcessRetrievalItem(unitId: string, providerOk: bool) returns (ok: bool)
      modifies this`db
      ensures match ProcessItem(c, old(db), unitId, providerOk)
              case Some(done) => ok && db == done
              case None => !ok && db == old(db)
    {
      var tx := db;
      if !(unitId in tx.units && tx.units[unitId].state == "active") {
        tx := tx.(embeddings := tx.embeddings - {unitId});
        if c.vecEnabled {
          tx := tx.(vectors := Without(tx.vectors, unitId));
        }
        tx := tx.(queue := MarkProcessed(tx.queue, unitId));
        db := tx;
        return true;
      }
      var u := tx.units[unitId];
      if u.sensitivity != "secret" {
        if !providerOk {
          return false;
        }
        var vector := c.embed(u.body);
        tx := tx.(embeddings := tx.embeddings[unitId := EmbeddingRow(u.memorySpace, vector)]);
        if c.vecEnabled {
          tx := tx.(vectors := Without(tx.vectors, unitId));
          tx := tx.(vectors := tx.vectors + [VectorRow(u.memorySpace, unitId, vector)]);
        }
      }
      tx := tx.(queue := MarkProcessed(tx.queue, unitId));
      db := tx;
      return true;
    }

    /** The retrieval half of a worker round. `down` holds the positions at which the provider fails this time. */
    method ProcessRetrievalItems(down: set<nat>) returns (failed: seq<string>, ghost items: seq<string>)
      modifies this`db
      ensures OldestUnits(old(db).queue, 128, items)
      ensures db == RunOps(c, old(db), RoundOf(items, down)) && failed == FailedOf(old(db), items, down)
      ensures failed == [] ==> Shrinks(old(db).queue, db.queue)
    {
      var pending := PendingRetrievalItems(BATCH);
      items := pending;
      ghost var before := db;
      failed := ProcessInOrder(pending, down);
      if failed == [] {
        SameRound(c, before, items, down);
        RoundShrinks(c, before, items);
      }
    }

    method ProcessInOrder(items: seq<string>, down: set<nat>) returns (failed: seq<string>)
      modifies this`db
      ensures db == RunOps(c, old(db), RoundOf(items, down)) && failed == FailedOf(old(db), items, down)
    {
      failed := [];
      assert RoundOf(items[..0], down) == [];
      for i := 0 to |items|
        invariant db == RunOps(c, old(db), RoundOf(items[..i], down)) && db.units == old(db).units
        invariant failed == FailedOf(old(db), items[..i], down)
      {
        assert items[..i + 1] == items[..i] + [items[i]];
        RoundSnoc(c, old(db), items[..i], items[i], down);
        FailedSnoc(old(db), items[..i], items[i], down);
        var ok := ProcessRetrievalItem(items[i], i !in down);
        if !ok {
          failed := failed + [items[i]];
        }
      }
      assert items[..|items|] == items;
    }
  }

  function RoundOf(items: seq<string>, down: set<nat>): seq<Op> {
    seq(|items|, k requires 0 <= k < |items| => Work(items[k], k !in down))
  }

  predicate NeedsProvider(st: Store, unitId: string) {
    Indexable(st, unitId) && st.units[unitId].sensitivity != "secret"
  }

  /** The items at which the provider is down and that need it. */
  function FailedOf(st: Store, items: seq<string>, down: set<nat>): seq<string> {
    if |items| == 0 then []
    else
      var before, last := FailedOf(st, items[..|items| - 1], down), items[|items| - 1];
      if |items| - 1 in down && NeedsProvider(st, last) then before + [last] else before
  }

  lemma RoundSnoc(c: Config, st: Store, items: seq<string>, u: string, down: set<nat>)
    ensures RunOps(c, st, RoundOf(items + [u], down)) ==
            Perform(c, RunOps(c, st, RoundOf(items, down)), Work(u, |items| !in down))
  {
    assert RoundOf(items + [u], down) == RoundOf(items, down) + [Work(u, |items| !in down)];
    RunSnoc(c, st, RoundOf(items, down), Work(u, |items| !in down));
  }

  lemma FailedSnoc(st: Store, items: seq<string>, u: string, down: set<nat>)
    ensures FailedOf(st, items + [u], down) ==
            if |items| in down && NeedsProvider(st, u) then FailedOf(st, items, down) + [u] else FailedOf(st, items, down)
  {
    assert (items + [u])[..|items|] == items;
  }

  /** A round in which nothing fails is a round with a working provider. */
  lemma {:induction false} SameRound(c: Config, st: Store, items: seq<string>, down: set<nat>)
    requires FailedOf(st, items, down) == []
    ensures RunOps(c, st, RoundOf(items, down)) == RunOps(c, st, RoundOf(items, {}))
  {
    if |items| == 0 {
      assert RoundOf(items, down) == RoundOf(items, {});
    } else {
      var before, u := items[..|items| - 1], items[|items| - 1];
      assert items == before + [u];
      RoundSnoc(c, st, before, u, down);
      RoundSnoc(c, st, before, u, {});
      FailedSnoc(st, before, u, down);
      SameRound(c, st, before, down);
      RoundEffect(c, st, RoundOf(before, {}));
    }
  }

  lemma RoundShrinks(c: Config, st: Store, items: seq<string>)
    requires OldestUnits(st.queue, BATCH, items)
    ensures Shrinks(st.queue, RunOps(c, st, RoundOf(items, {})).queue)
  {
    var picked :| OldestPending(st.queue, BATCH, picked) && UnitsAt(st.queue, picked, items);
    var after := RunOps(c, st, RoundOf(items, {})).queue;
    RoundEffect(c, st, RoundOf(items, {}));
    forall k | k in picked
      ensures k !in PendingRows(after)
    {
      var i :| 0 <= i < |picked| && picked[i] == k;
      RoundClears(c, st, items, i);
      RowCleared(st.queue, after, items[i], k);
    }
    PickedAreGone(st.queue, after, picked);
  }

  lemma RoundClears(c: Config, st: Store, items: seq<string>, i: nat)
    requires i < |items|
    ensures !HasPending(RunOps(c, st, RoundOf(items, {})).queue, items[i])
  {
    var round := RoundOf(items, {});
    RoundEffect(c, st, round);
    assert round[i] in round && round[i] == Work(items[i], true);
  }

  lemma RowCleared(before: seq<QueueRow>, after: seq<QueueRow>, unitId: string, k: nat)
    requires |after| == |before| && k < |before| && before[k].unitId == unitId
    requires (forall i :: 0 <= i < |before| ==> after[i].unitId == before[i].unitId) && !HasPending(after, unitId)
    ensures k !in PendingRows(after)
  {}

  lemma {:induction false} RoundEffect(c: Config, st: Store, round: seq<Op>)
    requires forall op :: op in round ==> op.Work?
    ensures var after := RunOps(c, st, round);
            after.units == st.units && |after.queue| == |st.queue| &&
            PendingRows(after.queue) <= PendingRows(st.queue) &&
            (forall i :: 0 <= i < |st.queue| ==> after.queue[i].unitId == st.queue[i].unitId) &&
            (forall op :: op in round && op.providerOk ==> !HasPending(after.queue, op.unitId))
  {
    if |round| > 0 {
      var earlier, last := round[..|round| - 1], round[|round| - 1];
      assert round == earlier + [last];
      RoundEffect(c, st, earlier);
      var before, after := RunOps(c, st, earlier), RunOps(c, st, round);
      WorkEffect(c, before, last);
      forall op | op in round && op.providerOk
        ensures !HasPending(after.queue, op.unitId)
      {}
    }
  }

  lemma WorkEffect(c: Config, st: Store, op: Op)
    requires op.Work?
    ensures var after := Perform(c, st, op);
            after.units == st.units && |after.queue| == |st.queue| &&
            PendingRows(after.queue) <= PendingRows(st.queue) &&
            (forall i :: 0 <= i < |st.queue| ==> after.queue[i].unitId == st.queue[i].unitId) &&
            (op.providerOk ==> !HasPending(after.queue, op.unitId)) &&
            (forall u :: HasPending(after.queue, u) ==> HasPending(st.queue, u))
  {}

  /** A round without failures clears at least a batch of rows, or all there are. */
  ghost predicate Shrinks(before: seq<QueueRow>, after: seq<QueueRow>) {
    |PendingRows(after)| <= (if |PendingRows(before)| < BATCH then 0 else |PendingRows(before)| - BATCH)
  }

  lemma PickedAreGone(before: seq<QueueRow>, after: seq<QueueRow>, picked: seq<nat>)
    requires OldestPending(before, BATCH, picked)
    requires PendingRows(after) <= PendingRows(before)
    requires forall k <- picked :: k !in PendingRows(after)
    ensures Shrinks(before, after)
  {
    var rest :| Picking(before, rest, picked);
    DistinctCount(picked);
    assert PendingRows(after) <= PendingRows(before) - ToSet(picked);
    SubsetSize(PendingRows(after), PendingRows(before) - ToSet(picked));
    assert ToSet(picked) <= PendingRows(before);
    assert |PendingRows(before) - ToSet(picked)| == |PendingRows(before)| - |ToSet(picked)|;
  }

  lemma {:induction false} DistinctCount(xs: seq<nat>)
    requires NoDuplicates(xs)
    ensures |ToSet(xs)| == |xs|
  {
    if |xs| > 0 {
      var before, last := xs[..|xs| - 1], xs[|xs| - 1];
      DistinctCount(before);
      assert ToSet(xs) == ToSet(before) + {last};
      assert last !in ToSet(before);
    }
  }

  lemma {:induction false} SubsetSize(a: set<nat>, b: set<nat>)
    requires a <= b
    ensures |a| <= |b|
  {
    assert b == a + (b - a);
  }

  /** A run of worker rounds without new work: each takes the oldest pending units, and none of its items fails. */
  ghost predicate CleanRounds(c: Config, stores: seq<Store>, items: seq<seq<string>>, downs: seq<set<nat>>) {
    |stores| == |items| + 1 && |downs| == |items| &&
    forall i :: 0 <= i < |items| ==>
      OldestUnits(stores[i].queue, BATCH, items[i]) && FailedOf(stores[i], items[i], downs[i]) == [] &&
      stores[i + 1] == RunOps(c, stores[i], RoundOf(items[i], downs[i]))
  }

  /** They leave nothing pending after ⌈pending / 128⌉ rounds. */
  lemma QueueDrains(c: Config, stores: seq<Store>, items: seq<seq<string>>, downs: seq<set<nat>>)
    requires CleanRounds(c, stores, items, downs) && |items| * 128 >= |PendingRows(stores[0].queue)|
    ensures PendingRows(stores[|items|].queue) == {}
  {
    var queues := seq(|stores|, i requires 0 <= i < |stores| => stores[i].queue);
    forall i | 0 <= i < |items|
      ensures Shrinks(queues[i], queues[i + 1])
    {
      SameRound(c, stores[i], items[i], downs[i]);
      RoundShrinks(c, stores[i], items[i]);
    }
    PendingAfter(queues, |items|);
    assert |PendingRows(queues[|items|])| == 0;
  }

  lemma {:induction false} PendingAfter(queues: seq<seq<QueueRow>>, n: nat)
    requires n < |queues| && forall i :: 0 <= i < n ==> Shrinks(queues[i], queues[i + 1])
    ensures |PendingRows(queues[n])| == 0 || |PendingRows(queues[n])| <= |PendingRows(queues[0])| - n * BATCH
  {
    if n > 0 {
      PendingAfter(queues, n - 1);
    }
  }

  // ---------------------------------------------------------------- interleavings

  datatype Op =
    | Upsert(unitId: string, row: UnitRow, now: int)
    | IngestNew(unitId: string, row: UnitRow, now: int)
    | Work(unitId: string, providerOk: bool)

  function Perform(c: Config, st: Store, op: Op): Store {
    match op
    case Upsert(id, row, now) => UpsertUnit(st, id, row, now)
    case IngestNew(id, row, now) => IngestUnit(st, id, row, now)
    case Work(id, providerOk) =>
      match ProcessItem(c, st, id, providerOk)
      case Some(done) => done
      case None => st
  }

  function RunOps(c: Config, st: Store, ops: seq<Op>): Store {
    if |ops| == 0 then st else Perform(c, RunOps(c, st, ops[..|ops| - 1]), ops[|ops| - 1])
  }

  const EMPTY := Store(map[], [], map[], [])

  ghost predicate HasPending(queue: seq<QueueRow>, unitId: string) {
    exists i :: 0 <= i < |queue| && queue[i].unitId == unitId && !queue[i].processed
  }

  /** The index entry of a unit: its row, and its vector row when vectors are on. */
  ghost predicate Indexed(c: Config, st: Store, unitId: string, row: EmbeddingRow) {
    unitId in st.embeddings && st.embeddings[unitId] == row &&
    (c.vecEnabled ==> Of(st.vectors, unitId) == [VectorRow(row.memorySpace, unitId, row.vector)])
  }

  ghost predicate UpToDate(c: Config, st: Store, unitId: string)
    requires unitId in st.units
  {
    Indexed(c, st, unitId, EmbeddingRow(st.units[unitId].memorySpace, c.embed(st.units[unitId].body)))
  }

  /** Every exposed unit is up to date or still queued. */
  ghost predicate Agreement(c: Config, st: Store) {
    forall u :: u in st.units && Exposed(st.units[u]) ==> HasPending(st.queue, u) || UpToDate(c, st, u)
  }

  /** The vector table mirrors the embedding table. */
  ghost predicate VectorsMirror(c: Config, st: Store) {
    c.vecEnabled ==>
      forall u :: Of(st.vectors, u) == if u in st.embeddings
                                       then [VectorRow(st.embeddings[u].memorySpace, u, st.embeddings[u].vector)] else []
  }

  lemma {:induction false} OfWithout(rows: seq<VectorRow>, unitId: string, other: string)
    ensures Of(Without(rows, unitId), other) == if other == unitId then [] else Of(rows, other)
  {
    if |rows| > 0 {
      var before, last := rows[..|rows| - 1], rows[|rows| - 1];
      OfWithout(before, unitId, other);
      if last.unitId != unitId {
        OfSnoc(Without(before, unitId), last, other);
      } else {
        assert Without(rows, unitId) == Without(before, unitId);
      }
    }
  }

  lemma OfSnoc(rows: seq<VectorRow>, row: VectorRow, unitId: string)
    ensures Of(rows + [row], unitId) == Of(rows, unitId) + (if row.unitId == unitId then [row] else [])
  {
    assert (rows + [row])[..|rows|] == rows;
  }

  /** What a finished item leaves, unit by unit. */
  lemma ProcessedUnit(c: Config, st: Store, unitId: string, providerOk: bool, other: string)
    requires ProcessItem(c, st, unitId, providerOk).Some?
    ensures var done := ProcessItem(c, st, unitId, providerOk).value;
            done.units == st.units && !HasPending(done.queue, unitId) &&
            (other != unitId ==>
              (HasPending(done.queue, other) <==> HasPending(st.queue, other)) &&
              (other in done.embeddings <==> other in st.embeddings) &&
              (other in st.embeddings ==> done.embeddings[other] == st.embeddings[other]) &&
              Of(done.vectors, other) == Of(st.vectors, other))
  {
    MarkedQueue(st.queue, unitId, other);
    if other != unitId {
      OtherVectors(c, st, unitId, providerOk, other);
    }
  }

  lemma MarkedQueue(queue: seq<QueueRow>, unitId: string, other: string)
    ensures !HasPending(MarkProcessed(queue, unitId), unitId)
    ensures other != unitId ==> (HasPending(MarkProcessed(queue, unitId), other) <==> HasPending(queue, other))
  {
    var done := MarkProcessed(queue, unitId);
    if other != unitId && HasPending(queue, other) {
      var i :| 0 <= i < |queue| && queue[i].unitId == other && !queue[i].processed;
      assert done[i].unitId == other && !done[i].processed;
    }
  }

  lemma OtherVectors(c: Config, st: Store, unitId: string, providerOk: bool, other: string)
    requires ProcessItem(c, st, unitId, providerOk).Some? && other != unitId
    ensures Of(ProcessItem(c, st, unitId, providerOk).value.vectors, other) == Of(st.vectors, other)
  {
    OfWithout(st.vectors, unitId, other);
    if Indexable(st, unitId) && c.vecEnabled {
      var u := st.units[unitId];
      OfSnoc(Without(st.vectors, unitId), VectorRow(u.memorySpace, unitId, c.embed(u.body)), other);
    }
  }

  /** The unit itself: embedded afresh, left as it was when secret, dropped when inactive or gone. */
  lemma ProcessedSelf(c: Config, st: Store, unitId: string, providerOk: bool)
    requires ProcessItem(c, st, unitId, providerOk).Some?
    ensures var done := ProcessItem(c, st, unitId, providerOk).value;
            if !Indexable(st, unitId) then
              unitId !in done.embeddings && (c.vecEnabled ==> Of(done.vectors, unitId) == [])
            else if st.units[unitId].sensitivity == "secret" then
              done.embeddings == st.embeddings && done.vectors == st.vectors
            else UpToDate(c, done, unitId)
  {
    OfWithout(st.vectors, unitId, unitId);
    if Indexable(st, unitId) && c.vecEnabled {
      var u := st.units[unitId];
      OfSnoc(Without(st.vectors, unitId), VectorRow(u.memorySpace, unitId, c.embed(u.body)), unitId);
    }
  }

  /** The rows of the unit are done, and every row is otherwise as it was. */
  predicate RowsDone(before: seq<QueueRow>, after: seq<QueueRow>, unitId: string) {
    |after| == |before| &&
    forall i :: 0 <= i < |before| ==>
      after[i].unitId == before[i].unitId && after[i].enqueuedAtMS == before[i].enqueuedAtMS &&
      (after[i].processed <==> before[i].processed || before[i].unitId == unitId)
  }

  /** The unit is there, active and not secret, so it takes an answer of the provider. */
  predicate TakesEmbedding(st: Store, unitId: string) {
    unitId in st.units && st.units[unitId].state == "active" && st.units[unitId].sensitivity != "secret"
  }

  /**
    One item. It fails exactly when an embedding is needed and the provider is down, and then leaves everything.
    Otherwise the unit's queue rows are done; its index entry holds the embedding of its body, or is gone when
    the unit is gone or inactive, or is left when it is secret; and no other unit's entry changes.
   */
  lemma ItemMeans(c: Config, st: Store, unitId: string, providerOk: bool, other: string)
    ensures ProcessItem(c, st, unitId, providerOk) == None <==> TakesEmbedding(st, unitId) && !providerOk
    ensures match ProcessItem(c, st, unitId, providerOk)
            case None => true
            case Some(next) =>
              next.units == st.units && RowsDone(st.queue, next.queue, unitId) &&
              (!c.vecEnabled ==> next.vectors == st.vectors) &&
              (other != unitId ==>
                Lookup(next.embeddings, other) == Lookup(st.embeddings, other) &&
                Of(next.vectors, other) == Of(st.vectors, other)) &&
              if TakesEmbedding(st, unitId) then
                var u := st.units[unitId];
                Lookup(next.embeddings, unitId) == Some(EmbeddingRow(u.memorySpace, c.embed(u.body))) &&
                (c.vecEnabled ==> Of(next.vectors, unitId) == [VectorRow(u.memorySpace, unitId, c.embed(u.body))])
              else if unitId in st.units && st.units[unitId].state == "active" then
                next.embeddings == st.embeddings && next.vectors == st.vectors
              else
                unitId !in next.embeddings && (c.vecEnabled ==> Of(next.vectors, unitId) == [])
  {
    if ProcessItem(c, st, unitId, providerOk).Some? {
      ProcessedUnit(c, st, unitId, providerOk, other);
      ProcessedSelf(c, st, unitId, providerOk);
    }
  }

  /** A write enqueues its unit; an upsert replaces the row, ingest leaves one that is there. */
  lemma WriteMeans(c: Config, st: Store, op: Op)
    requires !op.Work?
    ensures Perform(c, st, op) ==
            st.(units := if op.IngestNew? && op.unitId in st.units then st.units else st.units[op.unitId := op.row],
                queue := st.queue + [QueueRow(op.unitId, op.now, false)])
  {}

  /** The vector rows of a unit: which they are, and how many. */
  lemma {:induction false} OfMeans(rows: seq<VectorRow>, unitId: string, row: VectorRow)
    ensures row in Of(rows, unitId) <==> row in rows && row.unitId == unitId
    ensures multiset(Of(rows, unitId))[row] == if row.unitId == unitId then multiset(rows)[row] else 0
  {
    if |rows| > 0 {
      OfMeans(rows[..|rows| - 1], unitId, row);
      assert rows == rows[..|rows| - 1] + [rows[|rows| - 1]];
    }
  }

  /** The failures of a round, in its order: where the provider was down and was needed. */
  lemma {:induction false} FailedMeans(st: Store, items: seq<string>, down: set<nat>, u: string)
    ensures u in FailedOf(st, items, down) <==>
            exists i :: 0 <= i < |items| && items[i] == u && i in down && TakesEmbedding(st, u)
    ensures FailedOf(st, items, down) == [] <==>
            forall i :: 0 <= i < |items| && i in down ==> !TakesEmbedding(st, items[i])
  {
    if |items| > 0 {
      FailedMeans(st, items[..|items| - 1], down, u);
    }
  }

  lemma Enqueued(queue: seq<QueueRow>, row: QueueRow, unitId: string)
    requires !row.processed
    ensures HasPending(queue + [row], unitId) <==> HasPending(queue, unitId) || unitId == row.unitId
  {
    if HasPending(queue, unitId) {
      var i :| 0 <= i < |queue| && queue[i].unitId == unitId && !queue[i].processed;
      assert (queue + [row])[i] == queue[i];
    }
    assert (queue + [row])[|queue|] == row;
  }

  lemma PerformKeeps(c: Config, st: Store, op: Op)
    requires Agreement(c, st) && VectorsMirror(c, st)
    ensures Agreement(c, Perform(c, st, op)) && VectorsMirror(c, Perform(c, st, op))
  {
    var next := Perform(c, st, op);
    forall u
      ensures u in next.units && Exposed(next.units[u]) ==> HasPending(next.queue, u) || UpToDate(c, next, u)
      ensures c.vecEnabled ==>
                Of(next.vectors, u) == if u in next.embeddings
                                       then [VectorRow(next.embeddings[u].memorySpace, u, next.embeddings[u].vector)] else []
    {
      if op.Work? {
        if ProcessItem(c, st, op.unitId, op.providerOk).Some? {
          ProcessedUnit(c, st, op.unitId, op.providerOk, u);
          ProcessedSelf(c, st, op.unitId, op.providerOk);
        }
      } else {
        Enqueued(st.queue, QueueRow(op.unitId, op.now, false), u);
      }
    }
  }

  /**
    In every interleaving of unit writes and worker transactions, rolled back or not, each exposed unit
    either is still queued or is indexed under the embedding of its current body.
   */
  lemma {:induction false} AlwaysAgrees(c: Config, ops: seq<Op>)
    ensures Agreement(c, RunOps(c, EMPTY, ops)) && VectorsMirror(c, RunOps(c, EMPTY, ops))
  {
    if |ops| > 0 {
      AlwaysAgrees(c, ops[..|ops| - 1]);
      PerformKeeps(c, RunOps(c, EMPTY, ops[..|ops| - 1]), ops[|ops| - 1]);
    }
  }

  /** At some point of the run the unit was exposed with a body that embeds to this vector. */
  ghost predicate WasExposed(c: Config, ops: seq<Op>, unitId: string, vector: Vector) {
    exists k :: 0 <= k <= |ops| && ExposedAs(c, RunOps(c, EMPTY, ops[..k]), unitId, vector)
  }

  ghost predicate ExposedAs(c: Config, st: Store, unitId: string, vector: Vector) {
    unitId in st.units && Exposed(st.units[unitId]) && c.embed(st.units[unitId].body) == vector
  }

  /** No embedding ever holds a body the unit did not have while active and not secret. */
  lemma {:induction false} OnlyExposedBodiesEmbedded(c: Config, ops: seq<Op>, unitId: string)
    requires unitId in RunOps(c, EMPTY, ops).embeddings
    ensures WasExposed(c, ops, unitId, RunOps(c, EMPTY, ops).embeddings[unitId].vector)
  {
    if |ops| > 0 {
      var earlier, op := ops[..|ops| - 1], ops[|ops| - 1];
      var before, after := RunOps(c, EMPTY, earlier), RunOps(c, EMPTY, ops);
      if unitId in before.embeddings && before.embeddings[unitId] == after.embeddings[unitId] {
        OnlyExposedBodiesEmbedded(c, earlier, unitId);
        var k :| 0 <= k <= |earlier| && ExposedAs(c, RunOps(c, EMPTY, earlier[..k]), unitId, after.embeddings[unitId].vector);
        assert earlier[..k] == ops[..k];
      } else {
        FreshEmbedding(c, before, op, unitId);
        assert ops[..|ops| - 1] == earlier;
        assert ExposedAs(c, RunOps(c, EMPTY, ops[..|ops| - 1]), unitId, after.embeddings[unitId].vector);
      }
    }
  }

  lemma FreshEmbedding(c: Config, st: Store, op: Op, unitId: string)
    requires unitId in Perform(c, st, op).embeddings
    requires !(unitId in st.embeddings && st.embeddings[unitId] == Perform(c, st, op).embeddings[unitId])
    ensures ExposedAs(c, st, unitId, Perform(c, st, op).embeddings[unitId].vector)
  {}

  /** What the index holds when no unit ever turns secret. */
  ghost predicate Settled(st: Store) {
    forall u :: (u in st.embeddings ==> u in st.units && st.units[u].sensitivity != "secret") && SettledUnit(st, u)
  }

  ghost predicate SettledUnit(st: Store, u: string) {
    HasPending(st.queue, u) || (u in st.embeddings <==> u in st.units && Exposed(st.units[u]))
  }

  lemma WriteSettles(c: Config, st: Store, op: Op)
    requires Settled(st) && !op.Work? && (op.Upsert? ==> op.row.sensitivity != "secret")
    ensures Settled(Perform(c, st, op))
  {
    var next := Perform(c, st, op);
    forall u
      ensures u in next.embeddings ==> u in next.units && next.units[u].sensitivity != "secret"
      ensures SettledUnit(next, u)
    {
      assert SettledUnit(st, u);
      Enqueued(st.queue, QueueRow(op.unitId, op.now, false), u);
    }
  }

  lemma WorkSettles(c: Config, st: Store, unitId: string, providerOk: bool)
    requires Settled(st) && ProcessItem(c, st, unitId, providerOk).Some?
    ensures Settled(ProcessItem(c, st, unitId, providerOk).value)
  {
    var next := ProcessItem(c, st, unitId, providerOk).value;
    ProcessedSelf(c, st, unitId, providerOk);
    forall u
      ensures u in next.embeddings ==> u in next.units && next.units[u].sensitivity != "secret"
      ensures SettledUnit(next, u)
    {
      assert SettledUnit(st, u);
      ProcessedUnit(c, st, unitId, providerOk, u);
    }
  }

  /**
    In every run in which no write turns a unit secret, a unit without pending rows has an embedding exactly
    when it is there, active and not secret. Memories are written as "private" and chunks only once.
   */
  lemma {:induction false} EmbeddedIff(c: Config, ops: seq<Op>)
    requires forall op :: op in ops && op.Upsert? ==> op.row.sensitivity != "secret"
    ensures Settled(RunOps(c, EMPTY, ops))
  {
    if |ops| > 0 {
      var before, last := ops[..|ops| - 1], ops[|ops| - 1];
      assert ops == before + [last];
      EmbeddedIff(c, before);
      if !last.Work? {
        WriteSettles(c, RunOps(c, EMPTY, before), last);
      } else if ProcessItem(c, RunOps(c, EMPTY, before), last.unitId, last.providerOk).Some? {
        WorkSettles(c, RunOps(c, EMPTY, before), last.unitId, last.providerOk);
      }
    }
  }

  /** A write that did turn an embedded unit secret would leave its embedding for good. */
  lemma SecretStaysEmbedded(c: Config, row: UnitRow)
    requires Exposed(row)
    ensures var ops := [Upsert("u", row, 1), Work("u", true), Upsert("u", row.(sensitivity := "secret"), 2), Work("u", true)];
            var st := RunOps(c, EMPTY, ops);
            "u" in st.units && st.units["u"].sensitivity == "secret" && !HasPending(st.queue, "u") &&
            "u" in st.embeddings && st.embeddings["u"].vector == c.embed(row.body)
  {
    var o1, o2 := Upsert("u", row, 1), Work("u", true);
    var o3 := Upsert("u", row.(sensitivity := "secret"), 2);
    var s1 := Perform(c, EMPTY, o1);
    var s2 := Perform(c, s1, o2);
    var s3 := Perform(c, s2, o3);
    RunSnoc(c, EMPTY, [], o1);
    RunSnoc(c, EMPTY, [o1], o2);
    RunSnoc(c, EMPTY, [o1, o2], o3);
    RunSnoc(c, EMPTY, [o1, o2, o3], o2);
    assert [] + [o1] == [o1] && [o1] + [o2] == [o1, o2] && [o1, o2] + [o3] == [o1, o2, o3];
    assert [o1, o2, o3] + [o2] == [o1, o2, o3, o2];
    ProcessedUnit(c, s3, "u", true, "u");
  }

  lemma RunSnoc(c: Config, st: Store, ops: seq<Op>, op: Op)
    ensures RunOps(c, st, ops + [op]) == Perform(c, RunOps(c, st, ops), op)
  {
    assert (ops + [op])[..|ops|] == ops;
  }
}
