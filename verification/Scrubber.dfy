/**
  Active repair: one transaction that rewrites the suspension table the tracer filters on.
  After it commits, the unresolved suspensions are exactly the orphans, and filtering on them
  changes no trace.
 */
module Scrubber {
  import opened Prelude
  import opened DecisionTrace

  datatype EntityType = MemoryEdge | MemorySignal

  datatype Entity = Entity(kind: EntityType, id: Id)

  datatype Suspension = Suspension(memoryId: Id, reason: string, detail: string,
                                   firstSeenAtMS: int, lastSeenAtMS: int, resolvedAtMS: int)

  datatype Signal = Signal(signalId: Id, memoryId: Id)

  datatype OrphanState = OrphanState(memoryId: Id, detail: string)

  /** One row of an orphan query. */
  datatype OrphanRow = OrphanRow(entityId: Id, state: OrphanState)

  datatype RepairReport = RepairReport(deletedQuarantineBatches: nat,
                                       suspendedEdges: nat, suspendedSignals: nat,
                                       resolvedEdgeSuspensions: nat, resolvedSignalSuspensions: nat)

  type Suspensions = map<Entity, Suspension>

  const DEFAULT_TTL_MS := 7 * 24 * 3600 * 1000

  // ---------------------------------------------------------------- queries

  predicate OrphanEdge(nodes: map<Id, NodeRow>, e: Edge) {
    e.from !in nodes || e.to !in nodes
  }

  /** The trimmed concatenation of the two missing-endpoint words. */
  function OrphanDetail(missingFrom: bool, missingTo: bool): string {
    TrimSpace((if missingFrom then "missing_from " else "") + (if missingTo then "missing_to" else ""))
  }

  function OrphanEdgeRows(nodes: map<Id, NodeRow>, edges: seq<Edge>): seq<OrphanRow> {
    if |edges| == 0 then []
    else
      var e := edges[|edges| - 1];
      OrphanEdgeRows(nodes, edges[..|edges| - 1]) +
      (if OrphanEdge(nodes, e)
       then [OrphanRow(e.edgeId, OrphanState(e.from, OrphanDetail(e.from !in nodes, e.to !in nodes)))]
       else [])
  }

  function OrphanSignalRows(nodes: map<Id, NodeRow>, signals: seq<Signal>): seq<OrphanRow> {
    if |signals| == 0 then []
    else
      var s := signals[|signals| - 1];
      OrphanSignalRows(nodes, signals[..|signals| - 1]) +
      (if s.memoryId !in nodes then [OrphanRow(s.signalId, OrphanState(s.memoryId, "missing_memory"))] else [])
  }

  function ByEntity(rows: seq<OrphanRow>): map<Id, OrphanState> {
    if |rows| == 0 then map[]
    else ByEntity(rows[..|rows| - 1])[rows[|rows| - 1].entityId := rows[|rows| - 1].state]
  }

  function EdgeOrphans(nodes: map<Id, NodeRow>, edges: seq<Edge>): map<Id, OrphanState> {
    ByEntity(OrphanEdgeRows(nodes, edges))
  }

  function SignalOrphans(nodes: map<Id, NodeRow>, signals: seq<Signal>): map<Id, OrphanState> {
    ByEntity(OrphanSignalRows(nodes, signals))
  }

  /** An edge id is reported exactly when some edge row with that id misses an endpoint. */
  lemma {:induction false} EdgeOrphansExact(nodes: map<Id, NodeRow>, edges: seq<Edge>, id: Id)
    ensures id in EdgeOrphans(nodes, edges) <==> exists e :: e in edges && e.edgeId == id && OrphanEdge(nodes, e)
  {
    if |edges| > 0 {
      var before, e := edges[..|edges| - 1], edges[|edges| - 1];
      EdgeOrphansExact(nodes, before, id);
      assert edges == before + [e];
      if OrphanEdge(nodes, e) {
        var rows := OrphanEdgeRows(nodes, edges);
        assert rows[..|rows| - 1] == OrphanEdgeRows(nodes, before);
      } else {
        assert OrphanEdgeRows(nodes, edges) == OrphanEdgeRows(nodes, before);
      }
    }
  }

  lemma {:induction false} SignalOrphansExact(nodes: map<Id, NodeRow>, signals: seq<Signal>, id: Id)
    ensures id in SignalOrphans(nodes, signals) <==>
            exists s :: s in signals && s.signalId == id && s.memoryId !in nodes
  {
    if |signals| > 0 {
      var before, s := signals[..|signals| - 1], signals[|signals| - 1];
      SignalOrphansExact(nodes, before, id);
      assert signals == before + [s];
      if s.memoryId !in nodes {
        var rows := OrphanSignalRows(nodes, signals);
        assert rows[..|rows| - 1] == OrphanSignalRows(nodes, before);
      } else {
        assert OrphanSignalRows(nodes, signals) == OrphanSignalRows(nodes, before);
      }
    }
  }

  // ---------------------------------------------------------------- specification of one repair

  function EntitiesOf(kind: EntityType, ids: set<Id>): set<Entity> {
    set id | id in ids :: Entity(kind, id)
  }

  /** Every orphan is unresolved and last seen now; its first sighting survives; other rows stay. */
  function Suspended(table: Suspensions, kind: EntityType, orphans: map<Id, OrphanState>, now: int): Suspensions {
    map en | en in table.Keys + EntitiesOf(kind, orphans.Keys) ::
      if en.kind == kind && en.id in orphans then
        Suspension(orphans[en.id].memoryId, "orphaned", orphans[en.id].detail,
                   if en in table then table[en].firstSeenAtMS else now, now, 0)
      else table[en]
  }

  /** The rows a resolve statement touches: unresolved, of this kind, no longer orphaned. */
  function Cleared(table: Suspensions, kind: EntityType, orphans: map<Id, OrphanState>): set<Entity> {
    set en | en in table && en.kind == kind && table[en].resolvedAtMS == 0 && en.id !in orphans
  }

  function ResolvedTable(table: Suspensions, kind: EntityType, orphans: map<Id, OrphanState>, now: int): Suspensions {
    map en | en in table ::
      if en in Cleared(table, kind, orphans) then table[en].(resolvedAtMS := now) else table[en]
  }

  function RepairedKind(table: Suspensions, kind: EntityType, orphans: map<Id, OrphanState>, now: int): Suspensions {
    ResolvedTable(Suspended(table, kind, orphans, now), kind, orphans, now)
  }

  function Repaired(table: Suspensions, nodes: map<Id, NodeRow>, edges: seq<Edge>, signals: seq<Signal>, now: int)
    : Suspensions
  {
    RepairedKind(RepairedKind(table, MemoryEdge, EdgeOrphans(nodes, edges), now),
                 MemorySignal, SignalOrphans(nodes, signals), now)
  }

  /** The ids the tracer's join finds: unresolved suspensions of one kind. */
  function Unresolved(table: Suspensions, kind: EntityType): set<Id> {
    set en | en in table && en.kind == kind && table[en].resolvedAtMS == 0 :: en.id
  }

  // ---------------------------------------------------------------- the service

  class Service {
    var nodes: map<Id, NodeRow>
    var edges: seq<Edge>
    var signals: seq<Signal>
    var suspensions: Suspensions
    /** batch id to creation time */
    var quarantine: map<Id, int>

    constructor (nodes: map<Id, NodeRow>, edges: seq<Edge>, signals: seq<Signal>,
                 suspensions: Suspensions, quarantine: map<Id, int>)
      ensures this.nodes == nodes && this.edges == edges && this.signals == signals
      ensures this.suspensions == suspensions && this.quarantine == quarantine
    {
      this.nodes, this.edges, this.signals := nodes, edges, signals;
      this.suspensions, this.quarantine := suspensions, quarantine;
    }

    method LoadOrphanState(rows: seq<OrphanRow>) returns (out: map<Id, OrphanState>)
      ensures out == ByEntity(rows)
    {
      out := map[];
      for i := 0 to |rows|
        invariant out == ByEntity(rows[..i])
      {
        assert rows[..i + 1][..i] == rows[..i];
        out := out[rows[i].entityId := rows[i].state];
      }
      assert rows[..|rows|] == rows;
    }

    /** The states are visited in arbitrary order, as a map is iterated. */
    method UpsertSuspensions(kind: EntityType, states: map<Id, OrphanState>, now: int) returns (count: nat)
      modifies this`suspensions
      ensures suspensions == Suspended(old(suspensions), kind, states, now)
      ensures count == |states|
    {
      count := 0;
      var todo := states.Keys;
      ghost var done: map<Id, OrphanState> := map[];
      assert suspensions == Suspended(old(suspensions), kind, done, now);
      while todo != {}
        invariant todo <= states.Keys
        invariant done.Keys == states.Keys - todo && forall id :: id in done ==> done[id] == states[id]
        invariant suspensions == Suspended(old(suspensions), kind, done, now)
        invariant count + |todo| == |states.Keys|
        decreases todo
      {
        var id :| id in todo;
        UpsertSuspension(old(suspensions), done, kind, id, states[id], now);
        count := count + 1;
        todo := todo - {id};
        done := done[id := states[id]];
      }
      assert done == states;
    }

    /** The insert, or on a known entity the update that keeps its first sighting. */
    method UpsertSuspension(ghost before: Suspensions, ghost done: map<Id, OrphanState>, kind: EntityType, id: Id,
                            state: OrphanState, now: int)
      requires id !in done && suspensions == Suspended(before, kind, done, now)
      modifies this`suspensions
      ensures suspensions == Suspended(before, kind, done[id := state], now)
    {
      SuspendOneMore(before, kind, done, id, state, now);
      NotSuspendedYet(before, kind, done, id, now);
      var en := Entity(kind, id);
      var first := if en in suspensions then suspensions[en].firstSeenAtMS else now;
      suspensions := suspensions[en := Suspension(state.memoryId, "orphaned", state.detail, first, now, 0)];
    }

    method ResolveClearedSuspensions(kind: EntityType, active: map<Id, OrphanState>, now: int) returns (affected: nat)
      modifies this`suspensions
      ensures suspensions == ResolvedTable(old(suspensions), kind, active, now)
      ensures affected == |Cleared(old(suspensions), kind, active)|
    {
      var cleared := Cleared(suspensions, kind, active);
      suspensions := map en | en in suspensions ::
        if en in cleared then suspensions[en].(resolvedAtMS := now) else suspensions[en];
      affected := |cleared|;
    }

    /** The rows created before the cutoff go. */
    method PurgeQuarantine(cutoff: int) returns (deleted: nat)
      modifies this`quarantine
      ensures quarantine == (map b | b in old(quarantine) && old(quarantine)[b] >= cutoff :: old(quarantine)[b])
      ensures deleted + |quarantine| == |old(quarantine)|
    {
      var expired := set b | b in quarantine && quarantine[b] < cutoff;
      var kept := map b | b in quarantine && quarantine[b] >= cutoff :: quarantine[b];
      assert kept.Keys + expired == quarantine.Keys && kept.Keys !! expired;
      deleted := |expired|;
      quarantine := kept;
    }

    method RunActiveRepair(quarantineTtlMS: int, now: int) returns (report: RepairReport)
      modifies this`suspensions, this`quarantine
      ensures suspensions == Repaired(old(suspensions), nodes, edges, signals, now)
      ensures var cutoff := now - (if quarantineTtlMS < 1 then 604800000 else quarantineTtlMS);
              quarantine == (map b | b in old(quarantine) && old(quarantine)[b] >= cutoff :: old(quarantine)[b])
      ensures report.deletedQuarantineBatches + |quarantine| == |old(quarantine)|
      ensures report.suspendedEdges == |EdgeOrphans(nodes, edges)|
      ensures report.suspendedSignals == |SignalOrphans(nodes, signals)|
      ensures report.resolvedEdgeSuspensions ==
              |Cleared(old(suspensions), MemoryEdge, EdgeOrphans(nodes, edges))|
      ensures report.resolvedSignalSuspensions ==
              |Cleared(old(suspensions), MemorySignal, SignalOrphans(nodes, signals))|
    {
      var ttl := if quarantineTtlMS <= 0 then DEFAULT_TTL_MS else quarantineTtlMS;
      var deleted := PurgeQuarantine(now - ttl);

      var edgeMap := LoadOrphanState(OrphanEdgeRows(nodes, edges));
      var suspendedEdges := UpsertSuspensions(MemoryEdge, edgeMap, now);
      SuspendingClearsNothing(old(suspensions), MemoryEdge, edgeMap, now);
      var resolvedEdges := ResolveClearedSuspensions(MemoryEdge, edgeMap, now);

      var signalMap := LoadOrphanState(OrphanSignalRows(nodes, signals));
      KindsDoNotInterfere(old(suspensions), edgeMap, signalMap, now);
      SuspendingClearsNothing(suspensions, MemorySignal, signalMap, now);
      var suspendedSignals := UpsertSuspensions(MemorySignal, signalMap, now);
      var resolvedSignals := ResolveClearedSuspensions(MemorySignal, signalMap, now);

      report := RepairReport(deleted, suspendedEdges, suspendedSignals, resolvedEdges, resolvedSignals);
    }
  }

  lemma SuspendOneMore(table: Suspensions, kind: EntityType, done: map<Id, OrphanState>,
                       id: Id, state: OrphanState, now: int)
    requires id !in done
    ensures var en, before := Entity(kind, id), Suspended(table, kind, done, now);
            Suspended(table, kind, done[id := state], now) ==
            before[en := Suspension(state.memoryId, "orphaned", state.detail,
                                    if en in table then table[en].firstSeenAtMS else now, now, 0)]
  {
    assert EntitiesOf(kind, done[id := state].Keys) == EntitiesOf(kind, done.Keys) + {Entity(kind, id)};
  }

  lemma NotSuspendedYet(table: Suspensions, kind: EntityType, done: map<Id, OrphanState>, id: Id, now: int)
    requires id !in done
    ensures Lookup(Suspended(table, kind, done, now), Entity(kind, id)) == Lookup(table, Entity(kind, id))
  {
    assert Entity(kind, id) !in EntitiesOf(kind, done.Keys);
  }

  lemma SuspendingClearsNothing(table: Suspensions, kind: EntityType, orphans: map<Id, OrphanState>, now: int)
    ensures Cleared(Suspended(table, kind, orphans, now), kind, orphans) == Cleared(table, kind, orphans)
  {}

  lemma KindsDoNotInterfere(table: Suspensions, edgeOrphans: map<Id, OrphanState>,
                            signalOrphans: map<Id, OrphanState>, now: int)
    ensures Cleared(RepairedKind(table, MemoryEdge, edgeOrphans, now), MemorySignal, signalOrphans) ==
            Cleared(table, MemorySignal, signalOrphans)
  {}

  // ---------------------------------------------------------------- what repair establishes

  /** One row through one repair: suspended, resolved, or left alone. */
  function RowAfter(row: Option<Suspension>, orphan: Option<OrphanState>, now: int): Option<Suspension> {
    match (row, orphan)
    case (None, Some(o)) => Some(Suspension(o.memoryId, "orphaned", o.detail, now, now, 0))
    case (Some(r), Some(o)) => Some(Suspension(o.memoryId, "orphaned", o.detail, r.firstSeenAtMS, now, 0))
    case (None, None) => None
    case (Some(r), None) => Some(if r.resolvedAtMS == 0 then r.(resolvedAtMS := now) else r)
  }

  function OrphanOf(nodes: map<Id, NodeRow>, edges: seq<Edge>, signals: seq<Signal>, en: Entity): Option<OrphanState> {
    match en.kind
    case MemoryEdge => Lookup(EdgeOrphans(nodes, edges), en.id)
    case MemorySignal => Lookup(SignalOrphans(nodes, signals), en.id)
  }

  /** Suspending one kind and then resolving it treats every row of that kind by itself, and no other. */
  lemma RepairedKindRow(table: Suspensions, kind: EntityType, orphans: map<Id, OrphanState>, now: int, en: Entity)
    ensures Lookup(RepairedKind(table, kind, orphans, now), en) ==
            if en.kind == kind then RowAfter(Lookup(table, en), Lookup(orphans, en.id), now) else Lookup(table, en)
  {
    assert en in EntitiesOf(kind, orphans.Keys) <==> en.kind == kind && en.id in orphans;
  }

  /** A repair treats every row on its own: orphaned rows are suspended, the other unresolved ones resolved. */
  lemma RepairedRow(table: Suspensions, nodes: map<Id, NodeRow>, edges: seq<Edge>, signals: seq<Signal>,
                    now: int, en: Entity)
    ensures Lookup(Repaired(table, nodes, edges, signals, now), en) ==
            RowAfter(Lookup(table, en), OrphanOf(nodes, edges, signals, en), now)
  {
    var edgesDone := RepairedKind(table, MemoryEdge, EdgeOrphans(nodes, edges), now);
    RepairedKindRow(table, MemoryEdge, EdgeOrphans(nodes, edges), now, en);
    RepairedKindRow(edgesDone, MemorySignal, SignalOrphans(nodes, signals), now, en);
  }

  // ---------------------------------------------------------------- what the rows say

  /** The words for what an edge lacks. */
  predicate Words(missingFrom: bool, missingTo: bool, detail: string) {
    (missingFrom && missingTo ==> detail == "missing_from missing_to") &&
    (missingFrom && !missingTo ==> detail == "missing_from") && (!missingFrom && missingTo ==> detail == "missing_to")
  }

  lemma DetailWords(missingFrom: bool, missingTo: bool)
    ensures Words(missingFrom, missingTo, OrphanDetail(missingFrom, missingTo))
  {
    assert TrimLeft("missing_from ") == "missing_from " && "missing_from "[..12] == "missing_from";
    assert "missing_from " + "missing_to" == "missing_from missing_to";
    assert "" + "missing_to" == "missing_to" && "missing_from " + "" == "missing_from ";
  }

  lemma {:induction false} EdgeOrphanTells(nodes: map<Id, NodeRow>, edges: seq<Edge>, i: nat)
    requires i < |edges| && OrphanEdge(nodes, edges[i])
    requires forall j :: i < j < |edges| ==> edges[j].edgeId != edges[i].edgeId
    ensures var e := edges[i];
            e.edgeId in EdgeOrphans(nodes, edges) && EdgeOrphans(nodes, edges)[e.edgeId].memoryId == e.from &&
            Words(e.from !in nodes, e.to !in nodes, EdgeOrphans(nodes, edges)[e.edgeId].detail)
  {
    var before, last := edges[..|edges| - 1], edges[|edges| - 1];
    var rows := OrphanEdgeRows(nodes, edges);
    if OrphanEdge(nodes, last) {
      assert rows[..|rows| - 1] == OrphanEdgeRows(nodes, before);
    } else {
      assert rows == OrphanEdgeRows(nodes, before);
    }
    if i < |before| {
      assert before[i] == edges[i] && last.edgeId != edges[i].edgeId;
      EdgeOrphanTells(nodes, before, i);
    } else {
      DetailWords(last.from !in nodes, last.to !in nodes);
    }
  }

  lemma {:induction false} SignalOrphanTells(nodes: map<Id, NodeRow>, signals: seq<Signal>, i: nat)
    requires i < |signals| && signals[i].memoryId !in nodes
    requires forall j :: i < j < |signals| ==> signals[j].signalId != signals[i].signalId
    ensures Lookup(SignalOrphans(nodes, signals), signals[i].signalId) ==
            Some(OrphanState(signals[i].memoryId, "missing_memory"))
  {
    var before, last := signals[..|signals| - 1], signals[|signals| - 1];
    var rows := OrphanSignalRows(nodes, signals);
    if last.memoryId !in nodes {
      assert rows[..|rows| - 1] == OrphanSignalRows(nodes, before);
    } else {
      assert rows == OrphanSignalRows(nodes, before);
    }
    if i < |before| {
      assert before[i] == signals[i] && last.signalId != signals[i].signalId;
      SignalOrphanTells(nodes, before, i);
    }
  }

  /** A row of an orphan: unresolved, seen now, first seen when it first was. */
  predicate SeenNow(before: Option<Suspension>, after: Option<Suspension>, memoryId: Id, now: int) {
    after.Some? && after.value.memoryId == memoryId && after.value.reason == "orphaned" &&
    after.value.lastSeenAtMS == now && after.value.resolvedAtMS == 0 &&
    after.value.firstSeenAtMS == (match before case Some(r) => r.firstSeenAtMS case None => now)
  }

  /** A repaired edge suspension names the source of its edge and says what is missing. */
  lemma RepairedEdgeSays(table: Suspensions, nodes: map<Id, NodeRow>, edges: seq<Edge>, signals: seq<Signal>, now: int,
                         i: nat)
    requires i < |edges| && OrphanEdge(nodes, edges[i])
    requires forall j :: i < j < |edges| ==> edges[j].edgeId != edges[i].edgeId
    ensures var en := Entity(MemoryEdge, edges[i].edgeId);
            var after := Lookup(Repaired(table, nodes, edges, signals, now), en);
            SeenNow(Lookup(table, en), after, edges[i].from, now) &&
            Words(edges[i].from !in nodes, edges[i].to !in nodes, after.value.detail)
  {
    EdgeOrphanTells(nodes, edges, i);
    RepairedRow(table, nodes, edges, signals, now, Entity(MemoryEdge, edges[i].edgeId));
  }

  lemma RepairedSignalSays(table: Suspensions, nodes: map<Id, NodeRow>, edges: seq<Edge>, signals: seq<Signal>, now: int,
                           i: nat)
    requires i < |signals| && signals[i].memoryId !in nodes
    requires forall j :: i < j < |signals| ==> signals[j].signalId != signals[i].signalId
    ensures var en := Entity(MemorySignal, signals[i].signalId);
            var after := Lookup(Repaired(table, nodes, edges, signals, now), en);
            SeenNow(Lookup(table, en), after, signals[i].memoryId, now) && after.value.detail == "missing_memory"
  {
    SignalOrphanTells(nodes, signals, i);
    RepairedRow(table, nodes, edges, signals, now, Entity(MemorySignal, signals[i].signalId));
  }

  /** Every other row is only closed: an unresolved one gets its resolution time, and nothing else changes. */
  lemma RepairedRest(table: Suspensions, nodes: map<Id, NodeRow>, edges: seq<Edge>, signals: seq<Signal>, now: int,
                     en: Entity)
    requires en.kind == MemoryEdge ==> forall e :: e in edges && e.edgeId == en.id ==> !OrphanEdge(nodes, e)
    requires en.kind == MemorySignal ==> forall s :: s in signals && s.signalId == en.id ==> s.memoryId in nodes
    ensures var after := Lookup(Repaired(table, nodes, edges, signals, now), en);
            match Lookup(table, en)
            case None => after == None
            case Some(r) => after == Some(r.(resolvedAtMS := if r.resolvedAtMS == 0 then now else r.resolvedAtMS))
  {
    EdgeOrphansExact(nodes, edges, en.id);
    SignalOrphansExact(nodes, signals, en.id);
    RepairedRow(table, nodes, edges, signals, now, en);
  }

  /** The reported resolutions: the unresolved rows of the kind whose entity is no orphan. */
  lemma ClearedIff(table: Suspensions, kind: EntityType, orphans: map<Id, OrphanState>, en: Entity)
    ensures en in Cleared(table, kind, orphans) <==>
            en.kind == kind && Lookup(orphans, en.id) == None &&
            match Lookup(table, en) case None => false case Some(r) => r.resolvedAtMS == 0
  {}

  /** After a repair the unresolved suspensions are the rows with a missing endpoint, no more and no fewer. */
  lemma RepairExact(table: Suspensions, nodes: map<Id, NodeRow>, edges: seq<Edge>, signals: seq<Signal>,
                    now: int, id: Id)
    requires now != 0
    ensures id in Unresolved(Repaired(table, nodes, edges, signals, now), MemoryEdge) <==>
            exists e :: e in edges && e.edgeId == id && OrphanEdge(nodes, e)
    ensures id in Unresolved(Repaired(table, nodes, edges, signals, now), MemorySignal) <==>
            exists s :: s in signals && s.signalId == id && s.memoryId !in nodes
  {
    EdgeOrphansExact(nodes, edges, id);
    SignalOrphansExact(nodes, signals, id);
    RepairedRow(table, nodes, edges, signals, now, Entity(MemoryEdge, id));
    RepairedRow(table, nodes, edges, signals, now, Entity(MemorySignal, id));
    UnresolvedRow(Repaired(table, nodes, edges, signals, now), MemoryEdge, id);
    UnresolvedRow(Repaired(table, nodes, edges, signals, now), MemorySignal, id);
  }

  lemma UnresolvedRow(table: Suspensions, kind: EntityType, id: Id)
    ensures id in Unresolved(table, kind) <==>
            Entity(kind, id) in table && table[Entity(kind, id)].resolvedAtMS == 0
  {}

  /** No row is ever dropped, and first sightings are never rewritten, over any number of repairs. */
  lemma RepairKeepsHistory(table: Suspensions, nodes: map<Id, NodeRow>, edges: seq<Edge>, signals: seq<Signal>,
                           now: int, en: Entity)
    requires en in table
    ensures en in Repaired(table, nodes, edges, signals, now)
    ensures Repaired(table, nodes, edges, signals, now)[en].firstSeenAtMS == table[en].firstSeenAtMS
  {
    RepairedRow(table, nodes, edges, signals, now, en);
  }

  /** A second repair of an unchanged graph only moves the last-seen time of the orphans, row by row. */
  lemma RepairTwice(table: Suspensions, nodes: map<Id, NodeRow>, edges: seq<Edge>, signals: seq<Signal>,
                    now: int, later: int, en: Entity)
    requires now != 0
    ensures var once := Repaired(table, nodes, edges, signals, now);
            Lookup(Repaired(once, nodes, edges, signals, later), en) == SeenAgain(Lookup(once, en), later)
  {
    var once := Repaired(table, nodes, edges, signals, now);
    var orphan := OrphanOf(nodes, edges, signals, en);
    var before, after := Lookup(table, en), Lookup(once, en);
    assert after == RowAfter(before, orphan, now) by {
      RepairedRow(table, nodes, edges, signals, now, en);
    }
    var again := Lookup(Repaired(once, nodes, edges, signals, later), en);
    assert again == RowAfter(after, orphan, later) by {
      RepairedRow(once, nodes, edges, signals, later, en);
    }
    RowTwice(before, orphan, now, later);
  }

  /** An unresolved row seen again; other rows are left alone. */
  function SeenAgain(row: Option<Suspension>, later: int): Option<Suspension> {
    if row.Some? && row.value.resolvedAtMS == 0 then Some(row.value.(lastSeenAtMS := later)) else row
  }

  lemma RowTwice(row: Option<Suspension>, orphan: Option<OrphanState>, now: int, later: int)
    requires now != 0
    ensures RowAfter(RowAfter(row, orphan, now), orphan, later) == SeenAgain(RowAfter(row, orphan, now), later)
  {}

  // ---------------------------------------------------------------- repair is invisible to tracing

  /** No suspended edge could be followed: each one misses an endpoint. */
  ghost predicate SuspendsOnlyOrphans(g: Graph) {
    forall e :: e in g.edges && e.edgeId in g.suspended ==> OrphanEdge(g.nodes, e)
  }

  function WithoutSuspensions(g: Graph): Graph {
    g.(suspended := {})
  }

  /**
    Filtering on the suspension table changes no trace, at any root and depth, exactly when
    it suspends orphans only.
   */
  lemma TraceIgnoresSuspensionsIff(g: Graph)
    ensures (forall root, depth :: TraceAnswer(g, root, depth) == TraceAnswer(WithoutSuspensions(g), root, depth))
            <==> SuspendsOnlyOrphans(g)
  {
    if SuspendsOnlyOrphans(g) {
      forall root, depth
        ensures TraceAnswer(g, root, depth) == TraceAnswer(WithoutSuspensions(g), root, depth)
      {
        if root in g.nodes {
          var d := if depth <= 0 then 1 else depth;
          OrphansDoNotWalk(g);
          SameTrace(g, WithoutSuspensions(g), root, d);
          SameReach(g, WithoutSuspensions(g), root, d);
          TraceWalkable(g, root, d);
          SameHops(g, WithoutSuspensions(g), Trace(g, root, d), false);
          SameHops(g, WithoutSuspensions(g), Trace(g, root, d), true);
        }
      }
    } else {
      var e :| e in g.edges && e.edgeId in g.suspended && !OrphanEdge(g.nodes, e);
      SuspendedEdgeHidesHop(g, e);
    }
  }

  /** So a trace right after a repair is the trace of the bare tables. */
  lemma TraceAfterRepair(table: Suspensions, nodes: map<Id, NodeRow>, edges: seq<Edge>, signals: seq<Signal>,
                         now: int, root: Id, depth: int)
    requires now != 0
    requires forall i, j :: 0 <= i < j < |edges| ==> edges[i].edgeId != edges[j].edgeId
    ensures var after := Unresolved(Repaired(table, nodes, edges, signals, now), MemoryEdge);
            TraceAnswer(Graph(nodes, edges, after), root, depth) == TraceAnswer(Graph(nodes, edges, {}), root, depth)
  {
    var g := Graph(nodes, edges, Unresolved(Repaired(table, nodes, edges, signals, now), MemoryEdge));
    forall e | e in g.edges && e.edgeId in g.suspended
      ensures OrphanEdge(nodes, e)
    {
      RepairExact(table, nodes, edges, signals, now, e.edgeId);
    }
    TraceIgnoresSuspensionsIff(g);
    assert WithoutSuspensions(g) == Graph(nodes, edges, {});
  }

  /** Two graphs over the same rows on which the same edges can be followed. */
  ghost predicate SameWalks(g: Graph, h: Graph) {
    g.nodes == h.nodes && g.edges == h.edges &&
    forall e :: e in g.edges && e.from in g.nodes ==> Walkable(g, e) == Walkable(h, e)
  }

  lemma OrphansDoNotWalk(g: Graph)
    requires SuspendsOnlyOrphans(g)
    ensures SameWalks(g, WithoutSuspensions(g))
  {}

  lemma ReachInNodes(g: Graph, root: Id, k: nat)
    requires root in g.nodes
    ensures Reach(g, root, k) <= g.nodes.Keys
  {
    ReachWithinNodes(g, root, k);
  }

  lemma {:induction false} SameReach(g: Graph, h: Graph, root: Id, k: nat)
    requires root in g.nodes && SameWalks(g, h)
    ensures SameAt(g, h, root, k)
  {
    if k > 0 {
      SameReach(g, h, root, k - 1);
      SameNext(g, h, root, k);
    }
  }

  ghost predicate SameAt(g: Graph, h: Graph, root: Id, k: nat) {
    Reach(g, root, k) == Reach(h, root, k) && Ring(g, root, k) == Ring(h, root, k)
  }

  lemma SameNext(g: Graph, h: Graph, root: Id, k: nat)
    requires root in g.nodes && SameWalks(g, h) && k > 0 && Reach(g, root, k - 1) == Reach(h, root, k - 1)
    ensures SameAt(g, h, root, k)
  {
    ReachInNodes(g, root, k - 1);
    SameTargets(g, h, Reach(g, root, k - 1));
    NextReach(g, h, root, k);
  }

  lemma NextReach(g: Graph, h: Graph, root: Id, k: nat)
    requires k > 0 && Reach(g, root, k - 1) == Reach(h, root, k - 1)
    requires Targets(g, Reach(g, root, k - 1)) == Targets(h, Reach(g, root, k - 1))
    ensures Reach(g, root, k) == Reach(h, root, k) && Ring(g, root, k) == Ring(h, root, k)
  {}

  lemma SameTargets(g: Graph, h: Graph, sources: set<Id>)
    requires sources <= g.nodes.Keys && SameWalks(g, h)
    ensures Targets(g, sources) == Targets(h, sources)
  {}

  lemma SameTrace(g: Graph, h: Graph, root: Id, depth: nat)
    requires root in g.nodes && SameWalks(g, h)
    ensures Trace(g, root, depth) == Trace(h, root, depth)
  {
    forall k: nat | k < depth
      ensures LayerAt(g, root, k) == LayerAt(h, root, k)
    {
      SameLayerAt(g, h, root, k);
    }
    SameLayers(g, h, root, depth);
  }

  lemma SameLayerAt(g: Graph, h: Graph, root: Id, k: nat)
    requires root in g.nodes && SameWalks(g, h)
    ensures LayerAt(g, root, k) == LayerAt(h, root, k)
  {
    SameReach(g, h, root, k);
    RingInNodes(g, root, k);
    SameWholeLayer(g, h, Ring(g, root, k), Ring(h, root, k), k + 1);
  }

  ghost function LayerAt(g: Graph, root: Id, k: nat): seq<Step> {
    Layer(g, Ring(g, root, k), k + 1, g.edges)
  }

  lemma {:induction false} SameLayers(g: Graph, h: Graph, root: Id, depth: nat)
    requires forall k: nat :: k < depth ==> LayerAt(g, root, k) == LayerAt(h, root, k)
    ensures Trace(g, root, depth) == Trace(h, root, depth)
  {
    if depth > 0 {
      SameLayers(g, h, root, depth - 1);
      assert LayerAt(g, root, depth - 1) == LayerAt(h, root, depth - 1);
    }
  }

  lemma SameWholeLayer(g: Graph, h: Graph, ring: set<Id>, other: set<Id>, depth: nat)
    requires ring == other <= g.nodes.Keys && SameWalks(g, h)
    ensures Layer(g, ring, depth, g.edges) == Layer(h, other, depth, h.edges)
  {
    SameLayer(g, h, ring, depth, g.edges);
  }

  lemma RingInNodes(g: Graph, root: Id, k: nat)
    requires root in g.nodes
    ensures Ring(g, root, k) <= g.nodes.Keys
  {
    ReachInNodes(g, root, k);
  }

  lemma {:induction false} SameLayer(g: Graph, h: Graph, ring: set<Id>, depth: nat, edges: seq<Edge>)
    requires ring <= g.nodes.Keys && SameWalks(g, h)
    requires forall e :: e in edges ==> e in g.edges
    ensures Layer(g, ring, depth, edges) == Layer(h, ring, depth, edges)
  {
    if |edges| > 0 {
      SameLayer(g, h, ring, depth, edges[..|edges| - 1]);
    }
  }

  lemma {:induction false} SameHops(g: Graph, h: Graph, steps: seq<Step>, contradiction: bool)
    requires WalkableSteps(g, steps) && g.nodes == h.nodes
    ensures Hops(g, steps, contradiction) == Hops(h, steps, contradiction)
  {
    if |steps| > 0 {
      SameHops(g, h, steps[..|steps| - 1], contradiction);
    }
  }

  /** A suspended edge between existing nodes is missing from the depth-1 trace of its source. */
  lemma SuspendedEdgeHidesHop(g: Graph, e: Edge)
    requires e in g.edges && e.edgeId in g.suspended && !OrphanEdge(g.nodes, e)
    ensures TraceAnswer(g, e.from, 1) != TraceAnswer(WithoutSuspensions(g), e.from, 1)
  {
    var h := WithoutSuspensions(g);
    var c := IsContradictionRelation(e.relation);
    TraceWalkable(g, e.from, 1);
    TraceWalkable(h, e.from, 1);
    assert Trace(g, e.from, 1) == Layer(g, {e.from}, 1, g.edges) by {
      assert Trace(g, e.from, 0) == [] && Ring(g, e.from, 0) == {e.from};
    }
    assert Trace(h, e.from, 1) == Layer(h, {e.from}, 1, h.edges) by {
      assert Trace(h, e.from, 0) == [] && Ring(h, e.from, 0) == {e.from};
    }
    MissingHop(g, {e.from}, 1, g.edges, e);
    SameHops(g, h, Trace(h, e.from, 1), c);
  }

  lemma {:induction false} FewerHops(g: Graph, ring: set<Id>, depth: nat, edges: seq<Edge>, c: bool)
    ensures WalkableSteps(g, Layer(g, ring, depth, edges))
    ensures WalkableSteps(g, Layer(WithoutSuspensions(g), ring, depth, edges))
    ensures |Hops(g, Layer(g, ring, depth, edges), c)| <=
            |Hops(g, Layer(WithoutSuspensions(g), ring, depth, edges), c)|
  {
    if |edges| > 0 {
      var before, e := edges[..|edges| - 1], edges[|edges| - 1];
      FewerHops(g, ring, depth, before, c);
      LayerHopsSnoc(g, ring, depth, before, e, c);
    }
  }

  lemma LayerHopsSnoc(g: Graph, ring: set<Id>, depth: nat, before: seq<Edge>, e: Edge, c: bool)
    requires WalkableSteps(g, Layer(g, ring, depth, before))
    requires WalkableSteps(g, Layer(WithoutSuspensions(g), ring, depth, before))
    ensures WalkableSteps(g, Layer(g, ring, depth, before + [e]))
    ensures WalkableSteps(g, Layer(WithoutSuspensions(g), ring, depth, before + [e]))
    ensures |Hops(g, Layer(g, ring, depth, before + [e]), c)| == |Hops(g, Layer(g, ring, depth, before), c)| +
            (if Walkable(g, e) && e.from in ring && IsContradictionRelation(e.relation) == c then 1 else 0)
    ensures |Hops(g, Layer(WithoutSuspensions(g), ring, depth, before + [e]), c)| ==
            |Hops(g, Layer(WithoutSuspensions(g), ring, depth, before), c)| +
            (if e.to in g.nodes && e.from in ring && IsContradictionRelation(e.relation) == c then 1 else 0)
  {
    assert (before + [e])[..|before|] == before;
    var a, b := Layer(g, ring, depth, before), Layer(WithoutSuspensions(g), ring, depth, before);
    assert a + [] == a && b + [] == b;
    if e.to in g.nodes {
      HopsSnoc(g, a, Step(e, depth), c);
      HopsSnoc(g, b, Step(e, depth), c);
    }
  }

  lemma {:induction false} MissingHop(g: Graph, ring: set<Id>, depth: nat, edges: seq<Edge>, e: Edge)
    requires e in edges && e.edgeId in g.suspended && e.from in ring && e.to in g.nodes
    ensures var c := IsContradictionRelation(e.relation);
            WalkableSteps(g, Layer(g, ring, depth, edges)) &&
            WalkableSteps(g, Layer(WithoutSuspensions(g), ring, depth, edges)) &&
            |Hops(g, Layer(g, ring, depth, edges), c)| < |Hops(g, Layer(WithoutSuspensions(g), ring, depth, edges), c)|
  {
    var c := IsContradictionRelation(e.relation);
    var before, last := edges[..|edges| - 1], edges[|edges| - 1];
    assert edges == before + [last];
    FewerHops(g, ring, depth, before, c);
    LayerHopsSnoc(g, ring, depth, before, last, c);
    if last != e {
      MissingHop(g, ring, depth, before, e);
    }
  }
}
