/** The memory service: each method runs one transaction on a copy and commits by replacing the database. */
module MemoryService {
  import opened Prelude
  import opened Records
  import opened MemoryStore

  /** The answer and the state of a finished call: committed on success, rolled back otherwise. */
  ghost predicate Committed(before: Database, outcome: Outcome, failure: Option<Error>, after: Database) {
    match outcome
    case Ok(done) => failure == None && after == done
    case Err(e) => failure == Some(e) && after == before
  }

  class Service {
    var db: Database
    const rules: TextRules

    constructor (rules: TextRules)
      ensures db == EMPTY && this.rules == rules
    {
      this.db, this.rules := EMPTY, rules;
    }

    method PrepareStore(req: StoreRequest, env: Env) returns (r: Result<StoreRequest, Error>)
      ensures r == Normalize(req, env)
    {
      if TrimSpace(req.body) == "" {
        return Err(BodyRequired);
      }
      if TrimSpace(req.namespace) == "" {
        return Err(NamespaceRequired);
      }
      var out := req;
      if out.memoryId == "" {
        out := out.(memoryId := env.newId);
      }
      if out.authoredAtMS == 0 {
        out := out.(authoredAtMS := env.now);
      }
      if out.memoryType == "" {
        out := out.(memoryType := "fact");
      }
      if out.authorAgentId == "" {
        out := out.(authorAgentId := "agent/default");
      }
      if out.originPeerId == "" {
        out := out.(originPeerId := "peer/local");
      }
      var rels: seq<RelationInput> := [];
      for i := 0 to |req.relations|
        invariant NormalizeRelations(req.relations[..i]) == Some(rels)
      {
        assert req.relations[..i + 1][..i] == req.relations[..i];
        var rel := NormalizeRelation(req.relations[i]);
        if rel.None? {
          BadRelationStops(req.relations, i + 1);
          return Err(RelationInvalid);
        }
        rels := rels + [rel.value];
      }
      assert req.relations[..|req.relations|] == req.relations;
      out := out.(relations := rels);
      return Ok(out);
    }

    method InsertRelations(nodes: map<Id, NodeRow>, edges0: multiset<EdgeRow>, req: StoreRequest)
      returns (r: Result<multiset<EdgeRow>, Error>)
      ensures match RelationEdges(nodes, req.memoryId, req.authoredAtMS, req.relations)
              case Ok(added) => r == Ok(edges0 + added)
              case Err(e) => r == Err(e)
    {
      var edges := edges0;
      ghost var added: multiset<EdgeRow> := multiset{};
      for i := 0 to |req.relations|
        invariant RelationEdges(nodes, req.memoryId, req.authoredAtMS, req.relations[..i]) == Ok(added)
        invariant edges == edges0 + added
      {
        NextRelation(nodes, req.memoryId, req.authoredAtMS, req.relations, i, added);
        var rel := req.relations[i];
        if rel.to == req.memoryId {
          return Err(SelfRelation);
        }
        if rel.to !in nodes {
          return Err(RelationTargetNotFound(rel.to));
        }
        var e := EdgeRow(req.memoryId, rel.to, rel.relation, rel.weight, req.authoredAtMS);
        edges := edges + multiset{e};
        added := added + multiset{e};
      }
      assert req.relations[..|req.relations|] == req.relations;
      return Ok(edges);
    }

    method StoreInTx(tx0: Database, req: StoreRequest) returns (r: Outcome)
      ensures r == StoreTx(tx0, req)
    {
      var tx := tx0;
      var space := tx.In(req.visibility);
      if req.memoryId in space.nodes {
        return Err(MemoryIdTaken);
      }
      var nodes := space.nodes[req.memoryId := NodeOf(req)];
      var edges := InsertRelations(nodes, space.edges, req);
      if edges.Err? {
        return Err(edges.error);
      }
      tx := tx.With(req.visibility, Space(nodes, edges.value));
      tx := tx.(units := tx.units[req.memoryId := UnitOf(req)]);
      tx := tx.(unitQueue := tx.unitQueue + [req.memoryId]);
      return Ok(tx);
    }

    method Store(req: StoreRequest, env: Env) returns (failure: Option<Error>)
      modifies this`db
      ensures Committed(old(db), StoreOp(old(db), req, env), failure, db)
    {
      var prepared := PrepareStore(req, env);
      if prepared.Err? {
        return Some(prepared.error);
      }
      var stored := StoreInTx(db, prepared.value);
      if stored.Err? {
        return Some(stored.error);
      }
      db := stored.value;
      return None;
    }

    method Supersede(oldId: Id, req: StoreRequest, env: Env) returns (failure: Option<Error>)
      modifies this`db
      ensures Committed(old(db), SupersedeOp(old(db), oldId, req, env), failure, db)
    {
      var prepared := PrepareStore(req.(visibility := Shared), env);
      if prepared.Err? {
        return Some(prepared.error);
      }
      var r := prepared.value;
      if oldId !in db.shared.nodes {
        return Some(MemoryNotFound);
      }
      var stored := StoreInTx(db, r);
      if stored.Err? {
        return Some(stored.error);
      }
      var tx := stored.value;
      tx := tx.(shared := tx.shared.(nodes := tx.shared.nodes[oldId := tx.shared.nodes[oldId].(lifecycle := Superseded)]));
      var e := EdgeRow(r.memoryId, oldId, "supersedes", 1.0, r.authoredAtMS);
      tx := tx.(shared := tx.shared.(edges := tx.shared.edges + multiset{e}));
      db := tx;
      return None;
    }

    /** One insert per row of the promotion query, in whatever order it yields them. */
    method InsertTargets(tx: Database, memoryId: Id, relation: string, authoredAtMS: int, rows: set<Id>,
                         ghost done0: set<Id>, edges0: multiset<EdgeRow>) returns (edges: multiset<EdgeRow>)
      requires edges0 == tx.priv.edges + multiset(InsertedFor(tx, memoryId, relation, authoredAtMS, done0))
      ensures edges == tx.priv.edges + multiset(InsertedFor(tx, memoryId, relation, authoredAtMS, done0 + rows))
    {
      edges := edges0;
      var todo := rows;
      ghost var done := done0;
      while todo != {}
        invariant todo <= rows && done == done0 + (rows - todo)
        invariant edges == tx.priv.edges + multiset(InsertedFor(tx, memoryId, relation, authoredAtMS, done))
        decreases todo
      {
        var target :| target in todo;
        InsertTarget(tx, memoryId, relation, authoredAtMS, done, target, edges);
        if !Related(edges, memoryId, target, relation) {
          edges := edges + multiset{EdgeRow(memoryId, target, relation, 1.0, authoredAtMS)};
        }
        todo := todo - {target};
        done := done + {target};
      }
      assert done == done0 + rows;
    }

    /** The rows of the join over one session, for each session of the chunks, each inserted unless present. */
    method PromoteInferredRelations(tx: Database, memoryId: Id, authoredAtMS: int, ids: seq<string>)
      returns (edges: multiset<EdgeRow>)
      requires forall id <- ids :: id in tx.chunks
      ensures edges == tx.priv.edges + multiset(InferredEdges(tx, rules, memoryId, authoredAtMS, ids))
    {
      var relation := InferredRelation(rules, tx.chunks, ids);
      if relation.None? {
        return tx.priv.edges;
      }
      edges := InsertBySession(tx, memoryId, relation.value, authoredAtMS, set id | id in ids :: tx.chunks[id].sessionId);
      SessionsOfChunks(tx, memoryId, ids);
    }

    method InsertBySession(tx: Database, memoryId: Id, relation: string, authoredAtMS: int, sessions: set<string>)
      returns (edges: multiset<EdgeRow>)
      ensures edges == tx.priv.edges +
                       multiset(InsertedFor(tx, memoryId, relation, authoredAtMS, AllOfSessions(tx, memoryId, sessions)))
    {
      edges := tx.priv.edges;
      var todo := sessions;
      ghost var done: set<Id> := {};
      NothingInserted(tx, memoryId, relation, authoredAtMS);
      while todo != {}
        invariant todo <= sessions
        invariant done + AllOfSessions(tx, memoryId, todo) == AllOfSessions(tx, memoryId, sessions)
        invariant edges == tx.priv.edges + multiset(InsertedFor(tx, memoryId, relation, authoredAtMS, done))
        decreases todo
      {
        var session :| session in todo;
        edges := InsertTargets(tx, memoryId, relation, authoredAtMS, OfSession(tx, memoryId, session), done, edges);
        AllOfSessionsSplit(tx, memoryId, todo, session);
        done := done + OfSession(tx, memoryId, session);
        todo := todo - {session};
      }
      NothingOfNoSession(tx, memoryId);
    }

    method CollectBodies(chunks: map<string, ChunkRow>, ids: seq<string>) returns (bodies: Option<seq<string>>)
      ensures bodies.Some? <==> forall id <- ids :: id in chunks
      ensures bodies.Some? ==> bodies.value == ChunkTexts(chunks, ids)
    {
      var texts: seq<string> := [];
      for i := 0 to |ids|
        invariant forall id <- ids[..i] :: id in chunks
        invariant texts == ChunkTexts(chunks, ids[..i])
      {
        if ids[i] !in chunks {
          return None;
        }
        assert ids[..i + 1] == ids[..i] + [ids[i]];
        texts := texts + [chunks[ids[i]].text];
      }
      assert ids[..|ids|] == ids;
      return Some(texts);
    }

    method RecordPromotions(rows: set<(string, Id)>, memoryId: Id, ids: seq<string>) returns (out: set<(string, Id)>)
      ensures out == rows + (set id | id in ids :: (id, memoryId))
    {
      out := rows;
      for i := 0 to |ids|
        invariant out == rows + (set id | id in ids[..i] :: (id, memoryId))
      {
        assert ids[..i + 1] == ids[..i] + [ids[i]];
        out := out + {(ids[i], memoryId)};
      }
      assert ids[..|ids|] == ids;
    }

    method PromoteInTx(tx0: Database, req: PromoteRequest, env: Env) returns (r: Result<(Database, Id), Error>)
      ensures r == PromoteTx(tx0, rules, req, env)
    {
      if |req.chunkIds| == 0 {
        return Err(ChunkIdsRequired);
      }
      if TrimSpace(req.namespace) == "" {
        return Err(NamespaceRequired);
      }
      var bodies := CollectBodies(tx0.chunks, req.chunkIds);
      if bodies.None? {
        return Err(MemoryNotFound);
      }
      var storeReq := StoreRequest(Private, "", OrElse(req.memoryType, "note"), req.namespace,
                                   OrElse(req.subject, "promoted transcript memory"), Join(bodies.value, "\n\n"),
                                   req.sourceUri, "", req.authorAgentId, req.originPeerId, req.authoredAtMS, []);
      assert storeReq == PromotedRequest(tx0, req);
      var prepared := PrepareStore(storeReq, env);
      if prepared.Err? {
        return Err(prepared.error);
      }
      var memoryId := prepared.value.memoryId;
      var stored := StoreInTx(tx0, prepared.value);
      if stored.Err? {
        return Err(stored.error);
      }
      var tx := stored.value;
      var edges := PromoteInferredRelations(tx, memoryId, prepared.value.authoredAtMS, req.chunkIds);
      tx := tx.(priv := tx.priv.(edges := edges));
      var promotions := RecordPromotions(tx.promotions, memoryId, req.chunkIds);
      tx := tx.(promotions := promotions);
      return Ok((tx, memoryId));
    }

    method Promote(req: PromoteRequest, env: Env) returns (failure: Option<Error>)
      modifies this`db
      ensures Committed(old(db), PromoteOp(old(db), rules, req, env), failure, db)
    {
      var promoted := PromoteInTx(db, req, env);
      if promoted.Err? {
        return Some(promoted.error);
      }
      db := promoted.value.0;
      return None;
    }

    method Publish(privateId: Id, env: Env) returns (failure: Option<Error>)
      modifies this`db
      ensures Committed(old(db), PublishOp(old(db), rules, privateId, env), failure, db)
    {
      var id := TrimSpace(privateId);
      if id == "" {
        return Some(PrivateMemoryIdRequired);
      }
      if id !in db.priv.nodes {
        return Some(MemoryNotFound);
      }
      var prepared := PrepareStore(PublishedRequest(db.priv.nodes[id], rules), env);
      if prepared.Err? {
        return Some(prepared.error);
      }
      var stored := StoreInTx(db, prepared.value);
      if stored.Err? {
        return Some(stored.error);
      }
      var tx := stored.value;
      db := tx.(publications := tx.publications + {(id, prepared.value.memoryId)});
      return None;
    }

    method ApproveCandidate(req: ApproveRequest, env: Env) returns (failure: Option<Error>)
      modifies this`db
      ensures Committed(old(db), ApproveOp(old(db), rules, req, env), failure, db)
    {
      var id := TrimSpace(req.candidateId);
      if id == "" {
        return Some(CandidateIdRequired);
      }
      var loaded := LoadCandidate(db, id);
      if loaded.Err? {
        return Some(loaded.error);
      }
      var chunkIds := LinkedChunks(db, id);
      if |chunkIds| == 0 {
        return Some(CandidateNeedsChunks);
      }
      var promoted := PromoteInTx(db, ApprovalRequest(db, loaded.value, id, req), env);
      if promoted.Err? {
        return Some(promoted.error);
      }
      var tx, memoryId := promoted.value.0, promoted.value.1;
      db := tx.(candidates := tx.candidates[id := loaded.value.(status := Approved, approvedMemoryId := memoryId,
                                                                reviewNote := "")]);
      return None;
    }

    method RejectCandidate(candidateId: string, note: string) returns (failure: Option<Error>)
      modifies this`db
      ensures Committed(old(db), RejectOp(old(db), candidateId, note), failure, db)
    {
      var id := TrimSpace(candidateId);
      if id == "" {
        return Some(CandidateIdRequired);
      }
      var loaded := LoadCandidate(db, id);
      if loaded.Err? {
        return Some(loaded.error);
      }
      db := db.(candidates := db.candidates[id := loaded.value.(status := Rejected, reviewNote := TrimSpace(note))]);
      return None;
    }

    /** The links are deleted and reinserted one by one; a repeated chunk violates their uniqueness. */
    method UpsertMemoryCandidate(id: string, chunkIds: seq<string>, row: CandidateRow) returns (failure: Option<Error>)
      modifies this`db
      ensures Committed(old(db), UpsertCandidateOp(old(db), id, chunkIds, row), failure, db)
    {
      if id == "" {
        return Some(CandidateIdRequired);
      }
      if row.namespace == "" {
        return Some(NamespaceRequired);
      }
      if row.candidateType == "" {
        return Some(CandidateTypeRequired);
      }
      if |chunkIds| == 0 {
        return Some(ChunkIdsRequired);
      }
      var tx := db.(candidates := UpsertCandidate(db.candidates, id, row, true));
      var linked: seq<string> := [];
      for i := 0 to |chunkIds|
        invariant linked == chunkIds[..i]
        invariant forall j, k :: 0 <= j < k < i ==> chunkIds[j] != chunkIds[k]
      {
        if chunkIds[i] in linked {
          return Some(DuplicateLink);
        }
        linked := linked + [chunkIds[i]];
      }
      assert linked == chunkIds;
      db := tx.(links := tx.links[id := linked]);
      return None;
    }
  }

  lemma {:induction false} BadRelationStops(rels: seq<RelationInput>, n: nat)
    requires n <= |rels| && NormalizeRelations(rels[..n]).None?
    ensures NormalizeRelations(rels).None?
    decreases |rels|
  {
    if n == |rels| {
      assert rels[..n] == rels;
    } else {
      assert rels[..|rels| - 1][..n] == rels[..n];
      BadRelationStops(rels[..|rels| - 1], n);
    }
  }

  /** One more relation: refused for good, or one more edge. */
  lemma NextRelation(nodes: map<Id, NodeRow>, from: Id, at: int, rels: seq<RelationInput>, i: nat, added: multiset<EdgeRow>)
    requires i < |rels| && RelationEdges(nodes, from, at, rels[..i]) == Ok(added)
    ensures rels[i].to == from ==> RelationEdges(nodes, from, at, rels) == Err(SelfRelation)
    ensures rels[i].to != from && rels[i].to !in nodes ==>
              RelationEdges(nodes, from, at, rels) == Err(RelationTargetNotFound(rels[i].to))
    ensures rels[i].to != from && rels[i].to in nodes ==>
              RelationEdges(nodes, from, at, rels[..i + 1]) == Ok(added + multiset{RelationEdge(from, at, rels[i])})
  {
    assert rels[..i + 1][..i] == rels[..i];
    if rels[i].to == from || rels[i].to !in nodes {
      RefusedRelationStops(nodes, from, at, rels, i + 1);
    }
  }

  lemma {:induction false} RefusedRelationStops(nodes: map<Id, NodeRow>, from: Id, at: int, rels: seq<RelationInput>, n: nat)
    requires n <= |rels| && RelationEdges(nodes, from, at, rels[..n]).Err?
    ensures RelationEdges(nodes, from, at, rels) == RelationEdges(nodes, from, at, rels[..n])
    decreases |rels|
  {
    if n == |rels| {
      assert rels[..n] == rels;
    } else {
      assert rels[..|rels| - 1][..n] == rels[..n];
      RefusedRelationStops(nodes, from, at, rels[..|rels| - 1], n);
    }
  }

  // ---------------------------------------------------------------- the inferred edges, session by session

  /** One run of the promotion query: the decisions promoted from a session. */
  function OfSession(tx: Database, memoryId: Id, session: string): set<Id> {
    set p | p in tx.promotions && p.0 in tx.chunks && tx.chunks[p.0].sessionId == session && p.1 != memoryId &&
            p.1 in tx.priv.nodes && tx.priv.nodes[p.1].memoryType == "decision" :: p.1
  }

  ghost function AllOfSessions(tx: Database, memoryId: Id, sessions: set<string>): set<Id> {
    set p | p in tx.promotions && p.0 in tx.chunks && tx.chunks[p.0].sessionId in sessions && p.1 != memoryId &&
            p.1 in tx.priv.nodes && tx.priv.nodes[p.1].memoryType == "decision" :: p.1
  }

  lemma AllOfSessionsSplit(tx: Database, memoryId: Id, sessions: set<string>, session: string)
    requires session in sessions
    ensures AllOfSessions(tx, memoryId, sessions) ==
            AllOfSessions(tx, memoryId, sessions - {session}) + OfSession(tx, memoryId, session)
  {}

  lemma NothingOfNoSession(tx: Database, memoryId: Id)
    ensures AllOfSessions(tx, memoryId, {}) == {}
  {}

  /** The sessions of the given chunks hold exactly the decisions the edges are inferred to. */
  lemma SessionsOfChunks(tx: Database, memoryId: Id, ids: seq<string>)
    requires forall id <- ids :: id in tx.chunks
    ensures AllOfSessions(tx, memoryId, set id | id in ids :: tx.chunks[id].sessionId) ==
            SessionDecisions(tx, memoryId, ids)
  {}

  lemma NothingInserted(tx: Database, memoryId: Id, relation: string, at: int)
    ensures InsertedFor(tx, memoryId, relation, at, {}) == {}
  {}

  ghost function InsertedFor(tx: Database, memoryId: Id, relation: string, at: int, targets: set<Id>): set<EdgeRow> {
    set t | t in targets && !Related(tx.priv.edges, memoryId, t, relation) :: EdgeRow(memoryId, t, relation, 1.0, at)
  }

  /** The insert's NOT EXISTS guard adds a target's edge exactly once. */
  lemma InsertTarget(tx: Database, memoryId: Id, relation: string, at: int, done: set<Id>, target: Id,
                     edges: multiset<EdgeRow>)
    requires edges == tx.priv.edges + multiset(InsertedFor(tx, memoryId, relation, at, done))
    ensures var e, after := EdgeRow(memoryId, target, relation, 1.0, at),
                            multiset(InsertedFor(tx, memoryId, relation, at, done + {target}));
            tx.priv.edges + after ==
            if Related(edges, memoryId, target, relation) then edges else edges + multiset{e}
  {
    var e := EdgeRow(memoryId, target, relation, 1.0, at);
    var before, after := InsertedFor(tx, memoryId, relation, at, done), InsertedFor(tx, memoryId, relation, at, done + {target});
    if Related(tx.priv.edges, memoryId, target, relation) {
      var f :| f in tx.priv.edges && f.from == memoryId && f.to == target && f.relation == relation;
      assert f in edges;
      assert after == before;
    } else {
      assert after == before + {e};
      assert Related(edges, memoryId, target, relation) <==> e in before by {
        if e in before {
          assert e in edges;
        }
      }
    }
  }
}
