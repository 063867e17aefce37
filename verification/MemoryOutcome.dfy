/** What each local writer of the memory graphs does and when it fails, told column by column. */
module MemoryOutcome {
  import opened Prelude
  import opened Records
  import opened MemoryStore

  // ---------------------------------------------------------------- storing

  /** The given text, or what stands in for an empty one. */
  predicate Filled(value: string, given: string, standIn: string) {
    (given != "" ==> value == given) && (given == "" ==> value == standIn)
  }

  /** The id and the time a new memory gets. */
  predicate Stamped(id: Id, authoredAtMS: int, givenId: Id, givenMS: int, env: Env) {
    Filled(id, givenId, env.newId) && (givenMS != 0 ==> authoredAtMS == givenMS) && (givenMS == 0 ==> authoredAtMS == env.now)
  }

  /** The node of a request, active. */
  predicate NodeTells(row: NodeRow, req: StoreRequest) {
    Filled(row.memoryType, req.memoryType, "fact") && row.namespace == req.namespace && row.subject == req.subject &&
    row.body == req.body && row.sourceUri == req.sourceUri && row.sourceHash == req.sourceHash &&
    Filled(row.authorAgentId, req.authorAgentId, "agent/default") &&
    Filled(row.originPeerId, req.originPeerId, "peer/local") && row.lifecycle == Active
  }

  /** The retrieval unit of a node: searchable text of the memory, never secret. */
  predicate UnitTells(u: UnitRow, v: Visibility, id: Id, row: NodeRow) {
    u.sourceType == (if v == Shared then "shared_memory" else "private_memory") && u.sourceId == id &&
    u.memorySpace == (if v == Shared then "shared" else "private") && u.namespace == row.namespace &&
    u.unitKind == row.memoryType && u.title == row.subject && u.body == row.body && u.authoredAtMS == row.authoredAtMS &&
    u.sensitivity == "private" && u.retentionClass == "default" && u.state == "active" && u.sourceUri == row.sourceUri &&
    u.projectKey == "" && u.branchName == ""
  }

  /** The edge of a requested relation. */
  predicate EdgeTells(e: EdgeRow, id: Id, authoredAtMS: int, rel: RelationInput) {
    e.from == id && e.to == TrimSpace(rel.to) && e.relation == TrimSpace(rel.relation) && e.authoredAtMS == authoredAtMS &&
    (rel.weight != 0.0 ==> e.weight == rel.weight) && (rel.weight == 0.0 ==> e.weight == 1.0)
  }

  ghost predicate EdgesTell(edges: multiset<EdgeRow>, id: Id, authoredAtMS: int, rels: seq<RelationInput>) {
    exists listed: seq<EdgeRow> :: edges == multiset(listed) && ListTells(listed, id, authoredAtMS, rels)
  }

  predicate ListTells(listed: seq<EdgeRow>, id: Id, authoredAtMS: int, rels: seq<RelationInput>) {
    |listed| == |rels| && forall i :: 0 <= i < |rels| ==> EdgeTells(listed[i], id, authoredAtMS, rels[i])
  }

  /** Nothing but one space, the units and their queue has changed. */
  ghost predicate OnlyStores(db: Database, next: Database, v: Visibility) {
    (v == Shared ==> next.priv == db.priv) && (v == Private ==> next.shared == db.shared) &&
    next.chunks == db.chunks && next.candidates == db.candidates && next.links == db.links
  }

  predicate AddsNode(before: map<Id, NodeRow>, after: map<Id, NodeRow>, id: Id) {
    id !in before && after.Keys == before.Keys + {id} && forall known :: known in before ==> after[known] == before[known]
  }

  /** The new node with its unit and its place in the queue. */
  ghost predicate StoresNode(db: Database, next: Database, v: Visibility, id: Id, row: NodeRow) {
    OnlyStores(db, next, v) && id in next.In(v).nodes && next.In(v).nodes[id] == row &&
    id in next.units && UnitTells(next.units[id], v, id, row) && next.units == db.units[id := next.units[id]] &&
    next.unitQueue == db.unitQueue + [id]
  }

  /** A relation the service accepts, from a memory with this id. */
  predicate GoodRelation(rel: RelationInput) {
    TrimSpace(rel.relation) in {"supports", "contradicts", "derived_from", "about", "caused_by", "references"} &&
    TrimSpace(rel.to) != "" && rel.weight >= 0.0
  }

  predicate TargetOk(nodes: map<Id, NodeRow>, id: Id, rel: RelationInput) {
    TrimSpace(rel.to) != id && TrimSpace(rel.to) in nodes
  }

  lemma {:induction false} RelationsNormal(rels: seq<RelationInput>)
    ensures NormalizeRelations(rels).Some? <==> forall rel :: rel in rels ==> GoodRelation(rel)
    ensures NormalizeRelations(rels).Some? ==>
              |NormalizeRelations(rels).value| == |rels| &&
              forall i :: 0 <= i < |rels| ==> NormalizeRelation(rels[i]) == Some(NormalizeRelations(rels).value[i])
  {
    if |rels| > 0 {
      var before, last := rels[..|rels| - 1], rels[|rels| - 1];
      RelationsNormal(before);
      assert forall rel :: rel in rels <==> rel in before || rel == last;
      assert NormalizeRelation(last).Some? <==> GoodRelation(last);
    }
  }

  /** The normal form of a relation, as its edge and its checks read it. */
  predicate NormalOf(r: RelationInput, rel: RelationInput) {
    r.to == TrimSpace(rel.to) && r.relation == TrimSpace(rel.relation) &&
    (rel.weight != 0.0 ==> r.weight == rel.weight) && (rel.weight == 0.0 ==> r.weight == 1.0)
  }

  predicate AllNormal(normal: seq<RelationInput>, rels: seq<RelationInput>) {
    |normal| == |rels| && forall i :: 0 <= i < |rels| ==> NormalOf(normal[i], rels[i])
  }

  /** The first relation whose target will not do. */
  predicate FirstBadTarget(nodes: map<Id, NodeRow>, id: Id, rels: seq<RelationInput>, i: nat) {
    i < |rels| && !TargetOk(nodes, id, rels[i]) && forall k :: 0 <= k < i ==> TargetOk(nodes, id, rels[k])
  }

  predicate TargetError(nodes: map<Id, NodeRow>, id: Id, rel: RelationInput, e: Error) {
    if TrimSpace(rel.to) == id then e == SelfRelation else e == RelationTargetNotFound(TrimSpace(rel.to))
  }

  lemma {:induction false} RelationsStored(nodes: map<Id, NodeRow>, all: map<Id, NodeRow>, id: Id, authoredAtMS: int,
                                           rels: seq<RelationInput>, normal: seq<RelationInput>)
    requires all.Keys == nodes.Keys + {id}
    requires AllNormal(normal, rels)
    ensures RelationsRight(nodes, id, authoredAtMS, rels, RelationEdges(all, id, authoredAtMS, normal))
  {
    if |rels| == 0 {
      NoEdges(id, authoredAtMS);
    } else {
      var before, last := rels[..|rels| - 1], rels[|rels| - 1];
      var normalBefore, normalLast := normal[..|normal| - 1], normal[|normal| - 1];
      assert before + [last] == rels && normalBefore + [normalLast] == normal;
      RelationsStored(nodes, all, id, authoredAtMS, before, normalBefore);
      NextRelation(nodes, all, id, authoredAtMS, before, last, normalBefore, normalLast);
    }
  }

  lemma NoEdges(id: Id, authoredAtMS: int)
    ensures EdgesTell(multiset{}, id, authoredAtMS, [])
  {
    var none: seq<EdgeRow> := [];
    assert multiset(none) == multiset{} && ListTells(none, id, authoredAtMS, []);
  }

  /** The outcome of storing relations is right: their edges, or the first bad target. */
  ghost predicate RelationsRight(nodes: map<Id, NodeRow>, id: Id, authoredAtMS: int, rels: seq<RelationInput>,
                                 r: Result<multiset<EdgeRow>, Error>)
  {
    match r
    case Ok(edges) => EdgesTell(edges, id, authoredAtMS, rels) && forall rel :: rel in rels ==> TargetOk(nodes, id, rel)
    case Err(e) => exists i: nat :: FirstBadTarget(nodes, id, rels, i) && TargetError(nodes, id, rels[i], e)
  }

  lemma NextRelation(nodes: map<Id, NodeRow>, all: map<Id, NodeRow>, id: Id, authoredAtMS: int, rels: seq<RelationInput>,
                     rel: RelationInput, normal: seq<RelationInput>, r: RelationInput)
    requires all.Keys == nodes.Keys + {id} && NormalOf(r, rel)
    requires RelationsRight(nodes, id, authoredAtMS, rels, RelationEdges(all, id, authoredAtMS, normal))
    ensures RelationsRight(nodes, id, authoredAtMS, rels + [rel], RelationEdges(all, id, authoredAtMS, normal + [r]))
  {
    assert (normal + [r])[..|normal|] == normal;
    match RelationEdges(all, id, authoredAtMS, normal)
    case Err(e) =>
      var i: nat :| FirstBadTarget(nodes, id, rels, i) && TargetError(nodes, id, rels[i], e);
      assert FirstBadTarget(nodes, id, rels + [rel], i);
    case Ok(before) =>
      if TargetOk(nodes, id, rel) {
        EdgesTellSnoc(before, id, authoredAtMS, rels, rel, RelationEdge(id, authoredAtMS, r));
      } else {
        assert forall k :: 0 <= k < |rels| ==> rels[k] in rels;
        assert FirstBadTarget(nodes, id, rels + [rel], |rels|);
      }
  }

  lemma EdgesTellSnoc(edges: multiset<EdgeRow>, id: Id, authoredAtMS: int, rels: seq<RelationInput>, rel: RelationInput,
                      e: EdgeRow)
    requires EdgesTell(edges, id, authoredAtMS, rels) && EdgeTells(e, id, authoredAtMS, rel)
    ensures EdgesTell(edges + multiset{e}, id, authoredAtMS, rels + [rel])
  {
    var listed: seq<EdgeRow> :| edges == multiset(listed) && ListTells(listed, id, authoredAtMS, rels);
    ListSnoc(listed, id, authoredAtMS, rels, rel, e);
    assert multiset(listed + [e]) == edges + multiset{e};
  }

  lemma ListSnoc(listed: seq<EdgeRow>, id: Id, authoredAtMS: int, rels: seq<RelationInput>, rel: RelationInput, e: EdgeRow)
    requires ListTells(listed, id, authoredAtMS, rels) && EdgeTells(e, id, authoredAtMS, rel)
    ensures ListTells(listed + [e], id, authoredAtMS, rels + [rel])
  {}

  /** What a request must hold, whatever the database. */
  predicate RequestOk(req: StoreRequest) {
    TrimSpace(req.body) != "" && TrimSpace(req.namespace) != "" && forall rel :: rel in req.relations ==> GoodRelation(rel)
  }

  predicate RequestError(req: StoreRequest, e: Error) {
    if TrimSpace(req.body) == "" then e == BodyRequired
    else if TrimSpace(req.namespace) == "" then e == NamespaceRequired
    else e == RelationInvalid
  }

  /** The database side of a failed store: a taken id, or the first relation whose target will not do. */
  ghost predicate StoreError(nodes: map<Id, NodeRow>, id: Id, rels: seq<RelationInput>, e: Error) {
    if id in nodes then e == MemoryIdTaken
    else exists i: nat :: FirstBadTarget(nodes, id, rels, i) && TargetError(nodes, id, rels[i], e)
  }

  /** The memory of a request is stored under this id, as this node, with its unit and these edges. */
  ghost predicate Stores(db: Database, next: Database, req: StoreRequest, env: Env, id: Id, row: NodeRow,
                         added: multiset<EdgeRow>)
  {
    NodeTells(row, req) && Stamped(id, row.authoredAtMS, req.memoryId, req.authoredAtMS, env) &&
    StoresNode(db, next, req.visibility, id, row) &&
    AddsNode(db.In(req.visibility).nodes, next.In(req.visibility).nodes, id) &&
    EdgesTell(added, id, row.authoredAtMS, req.relations) &&
    next.In(req.visibility).edges == db.In(req.visibility).edges + added &&
    next.promotions == db.promotions && next.publications == db.publications
  }

  ghost predicate StoredAs(db: Database, next: Database, req: StoreRequest, env: Env, id: Id) {
    exists row, added :: Stores(db, next, req, env, id, row, added)
  }

  lemma NormalizeMeans(req: StoreRequest, env: Env)
    ensures match Normalize(req, env)
            case Err(e) => !RequestOk(req) && RequestError(req, e)
            case Ok(r) =>
              RequestOk(req) && Stamped(r.memoryId, r.authoredAtMS, req.memoryId, req.authoredAtMS, env) &&
              NodeTells(NodeOf(r), req) && r.visibility == req.visibility && AllNormal(r.relations, req.relations)
  {
    RelationsNormal(req.relations);
  }

  lemma StoreTxMeans(db: Database, r: StoreRequest, req: StoreRequest, env: Env)
    requires Normalize(req, env) == Ok(r)
    ensures match StoreTx(db, r)
            case Ok(next) => StoredAs(db, next, req, env, r.memoryId)
            case Err(e) => StoreError(db.In(req.visibility).nodes, r.memoryId, req.relations, e)
  {
    NormalizeMeans(req, env);
    var space := db.In(req.visibility);
    if r.memoryId !in space.nodes {
      var all := space.nodes[r.memoryId := NodeOf(r)];
      RelationsStored(space.nodes, all, r.memoryId, r.authoredAtMS, req.relations, r.relations);
      if StoreTx(db, r).Ok? {
        var added := RelationEdges(all, r.memoryId, r.authoredAtMS, r.relations).value;
        StoredTells(db, r, added);
        assert Stores(db, StoreTx(db, r).value, req, env, r.memoryId, NodeOf(r), added);
      }
    }
  }

  lemma StoredTells(db: Database, r: StoreRequest, added: multiset<EdgeRow>)
    requires StoreTx(db, r).Ok?
    requires var all := db.In(r.visibility).nodes[r.memoryId := NodeOf(r)];
             RelationEdges(all, r.memoryId, r.authoredAtMS, r.relations) == Ok(added)
    ensures var next := StoreTx(db, r).value;
            StoresNode(db, next, r.visibility, r.memoryId, NodeOf(r)) &&
            AddsNode(db.In(r.visibility).nodes, next.In(r.visibility).nodes, r.memoryId) &&
            next.promotions == db.promotions && next.publications == db.publications &&
            next.In(r.visibility).edges == db.In(r.visibility).edges + added
  {}

  /**
    A store fails for its request, for a taken id, or for the first relation to itself or to a missing memory;
    otherwise exactly one memory is added, with its unit, its place in the queue and one edge per relation.
   */
  lemma StoreMeans(db: Database, req: StoreRequest, env: Env)
    ensures match StoreOp(db, req, env)
            case Ok(next) => RequestOk(req) && exists id :: StoredAs(db, next, req, env, id)
            case Err(e) =>
              if !RequestOk(req) then RequestError(req, e)
              else exists id :: Filled(id, req.memoryId, env.newId) &&
                                StoreError(db.In(req.visibility).nodes, id, req.relations, e)
  {
    NormalizeMeans(req, env);
    if Normalize(req, env).Ok? {
      StoreTxMeans(db, Normalize(req, env).value, req, env);
    }
  }

  // ---------------------------------------------------------------- superseding

  /**
    Superseding stores the new shared memory, marks the old one and links the two. It fails for its request,
    then for a missing old memory, then as a store does.
   */
  lemma SupersedeMeans(db: Database, oldId: Id, req: StoreRequest, env: Env)
    ensures match SupersedeOp(db, oldId, req, env)
            case Ok(next) =>
              RequestOk(req) && oldId in db.shared.nodes &&
              Supersedes(db, next, oldId, req.(visibility := Shared), env)
            case Err(e) =>
              if !RequestOk(req) then RequestError(req, e)
              else if oldId !in db.shared.nodes then e == MemoryNotFound
              else exists id :: Filled(id, req.memoryId, env.newId) && StoreError(db.shared.nodes, id, req.relations, e)
  {
    var shared := req.(visibility := Shared);
    NormalizeMeans(shared, env);
    if Normalize(shared, env).Ok? && oldId in db.shared.nodes {
      var r := Normalize(shared, env).value;
      StoreTxMeans(db, r, shared, env);
      if StoreTx(db, r).Ok? {
        SupersededRight(db, oldId, req, env, r);
        SupersedesAll(db, StoreTx(db, r).value, SupersedeOp(db, oldId, req, env).value, oldId, shared, env, r);
      }
    }
  }

  ghost predicate Supersedes(db: Database, next: Database, oldId: Id, req: StoreRequest, env: Env) {
    exists stored, id, row, added ::
      Stores(db, stored, req, env, id, row, added) && SupersedesWith(stored, next, oldId, id, row.authoredAtMS)
  }

  lemma SupersedesAll(db: Database, stored: Database, next: Database, oldId: Id, req: StoreRequest, env: Env, r: StoreRequest)
    requires Normalize(req, env) == Ok(r) && StoreTx(db, r) == Ok(stored)
    requires SupersedesWith(stored, next, oldId, r.memoryId, NodeOf(r).authoredAtMS)
    ensures Supersedes(db, next, oldId, req, env)
  {
    NormalizeMeans(req, env);
    var all := db.In(r.visibility).nodes[r.memoryId := NodeOf(r)];
    RelationsStored(db.In(r.visibility).nodes, all, r.memoryId, r.authoredAtMS, req.relations, r.relations);
    var added := RelationEdges(all, r.memoryId, r.authoredAtMS, r.relations).value;
    StoredTells(db, r, added);
    assert Stores(db, stored, req, env, r.memoryId, NodeOf(r), added);
  }

  lemma SupersededRight(db: Database, oldId: Id, req: StoreRequest, env: Env, r: StoreRequest)
    requires Normalize(req.(visibility := Shared), env) == Ok(r) && oldId in db.shared.nodes && StoreTx(db, r).Ok?
    ensures SupersedeOp(db, oldId, req, env).Ok?
    ensures SupersedesWith(StoreTx(db, r).value, SupersedeOp(db, oldId, req, env).value, oldId, r.memoryId,
                           NodeOf(r).authoredAtMS)
  {}

  /** The old node is superseded and the new one points at it; nothing else changes. */
  ghost predicate SupersedesWith(stored: Database, next: Database, oldId: Id, id: Id, authoredAtMS: int) {
    oldId in stored.shared.nodes && oldId in next.shared.nodes && next.shared.nodes.Keys == stored.shared.nodes.Keys &&
    (forall other :: other in stored.shared.nodes && other != oldId ==>
      next.shared.nodes[other] == stored.shared.nodes[other]) &&
    next.shared.nodes[oldId] == stored.shared.nodes[oldId].(lifecycle := Superseded) &&
    next.shared.edges == stored.shared.edges + multiset{EdgeRow(id, oldId, "supersedes", 1.0, authoredAtMS)} &&
    next == stored.(shared := next.shared)
  }

  // ---------------------------------------------------------------- promoting

  /** The texts of the chunks in the given order, with a blank line between any two. */
  function Texts(chunks: map<string, ChunkRow>, ids: seq<string>): string
    requires forall id <- ids :: id in chunks
  {
    if |ids| == 0 then ""
    else if |ids| == 1 then chunks[ids[0]].text
    else chunks[ids[0]].text + "\n\n" + Texts(chunks, ids[1..])
  }

  lemma {:induction false} TextsJoined(chunks: map<string, ChunkRow>, ids: seq<string>)
    requires forall id <- ids :: id in chunks
    ensures Join(ChunkTexts(chunks, ids), "\n\n") == Texts(chunks, ids)
  {
    if |ids| > 1 {
      TextsJoined(chunks, ids[1..]);
      assert ChunkTexts(chunks, ids)[1..] == ChunkTexts(chunks, ids[1..]);
      JoinCons(ChunkTexts(chunks, ids), "\n\n");
    }
  }

  /** The node made of chunks. */
  predicate PromotedTells(row: NodeRow, chunks: map<string, ChunkRow>, req: PromoteRequest)
    requires forall id <- req.chunkIds :: id in chunks
  {
    Filled(row.memoryType, req.memoryType, "note") && row.namespace == req.namespace &&
    Filled(row.subject, req.subject, "promoted transcript memory") && row.body == Texts(chunks, req.chunkIds) &&
    row.sourceUri == req.sourceUri && row.sourceHash == "" && Filled(row.authorAgentId, req.authorAgentId, "agent/default") &&
    Filled(row.originPeerId, req.originPeerId, "peer/local") && row.lifecycle == Active
  }

  /** A decision that was promoted from a session one of the chunks belongs to. */
  ghost predicate EarlierDecision(db: Database, ids: seq<string>, id: Id, decision: Id) {
    decision != id && decision in db.priv.nodes && db.priv.nodes[decision].memoryType == "decision" &&
    exists c, own :: (c, decision) in db.promotions && c in db.chunks && own in ids && own in db.chunks &&
                     db.chunks[own].sessionId == db.chunks[c].sessionId
  }

  /** What the chunks say of earlier decisions: contradiction by wording, else support by a chunk that argues. */
  ghost predicate Says(rules: TextRules, chunks: map<string, ChunkRow>, ids: seq<string>, relation: string)
    requires forall id <- ids :: id in chunks
  {
    if rules.contradicts(ChunkTexts(chunks, ids)) then relation == "contradicts"
    else
      relation == "supports" &&
      exists id :: id in ids && chunks[id].chunkKind in {"rationale", "debug_trace", "task_candidate"}
  }

  /** The edge is inferred: from the new memory to an earlier decision it is not related to yet. */
  ghost predicate Inferred(db: Database, rules: TextRules, ids: seq<string>, id: Id, authoredAtMS: int, e: EdgeRow)
    requires forall c <- ids :: c in db.chunks
  {
    e.from == id && e.weight == 1.0 && e.authoredAtMS == authoredAtMS && Says(rules, db.chunks, ids, e.relation) &&
    EarlierDecision(db, ids, id, e.to) &&
    forall other :: other in db.priv.edges && other.from == id && other.to == e.to ==> other.relation != e.relation
  }

  /** The chunks have become one private memory, linked to them and to earlier decisions of their sessions. */
  ghost predicate Promotes(db: Database, next: Database, rules: TextRules, req: PromoteRequest, env: Env, id: Id,
                           row: NodeRow)
    requires forall c <- req.chunkIds :: c in db.chunks
  {
    PromotedTells(row, db.chunks, req) && Stamped(id, row.authoredAtMS, "", req.authoredAtMS, env) &&
    StoresNode(db, next, Private, id, row) && AddsNode(db.priv.nodes, next.priv.nodes, id) &&
    next.publications == db.publications &&
    (forall c, m :: (c, m) in next.promotions <==> (c, m) in db.promotions || (c in req.chunkIds && m == id)) &&
    forall e :: next.priv.edges[e] ==
      db.priv.edges[e] + Count(Inferred(db, rules, req.chunkIds, id, row.authoredAtMS, e))
  }

  function Count(there: bool): nat {
    if there then 1 else 0
  }

  lemma InferredMeans(db: Database, stored: Database, rules: TextRules, ids: seq<string>, id: Id, authoredAtMS: int,
                      e: EdgeRow)
    requires forall c <- ids :: c in db.chunks
    requires stored.chunks == db.chunks && stored.promotions == db.promotions && stored.priv.edges == db.priv.edges
    requires AddsNode(db.priv.nodes, stored.priv.nodes, id)
    ensures e in InferredEdges(stored, rules, id, authoredAtMS, ids) <==> Inferred(db, rules, ids, id, authoredAtMS, e)
  {
    DecisionsMean(db, stored, ids, id, e.to);
  }

  lemma DecisionsMean(db: Database, stored: Database, ids: seq<string>, id: Id, decision: Id)
    requires stored.chunks == db.chunks && stored.promotions == db.promotions
    requires AddsNode(db.priv.nodes, stored.priv.nodes, id)
    ensures decision in SessionDecisions(stored, id, ids) <==> EarlierDecision(db, ids, id, decision)
  {
    if EarlierDecision(db, ids, id, decision) {
      var c, own :| (c, decision) in db.promotions && c in db.chunks && own in ids && own in db.chunks &&
                    db.chunks[own].sessionId == db.chunks[c].sessionId;
      assert (c, decision) in stored.promotions;
    }
  }

  predicate PromoteOk(db: Database, req: PromoteRequest) {
    req.chunkIds != [] && TrimSpace(req.namespace) != "" && (forall id <- req.chunkIds :: id in db.chunks) &&
    TrimSpace(Texts(db.chunks, req.chunkIds)) != ""
  }

  /** Why a promotion fails, in the order of its checks. */
  predicate PromoteError(db: Database, req: PromoteRequest, env: Env, e: Error) {
    if req.chunkIds == [] then e == ChunkIdsRequired
    else if TrimSpace(req.namespace) == "" then e == NamespaceRequired
    else if exists id :: id in req.chunkIds && id !in db.chunks then e == MemoryNotFound
    else if TrimSpace(Texts(db.chunks, req.chunkIds)) == "" then e == BodyRequired
    else env.newId in db.priv.nodes && e == MemoryIdTaken
  }

  lemma PromoteTxMeans(db: Database, rules: TextRules, req: PromoteRequest, env: Env)
    ensures match PromoteTx(db, rules, req, env)
            case Ok((next, id)) => PromoteOk(db, req) && exists row :: Promotes(db, next, rules, req, env, id, row)
            case Err(e) => PromoteError(db, req, env, e)
  {
    if req.chunkIds != [] && TrimSpace(req.namespace) != "" && forall id :: id in req.chunkIds ==> id in db.chunks {
      TextsJoined(db.chunks, req.chunkIds);
      var request := PromotedRequest(db, req);
      NormalizeMeans(request, env);
      if Normalize(request, env).Ok? {
        var r := Normalize(request, env).value;
        StoreTxMeans(db, r, request, env);
        if StoreTx(db, r).Ok? {
          PromotedRight(db, rules, req, env, r);
        }
      }
    }
  }

  lemma PromotedRight(db: Database, rules: TextRules, req: PromoteRequest, env: Env, r: StoreRequest)
    requires forall id <- req.chunkIds :: id in db.chunks
    requires req.chunkIds != [] && TrimSpace(req.namespace) != ""
    requires Normalize(PromotedRequest(db, req), env) == Ok(r) && StoreTx(db, r).Ok?
    ensures PromoteTx(db, rules, req, env).Ok?
    ensures var promoted := PromoteTx(db, rules, req, env).value;
            Promotes(db, promoted.0, rules, req, env, promoted.1, NodeOf(r))
  {
    var stored, id := StoreTx(db, r).value, r.memoryId;
    var next := PromoteTx(db, rules, req, env).value.0;
    PromotedNode(db, req, env, r);
    StoredTells(db, r, multiset{});
    StoresKept(db, stored, next, id, NodeOf(r));
    EdgesInferred(db, stored, rules, req.chunkIds, id, r.authoredAtMS);
    LinksAdded(db.promotions, next.promotions, req.chunkIds, id);
  }

  lemma PromotedNode(db: Database, req: PromoteRequest, env: Env, r: StoreRequest)
    requires forall id <- req.chunkIds :: id in db.chunks
    requires Normalize(PromotedRequest(db, req), env) == Ok(r)
    ensures PromotedTells(NodeOf(r), db.chunks, req) && Stamped(r.memoryId, r.authoredAtMS, "", req.authoredAtMS, env)
    ensures r.visibility == Private && r.relations == []
  {
    NormalizeMeans(PromotedRequest(db, req), env);
    TextsJoined(db.chunks, req.chunkIds);
  }

  lemma StoresKept(db: Database, stored: Database, next: Database, id: Id, row: NodeRow)
    requires StoresNode(db, stored, Private, id, row) && next.priv.nodes == stored.priv.nodes
    requires next == stored.(priv := next.priv, promotions := next.promotions)
    ensures StoresNode(db, next, Private, id, row)
  {}

  lemma EdgesInferred(db: Database, stored: Database, rules: TextRules, ids: seq<string>, id: Id, authoredAtMS: int)
    requires forall c <- ids :: c in db.chunks
    requires stored.chunks == db.chunks && stored.promotions == db.promotions && stored.priv.edges == db.priv.edges
    requires AddsNode(db.priv.nodes, stored.priv.nodes, id)
    ensures var edges := stored.priv.edges + multiset(InferredEdges(stored, rules, id, authoredAtMS, ids));
            forall e :: edges[e] == db.priv.edges[e] + Count(Inferred(db, rules, ids, id, authoredAtMS, e))
  {
    var edges := stored.priv.edges + multiset(InferredEdges(stored, rules, id, authoredAtMS, ids));
    forall e
      ensures edges[e] == db.priv.edges[e] + Count(Inferred(db, rules, ids, id, authoredAtMS, e))
    {
      InferredMeans(db, stored, rules, ids, id, authoredAtMS, e);
    }
  }

  lemma LinksAdded(before: set<(string, Id)>, after: set<(string, Id)>, ids: seq<string>, id: Id)
    requires after == before + (set c | c in ids :: (c, id))
    ensures forall c, m :: (c, m) in after <==> (c, m) in before || (c in ids && m == id)
  {}

  // ---------------------------------------------------------------- publishing

  /** The shared copy of a private node: its texts redacted, the rest taken over. */
  predicate PublishedTells(row: NodeRow, original: NodeRow, rules: TextRules) {
    Filled(row.memoryType, original.memoryType, "fact") && row.namespace == original.namespace &&
    row.subject == rules.redactText(original.subject) && row.body == rules.redactText(original.body) &&
    row.sourceUri == rules.redactUri(original.sourceUri) && row.sourceHash == original.sourceHash &&
    Filled(row.authorAgentId, original.authorAgentId, "agent/default") &&
    Filled(row.originPeerId, original.originPeerId, "peer/local") && row.lifecycle == Active
  }

  /** The copy is stored as a shared memory of its own, and the pair is recorded. */
  ghost predicate Publishes(db: Database, next: Database, rules: TextRules, original: Id, env: Env, id: Id, row: NodeRow) {
    original in db.priv.nodes && PublishedTells(row, db.priv.nodes[original], rules) &&
    Stamped(id, row.authoredAtMS, "", db.priv.nodes[original].authoredAtMS, env) &&
    StoresNode(db, next, Shared, id, row) && AddsNode(db.shared.nodes, next.shared.nodes, id) &&
    next.shared.edges == db.shared.edges && next.promotions == db.promotions &&
    next.publications == db.publications + {(original, id)}
  }

  lemma PublishMeans(db: Database, rules: TextRules, privateId: Id, env: Env)
    ensures var original := TrimSpace(privateId);
            match PublishOp(db, rules, privateId, env)
            case Ok(next) => exists id, row :: Publishes(db, next, rules, original, env, id, row)
            case Err(e) =>
              if original == "" then e == PrivateMemoryIdRequired
              else if original !in db.priv.nodes then e == MemoryNotFound
              else if TrimSpace(rules.redactText(db.priv.nodes[original].body)) == "" then e == BodyRequired
              else if TrimSpace(db.priv.nodes[original].namespace) == "" then e == NamespaceRequired
              else env.newId in db.shared.nodes && e == MemoryIdTaken
  {
    var original := TrimSpace(privateId);
    if original != "" && original in db.priv.nodes {
      var request := PublishedRequest(db.priv.nodes[original], rules);
      NormalizeMeans(request, env);
      if Normalize(request, env).Ok? {
        var r := Normalize(request, env).value;
        StoreTxMeans(db, r, request, env);
        if StoreTx(db, r).Ok? {
          StoredTells(db, r, multiset{});
          assert Publishes(db, PublishOp(db, rules, privateId, env).value, rules, original, env, r.memoryId, NodeOf(r));
        }
      }
    }
  }

  // ---------------------------------------------------------------- review

  /** The trimmed text given with the approval, or the candidate's own unless that is blank. */
  predicate Preferred(value: string, given: string, own: string) {
    if TrimSpace(given) != "" then value == TrimSpace(given)
    else if TrimSpace(own) != "" then value == own
    else value == ""
  }

  /** What is promoted on behalf of a candidate. */
  predicate AsksFor(p: PromoteRequest, chunkIds: seq<string>, c: CandidateRow, req: ApproveRequest) {
    p.chunkIds == chunkIds && Preferred(p.memoryType, req.memoryType, c.candidateType) &&
    Preferred(p.subject, req.subject, c.subject) && Preferred(p.namespace, req.namespace, c.namespace) &&
    Preferred(p.authorAgentId, req.authorAgentId, c.authorAgentId) &&
    Preferred(p.originPeerId, req.originPeerId, c.originPeerId) && Preferred(p.sourceUri, req.sourceUri, c.sourceUri) &&
    (req.authoredAtMS != 0 ==> p.authoredAtMS == req.authoredAtMS) &&
    (req.authoredAtMS == 0 ==> p.authoredAtMS == c.authoredAtMS)
  }

  /** The candidate under review, or why there is none. */
  predicate ReviewError(db: Database, id: string, e: Error) {
    if id == "" then e == CandidateIdRequired
    else if id !in db.candidates then e == CandidateNotFound
    else db.candidates[id].status != Pending && e == CandidateNotPending
  }

  predicate UnderReview(db: Database, id: string) {
    id != "" && id in db.candidates && db.candidates[id].status == Pending
  }

  /** Only this candidate's row has changed, and in it only the outcome of the review. */
  predicate Reviewed(before: Candidates, after: Candidates, id: string, status: CandidateStatus, memoryId: Id, note: string) {
    id in before && id in after && after == before[id := after[id]] &&
    after[id].status == status && after[id].approvedMemoryId == memoryId && after[id].reviewNote == note &&
    after[id] == before[id].(status := status, approvedMemoryId := memoryId, reviewNote := note)
  }

  /** An approval promotes the linked chunks, and its candidate becomes approved with the new memory. */
  lemma ApproveMeans(db: Database, rules: TextRules, req: ApproveRequest, env: Env)
    ensures var id := TrimSpace(req.candidateId);
            match ApproveOp(db, rules, req, env)
            case Ok(next) =>
              UnderReview(db, id) && id in db.links && db.links[id] != [] &&
              exists promoted, p, memoryId, row ::
                AsksFor(p, db.links[id], db.candidates[id], req) && PromoteOk(db, p) &&
                Promotes(db, promoted, rules, p, env, memoryId, row) &&
                Reviewed(db.candidates, next.candidates, id, Approved, memoryId, "") &&
                next == promoted.(candidates := next.candidates)
            case Err(e) =>
              if !UnderReview(db, id) then ReviewError(db, id, e)
              else if id !in db.links || db.links[id] == [] then e == CandidateNeedsChunks
              else exists p :: AsksFor(p, db.links[id], db.candidates[id], req) && PromoteError(db, p, env, e)
  {
    var id := TrimSpace(req.candidateId);
    if UnderReview(db, id) && LinkedChunks(db, id) != [] {
      var p := ApprovalRequest(db, db.candidates[id], id, req);
      assert AsksFor(p, db.links[id], db.candidates[id], req);
      PromoteTxMeans(db, rules, p, env);
      if PromoteTx(db, rules, p, env).Ok? {
        var promoted, memoryId := PromoteTx(db, rules, p, env).value.0, PromoteTx(db, rules, p, env).value.1;
        var row :| Promotes(db, promoted, rules, p, env, memoryId, row);
        ApprovedRight(db, rules, req, env);
        assert Reviewed(db.candidates, ApproveOp(db, rules, req, env).value.candidates, id, Approved, memoryId, "");
      }
    }
  }

  lemma ApprovedRight(db: Database, rules: TextRules, req: ApproveRequest, env: Env)
    requires ApproveOp(db, rules, req, env).Ok?
    ensures var id, next := TrimSpace(req.candidateId), ApproveOp(db, rules, req, env).value;
            UnderReview(db, id) &&
            var p := PromoteTx(db, rules, ApprovalRequest(db, db.candidates[id], id, req), env);
            p.Ok? && next == p.value.0.(candidates := next.candidates) && p.value.0.candidates == db.candidates &&
            Reviewed(db.candidates, next.candidates, id, Approved, p.value.1, "")
  {
    var id := TrimSpace(req.candidateId);
    PromoteTxMeans(db, rules, ApprovalRequest(db, db.candidates[id], id, req), env);
  }

  /** A rejection leaves a pending candidate rejected with the trimmed note, and touches nothing else. */
  lemma RejectMeans(db: Database, candidateId: string, note: string)
    ensures var id := TrimSpace(candidateId);
            match RejectOp(db, candidateId, note)
            case Ok(next) =>
              UnderReview(db, id) && next == db.(candidates := next.candidates) &&
              Reviewed(db.candidates, next.candidates, id, Rejected, db.candidates[id].approvedMemoryId, TrimSpace(note))
            case Err(e) => !UnderReview(db, id) && ReviewError(db, id, e)
  {}

  /** The same as a step of a run. */
  lemma RejectStep(db: Database, rules: TextRules, candidateId: string, note: string, env: Env)
    ensures var id, next := TrimSpace(candidateId), After(db, rules, Reject(candidateId, note), env);
            if UnderReview(db, id)
            then Reviewed(db.candidates, next.candidates, id, Rejected, db.candidates[id].approvedMemoryId, TrimSpace(note))
            else next == db
  {}

  /** The row of an upserted candidate: pending, with the outcome of no review, and the source uri that wins. */
  predicate CandidateFresh(after: CandidateRow, row: CandidateRow, sourceUri: string, approvedMemoryId: Id, note: string) {
    after == row.(status := Pending, sourceUri := sourceUri, approvedMemoryId := approvedMemoryId, reviewNote := note)
  }

  /** A new candidate is stored as pending; a pending one is refreshed, a reviewed one stays as it is. */
  lemma UpsertMeans(table: Candidates, id: string, row: CandidateRow, replaceSourceUri: bool)
    ensures var after := UpsertCandidate(table, id, row, replaceSourceUri);
            id in after && after == table[id := after[id]] &&
            (id !in table ==> CandidateFresh(after[id], row, row.sourceUri, "", "")) &&
            (id in table && table[id].status == Pending ==>
              CandidateFresh(after[id], row, if replaceSourceUri then row.sourceUri else table[id].sourceUri,
                             table[id].approvedMemoryId, table[id].reviewNote)) &&
            (id in table && table[id].status != Pending ==> after == table)
  {}

  /** Ingest of a chunk is insert-only; its candidate is new or refreshed, and linked to that chunk. */
  lemma IngestMeans(db: Database, rules: TextRules, chunkId: string, chunk: ChunkRow, candidate: Option<CandidateRow>)
    ensures IngestChunkOp(db, rules, chunkId, chunk, candidate).Ok?
    ensures var next := IngestChunkOp(db, rules, chunkId, chunk, candidate).value;
            var id := "cand_" + rules.digest(chunkId);
            if chunkId in db.chunks then next == db
            else
              next == db.(chunks := db.chunks[chunkId := chunk], candidates := next.candidates, links := next.links) &&
              match candidate
              case None => next.candidates == db.candidates && next.links == db.links
              case Some(row) =>
                id in next.candidates && next.candidates == db.candidates[id := next.candidates[id]] &&
                next.links == db.links[id := [chunkId]] &&
                (id !in db.candidates ==> CandidateFresh(next.candidates[id], row, row.sourceUri, "", "")) &&
                (id in db.candidates && db.candidates[id].status == Pending ==>
                  CandidateFresh(next.candidates[id], row, db.candidates[id].sourceUri, db.candidates[id].approvedMemoryId,
                                 db.candidates[id].reviewNote))
  {
    if candidate.Some? {
      UpsertMeans(db.candidates, CandidateId(rules.digest, chunkId), candidate.value, false);
    }
  }

  /** The service's own candidate upsert checks its fields and the chunk list, then writes the row and the links. */
  lemma UpsertCandidateMeans(db: Database, id: string, chunkIds: seq<string>, row: CandidateRow)
    ensures match UpsertCandidateOp(db, id, chunkIds, row)
            case Ok(next) =>
              "" !in {id, row.namespace, row.candidateType} && chunkIds != [] && NoDuplicates(chunkIds) &&
              next == db.(candidates := next.candidates, links := db.links[id := chunkIds]) &&
              next.candidates == UpsertCandidate(db.candidates, id, row, true)
            case Err(e) =>
              if id == "" then e == CandidateIdRequired
              else if row.namespace == "" then e == NamespaceRequired
              else if row.candidateType == "" then e == CandidateTypeRequired
              else if chunkIds == [] then e == ChunkIdsRequired
              else !NoDuplicates(chunkIds) && e == DuplicateLink
  {}
}
