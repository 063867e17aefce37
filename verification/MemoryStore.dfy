/**
  The local writers of the memory graphs: store, supersede, promote, publish, and the review of
  candidates. Each is one transaction; a failed one leaves the database as it was.
 */
module MemoryStore {
  import opened Prelude
  import opened Records

  type Id = string

  datatype Visibility = Shared | Private

  datatype Lifecycle = Active | Superseded

  /** A row of memory_nodes or private_memory_nodes, keyed by memory id. */
  datatype NodeRow = NodeRow(memoryType: string, namespace: string, subject: string, body: string,
                             sourceUri: string, sourceHash: string, authorAgentId: string, originPeerId: string,
                             authoredAtMS: int, lifecycle: Lifecycle)

  /** An edge row; its generated id only keeps equal rows apart, so a table of edges is a multiset. */
  datatype EdgeRow = EdgeRow(from: Id, to: Id, relation: string, weight: real, authoredAtMS: int)

  datatype Space = Space(nodes: map<Id, NodeRow>, edges: multiset<EdgeRow>)

  datatype Database = Database(shared: Space, priv: Space, units: map<string, UnitRow>, unitQueue: seq<string>,
                               chunks: map<string, ChunkRow>, promotions: set<(string, Id)>,
                               publications: set<(Id, Id)>, candidates: Candidates, links: map<string, seq<string>>)
  {
    function In(v: Visibility): Space {
      if v == Shared then shared else priv
    }

    function With(v: Visibility, s: Space): Database {
      if v == Shared then this.(shared := s) else this.(priv := s)
    }
  }

  datatype RelationInput = RelationInput(relation: string, to: Id, weight: real)

  datatype StoreRequest = StoreRequest(visibility: Visibility, memoryId: Id, memoryType: string, namespace: string,
                                       subject: string, body: string, sourceUri: string, sourceHash: string,
                                       authorAgentId: string, originPeerId: string, authoredAtMS: int,
                                       relations: seq<RelationInput>)

  datatype PromoteRequest = PromoteRequest(chunkIds: seq<string>, memoryType: string, subject: string, namespace: string,
                                           authorAgentId: string, originPeerId: string, authoredAtMS: int,
                                           sourceUri: string)

  datatype ApproveRequest = ApproveRequest(candidateId: string, memoryType: string, subject: string, namespace: string,
                                           authorAgentId: string, originPeerId: string, authoredAtMS: int,
                                           sourceUri: string)

  datatype Error = BodyRequired | NamespaceRequired | RelationInvalid | MemoryIdTaken | SelfRelation
                 | RelationTargetNotFound(to: Id) | MemoryNotFound | PrivateMemoryIdRequired | ChunkIdsRequired
                 | CandidateIdRequired | CandidateTypeRequired | CandidateNotFound | CandidateNotPending
                 | CandidateNeedsChunks | DuplicateLink

  type Outcome = Result<Database, Error>

  /** What the environment supplies to a call: a generated memory id and the clock. */
  datatype Env = Env(newId: Id, now: int)

  /** The text heuristics, kept abstract: contradiction wording, redaction for publishing, and the digest. */
  datatype TextRules = TextRules(contradicts: seq<string> -> bool, redactText: string -> string,
                                 redactUri: string -> string, digest: string -> string)

  // ---------------------------------------------------------------- normalisation

  predicate AllowedRelation(relation: string) {
    relation in {"supports", "contradicts", "derived_from", "about", "caused_by", "references"}
  }

  function NormalizeRelation(rel: RelationInput): Option<RelationInput> {
    var r := RelationInput(TrimSpace(rel.relation), TrimSpace(rel.to), if rel.weight == 0.0 then 1.0 else rel.weight);
    if AllowedRelation(r.relation) && r.to != "" && r.weight >= 0.0 then Some(r) else None
  }

  function NormalizeRelations(rels: seq<RelationInput>): Option<seq<RelationInput>> {
    if |rels| == 0 then Some([])
    else
      match (NormalizeRelations(rels[..|rels| - 1]), NormalizeRelation(rels[|rels| - 1]))
      case (Some(before), Some(r)) => Some(before + [r])
      case _ => None
  }

  function OrElse(value: string, default: string): string {
    if value == "" then default else value
  }

  function Normalize(req: StoreRequest, env: Env): Result<StoreRequest, Error> {
    if TrimSpace(req.body) == "" then Err(BodyRequired)
    else if TrimSpace(req.namespace) == "" then Err(NamespaceRequired)
    else
      match NormalizeRelations(req.relations)
      case None => Err(RelationInvalid)
      case Some(rels) =>
        Ok(req.(memoryId := OrElse(req.memoryId, env.newId),
                authoredAtMS := if req.authoredAtMS == 0 then env.now else req.authoredAtMS,
                memoryType := OrElse(req.memoryType, "fact"),
                authorAgentId := OrElse(req.authorAgentId, "agent/default"),
                originPeerId := OrElse(req.originPeerId, "peer/local"),
                relations := rels))
  }

  // ---------------------------------------------------------------- transactions as functions

  function RelationEdge(from: Id, authoredAtMS: int, rel: RelationInput): EdgeRow {
    EdgeRow(from, rel.to, rel.relation, rel.weight, authoredAtMS)
  }

  /** The edges of a stored memory, or the first relation that is refused. */
  function RelationEdges(nodes: map<Id, NodeRow>, from: Id, authoredAtMS: int, rels: seq<RelationInput>)
    : Result<multiset<EdgeRow>, Error>
  {
    if |rels| == 0 then Ok(multiset{})
    else
      match RelationEdges(nodes, from, authoredAtMS, rels[..|rels| - 1])
      case Err(e) => Err(e)
      case Ok(before) =>
        var rel := rels[|rels| - 1];
        if rel.to == from then Err(SelfRelation)
        else if rel.to !in nodes then Err(RelationTargetNotFound(rel.to))
        else Ok(before + multiset{RelationEdge(from, authoredAtMS, rel)})
  }

  function NodeOf(req: StoreRequest): NodeRow {
    NodeRow(req.memoryType, req.namespace, req.subject, req.body, req.sourceUri, req.sourceHash,
            req.authorAgentId, req.originPeerId, req.authoredAtMS, Active)
  }

  function UnitOf(req: StoreRequest): UnitRow {
    UnitRow(if req.visibility == Private then "private_memory" else "shared_memory", req.memoryId,
            if req.visibility == Private then "private" else "shared", req.namespace, req.memoryType, req.subject,
            req.body, req.authoredAtMS, "private", "default", "active", req.sourceUri, "", "")
  }

  /** `storeTx` on a normalised request. */
  function StoreTx(db: Database, req: StoreRequest): (r: Outcome)
    ensures r.Ok? ==> r.value.chunks == db.chunks
    ensures r.Ok? ==> forall id :: id in db.shared.nodes ==> id in r.value.shared.nodes
  {
    var space := db.In(req.visibility);
    if req.memoryId in space.nodes then Err(MemoryIdTaken)
    else
      var nodes := space.nodes[req.memoryId := NodeOf(req)];
      match RelationEdges(nodes, req.memoryId, req.authoredAtMS, req.relations)
      case Err(e) => Err(e)
      case Ok(added) =>
        Ok(db.With(req.visibility, Space(nodes, space.edges + added)).(
             units := db.units[req.memoryId := UnitOf(req)], unitQueue := db.unitQueue + [req.memoryId]))
  }

  function StoreOp(db: Database, req: StoreRequest, env: Env): Outcome {
    match Normalize(req, env)
    case Err(e) => Err(e)
    case Ok(r) => StoreTx(db, r)
  }

  function SupersedeOp(db: Database, oldId: Id, req: StoreRequest, env: Env): Outcome {
    match Normalize(req.(visibility := Shared), env)
    case Err(e) => Err(e)
    case Ok(r) =>
      if oldId !in db.shared.nodes then Err(MemoryNotFound)
      else
        match StoreTx(db, r)
        case Err(e) => Err(e)
        case Ok(stored) =>
          var nodes := stored.shared.nodes;
          Ok(stored.(shared := Space(nodes[oldId := nodes[oldId].(lifecycle := Superseded)],
                                     stored.shared.edges +
                                     multiset{EdgeRow(r.memoryId, oldId, "supersedes", 1.0, r.authoredAtMS)})))
  }

  function ChunkTexts(chunks: map<string, ChunkRow>, ids: seq<string>): seq<string>
    requires forall id <- ids :: id in chunks
  {
    seq(|ids|, i requires 0 <= i < |ids| => chunks[ids[i]].text)
  }

  predicate RationaleKind(kind: string) {
    kind in {"rationale", "debug_trace", "task_candidate"}
  }

  function InferredRelation(rules: TextRules, chunks: map<string, ChunkRow>, ids: seq<string>): Option<string>
    requires forall id <- ids :: id in chunks
  {
    if rules.contradicts(ChunkTexts(chunks, ids)) then Some("contradicts")
    else if exists id :: id in ids && RationaleKind(chunks[id].chunkKind) then Some("supports")
    else None
  }

  /** The decisions already promoted from one of the sessions of the given chunks. */
  function SessionDecisions(db: Database, memoryId: Id, ids: seq<string>): set<Id> {
    set p | p in db.promotions && p.0 in db.chunks && p.1 in db.priv.nodes && p.1 != memoryId &&
            db.priv.nodes[p.1].memoryType == "decision" &&
            (exists id :: id in ids && id in db.chunks && db.chunks[id].sessionId == db.chunks[p.0].sessionId) :: p.1
  }

  predicate Related(edges: multiset<EdgeRow>, from: Id, to: Id, relation: string) {
    exists e :: e in edges && e.from == from && e.to == to && e.relation == relation
  }

  function InferredEdges(db: Database, rules: TextRules, memoryId: Id, authoredAtMS: int, ids: seq<string>): set<EdgeRow>
    requires forall id <- ids :: id in db.chunks
  {
    match InferredRelation(rules, db.chunks, ids)
    case None => {}
    case Some(relation) =>
      set t | t in SessionDecisions(db, memoryId, ids) && !Related(db.priv.edges, memoryId, t, relation) ::
        EdgeRow(memoryId, t, relation, 1.0, authoredAtMS)
  }

  function PromotedRequest(db: Database, req: PromoteRequest): StoreRequest
    requires forall id <- req.chunkIds :: id in db.chunks
  {
    StoreRequest(Private, "", OrElse(req.memoryType, "note"), req.namespace,
                 OrElse(req.subject, "promoted transcript memory"), Join(ChunkTexts(db.chunks, req.chunkIds), "\n\n"),
                 req.sourceUri, "", req.authorAgentId, req.originPeerId, req.authoredAtMS, [])
  }

  /** `promoteTx`; on success also the id of the new memory. */
  function PromoteTx(db: Database, rules: TextRules, req: PromoteRequest, env: Env): Result<(Database, Id), Error> {
    if |req.chunkIds| == 0 then Err(ChunkIdsRequired)
    else if TrimSpace(req.namespace) == "" then Err(NamespaceRequired)
    else if exists id :: id in req.chunkIds && id !in db.chunks then Err(MemoryNotFound)
    else
      match Normalize(PromotedRequest(db, req), env)
      case Err(e) => Err(e)
      case Ok(r) =>
        match StoreTx(db, r)
        case Err(e) => Err(e)
        case Ok(stored) =>
          var inferred := InferredEdges(stored, rules, r.memoryId, r.authoredAtMS, req.chunkIds);
          Ok((stored.(priv := stored.priv.(edges := stored.priv.edges + multiset(inferred)),
                      promotions := stored.promotions + (set id | id in req.chunkIds :: (id, r.memoryId))), r.memoryId))
  }

  function PromoteOp(db: Database, rules: TextRules, req: PromoteRequest, env: Env): Outcome {
    match PromoteTx(db, rules, req, env)
    case Err(e) => Err(e)
    case Ok(p) => Ok(p.0)
  }

  function PublishedRequest(row: NodeRow, rules: TextRules): StoreRequest {
    StoreRequest(Shared, "", row.memoryType, row.namespace, rules.redactText(row.subject), rules.redactText(row.body),
                 rules.redactUri(row.sourceUri), row.sourceHash, row.authorAgentId, row.originPeerId,
                 row.authoredAtMS, [])
  }

  function PublishOp(db: Database, rules: TextRules, privateId: Id, env: Env): Outcome {
    var id := TrimSpace(privateId);
    if id == "" then Err(PrivateMemoryIdRequired)
    else if id !in db.priv.nodes then Err(MemoryNotFound)
    else
      match Normalize(PublishedRequest(db.priv.nodes[id], rules), env)
      case Err(e) => Err(e)
      case Ok(r) =>
        match StoreTx(db, r)
        case Err(e) => Err(e)
        case Ok(stored) => Ok(stored.(publications := stored.publications + {(id, r.memoryId)}))
  }

  // ---------------------------------------------------------------- candidates

  function LoadCandidate(db: Database, id: string): Result<CandidateRow, Error> {
    if id !in db.candidates then Err(CandidateNotFound)
    else if db.candidates[id].status != Pending then Err(CandidateNotPending)
    else Ok(db.candidates[id])
  }

  function FirstNonEmpty(value: string, default: string): string {
    if TrimSpace(value) != "" then TrimSpace(value) else if TrimSpace(default) != "" then default else ""
  }

  function LinkedChunks(db: Database, id: string): seq<string> {
    if id in db.links then db.links[id] else []
  }

  function ApprovalRequest(db: Database, c: CandidateRow, id: string, req: ApproveRequest): PromoteRequest {
    PromoteRequest(LinkedChunks(db, id), FirstNonEmpty(req.memoryType, c.candidateType),
                   FirstNonEmpty(req.subject, c.subject), FirstNonEmpty(req.namespace, c.namespace),
                   FirstNonEmpty(req.authorAgentId, c.authorAgentId), FirstNonEmpty(req.originPeerId, c.originPeerId),
                   if req.authoredAtMS == 0 then c.authoredAtMS else req.authoredAtMS,
                   FirstNonEmpty(req.sourceUri, c.sourceUri))
  }

  function ApproveOp(db: Database, rules: TextRules, req: ApproveRequest, env: Env): Outcome {
    var id := TrimSpace(req.candidateId);
    if id == "" then Err(CandidateIdRequired)
    else
      match LoadCandidate(db, id)
      case Err(e) => Err(e)
      case Ok(c) =>
        if LinkedChunks(db, id) == [] then Err(CandidateNeedsChunks)
        else
          match PromoteTx(db, rules, ApprovalRequest(db, c, id, req), env)
          case Err(e) => Err(e)
          case Ok((stored, memoryId)) =>
            Ok(stored.(candidates := stored.candidates[id := c.(status := Approved, approvedMemoryId := memoryId,
                                                                reviewNote := "")]))
  }

  function RejectOp(db: Database, candidateId: string, note: string): Outcome {
    var id := TrimSpace(candidateId);
    if id == "" then Err(CandidateIdRequired)
    else
      match LoadCandidate(db, id)
      case Err(e) => Err(e)
      case Ok(c) => Ok(db.(candidates := db.candidates[id := c.(status := Rejected, reviewNote := TrimSpace(note))]))
  }

  /** `upsertMemoryCandidateTx`: the row is guarded by its status, the links are not. */
  function UpsertCandidateOp(db: Database, id: string, chunkIds: seq<string>, row: CandidateRow): Outcome {
    if id == "" then Err(CandidateIdRequired)
    else if row.namespace == "" then Err(NamespaceRequired)
    else if row.candidateType == "" then Err(CandidateTypeRequired)
    else if |chunkIds| == 0 then Err(ChunkIdsRequired)
    else if exists i, j :: 0 <= i < j < |chunkIds| && chunkIds[i] == chunkIds[j] then Err(DuplicateLink)
    else Ok(db.(candidates := UpsertCandidate(db.candidates, id, row, true), links := db.links[id := chunkIds]))
  }

  /** Ingest of one chunk, as far as this module is concerned: insert-only, with its candidate if it has one. */
  function IngestChunkOp(db: Database, rules: TextRules, chunkId: string, chunk: ChunkRow,
                         candidate: Option<CandidateRow>): Outcome {
    if chunkId in db.chunks then Ok(db)
    else
      var stored := db.(chunks := db.chunks[chunkId := chunk]);
      match candidate
      case None => Ok(stored)
      case Some(row) =>
        var id := CandidateId(rules.digest, chunkId);
        Ok(stored.(candidates := UpsertCandidate(db.candidates, id, row, false), links := db.links[id := [chunkId]]))
  }

  // ---------------------------------------------------------------- runs

  datatype Op =
    | Store(req: StoreRequest)
    | Supersede(oldId: Id, req: StoreRequest)
    | Promote(promote: PromoteRequest)
    | Publish(privateId: Id)
    | Approve(approve: ApproveRequest)
    | Reject(candidateId: string, note: string)
    | UpsertCandidateRow(id: string, chunkIds: seq<string>, row: CandidateRow)
    | IngestChunk(chunkId: string, chunk: ChunkRow, candidate: Option<CandidateRow>)

  function Perform(db: Database, rules: TextRules, op: Op, env: Env): Outcome {
    match op
    case Store(req) => StoreOp(db, req, env)
    case Supersede(oldId, req) => SupersedeOp(db, oldId, req, env)
    case Promote(req) => PromoteOp(db, rules, req, env)
    case Publish(id) => PublishOp(db, rules, id, env)
    case Approve(req) => ApproveOp(db, rules, req, env)
    case Reject(id, note) => RejectOp(db, id, note)
    case UpsertCandidateRow(id, chunkIds, row) => UpsertCandidateOp(db, id, chunkIds, row)
    case IngestChunk(chunkId, chunk, candidate) => IngestChunkOp(db, rules, chunkId, chunk, candidate)
  }

  /** A failed operation rolls back. */
  function After(db: Database, rules: TextRules, op: Op, env: Env): Database {
    match Perform(db, rules, op, env)
    case Ok(next) => next
    case Err(_) => db
  }

  datatype Call = Call(op: Op, env: Env)

  function RunOps(db: Database, rules: TextRules, calls: seq<Call>): Database {
    if |calls| == 0 then db
    else After(RunOps(db, rules, calls[..|calls| - 1]), rules, calls[|calls| - 1].op, calls[|calls| - 1].env)
  }

  const EMPTY := Database(Space(map[], multiset{}), Space(map[], multiset{}), map[], [], map[], {}, {}, map[], map[])
}
