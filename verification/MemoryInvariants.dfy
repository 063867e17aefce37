/** What every local operation keeps, and what therefore holds in every reachable database. */
module MemoryInvariants {
  import opened Prelude
  import opened Records
  import opened MemoryStore

  // ---------------------------------------------------------------- acyclicity

  /** A walk along edge rows of the table. */
  ghost predicate Walk(edges: multiset<EdgeRow>, source: Id, target: Id, p: seq<EdgeRow>)
    decreases |p|
  {
    if |p| == 0 then source == target
    else
      var last := p[|p| - 1];
      last in edges && last.to == target && Walk(edges, source, last.from, p[..|p| - 1])
  }

  ghost predicate Acyclic(edges: multiset<EdgeRow>) {
    forall v, p :: |p| > 0 ==> !Walk(edges, v, v, p)
  }

  /** Edges that only leave a node nobody points to close no cycle. */
  lemma AcyclicExtend(edges: multiset<EdgeRow>, newcomer: Id, added: multiset<EdgeRow>)
    requires Acyclic(edges) && forall e :: e in edges ==> e.to != newcomer
    requires forall e :: e in added ==> e.from == newcomer && e.to != newcomer
    ensures Acyclic(edges + added)
  {
    forall v, p | |p| > 0
      ensures !Walk(edges + added, v, v, p)
    {
      if Walk(edges + added, v, v, p) {
        OldWalk(edges, newcomer, added, v, v, p);
      }
    }
  }

  lemma {:induction false} OldWalk(edges: multiset<EdgeRow>, newcomer: Id, added: multiset<EdgeRow>,
                                   u: Id, v: Id, p: seq<EdgeRow>)
    requires forall e :: e in edges ==> e.to != newcomer
    requires forall e :: e in added ==> e.from == newcomer && e.to != newcomer
    requires Walk(edges + added, u, v, p) && u != newcomer
    ensures Walk(edges, u, v, p) && v != newcomer
    decreases |p|
  {
    if |p| > 0 {
      OldWalk(edges, newcomer, added, u, p[|p| - 1].from, p[..|p| - 1]);
    }
  }

  ghost predicate EndpointsExist(s: Space) {
    forall e :: e in s.edges ==> e.from in s.nodes && e.to in s.nodes
  }

  ghost predicate GraphOk(s: Space) {
    EndpointsExist(s) && Acyclic(s.edges)
  }

  /** A new node with edges to older nodes keeps a graph in order. */
  lemma GraphOkExtend(s: Space, id: Id, row: NodeRow, added: multiset<EdgeRow>)
    requires GraphOk(s) && id !in s.nodes
    requires forall e :: e in added ==> e.from == id && e.to in s.nodes
    ensures GraphOk(Space(s.nodes[id := row], s.edges + added))
  {
    AcyclicExtend(s.edges, id, added);
  }

  lemma {:induction false} RelationEdgesShape(nodes: map<Id, NodeRow>, from: Id, at: int, rels: seq<RelationInput>)
    requires RelationEdges(nodes, from, at, rels).Ok?
    ensures forall e :: e in RelationEdges(nodes, from, at, rels).value ==>
                          e.from == from && e.to != from && e.to in nodes &&
                          exists r :: r in rels && r.relation == e.relation
  {
    if |rels| > 0 {
      RelationEdgesShape(nodes, from, at, rels[..|rels| - 1]);
      assert rels == rels[..|rels| - 1] + [rels[|rels| - 1]];
      forall e | e in RelationEdges(nodes, from, at, rels).value
        ensures exists r :: r in rels && r.relation == e.relation
      {
        if e !in RelationEdges(nodes, from, at, rels[..|rels| - 1]).value {
          assert rels[|rels| - 1].relation == e.relation;
        } else {
          var r :| r in rels[..|rels| - 1] && r.relation == e.relation;
          assert r in rels;
        }
      }
    }
  }

  lemma {:induction false} NormalizedRelationsAllowed(rels: seq<RelationInput>)
    requires NormalizeRelations(rels).Some?
    ensures forall r :: r in NormalizeRelations(rels).value ==> AllowedRelation(r.relation)
  {
    if |rels| > 0 {
      NormalizedRelationsAllowed(rels[..|rels| - 1]);
    }
  }

  // ---------------------------------------------------------------- history

  /** Nothing is lost: what may differ later is only what an operation may change. */
  ghost predicate Extends(a: Database, b: Database) {
    NodesKept(a, b) && EdgesKept(a, b) && PromotionsKept(a, b) && CandidatesKept(a, b)
  }

  /** Nodes stay, with their rows; only a shared node's lifecycle changes, and only to superseded. */
  ghost predicate NodesKept(a: Database, b: Database) {
    (forall id :: id in a.priv.nodes ==> id in b.priv.nodes && b.priv.nodes[id] == a.priv.nodes[id]) &&
    (forall id :: id in a.shared.nodes ==>
      id in b.shared.nodes &&
      (b.shared.nodes[id] == a.shared.nodes[id] ||
       b.shared.nodes[id] == a.shared.nodes[id].(lifecycle := Superseded)))
  }

  ghost predicate EdgesKept(a: Database, b: Database) {
    a.shared.edges <= b.shared.edges && a.priv.edges <= b.priv.edges && a.publications <= b.publications
  }

  /** Chunks stay as they are, and the promotions of an existing memory are final. */
  ghost predicate PromotionsKept(a: Database, b: Database) {
    (forall c :: c in a.chunks ==> c in b.chunks && b.chunks[c] == a.chunks[c]) &&
    a.promotions <= b.promotions &&
    (forall p :: p in b.promotions && p.1 in a.priv.nodes ==> p in a.promotions)
  }

  /** A candidate leaves pending at most once and is then frozen. */
  ghost predicate CandidatesKept(a: Database, b: Database) {
    forall id :: id in a.candidates ==>
      id in b.candidates && (a.candidates[id].status != Pending ==> b.candidates[id] == a.candidates[id])
  }

  lemma ExtendsTransitive(a: Database, b: Database, c: Database)
    requires Extends(a, b) && Extends(b, c)
    ensures Extends(a, c)
  {}

  lemma StoreTxEffect(db: Database, req: StoreRequest)
    requires StoreTx(db, req).Ok?
    ensures var next := StoreTx(db, req).value;
            Extends(db, next) && next.promotions == db.promotions && next.candidates == db.candidates &&
            next.links == db.links && next.chunks == db.chunks && next.publications == db.publications &&
            req.memoryId !in db.In(req.visibility).nodes &&
            next.In(req.visibility).nodes == db.In(req.visibility).nodes[req.memoryId := NodeOf(req)]
    ensures req.visibility == Private ==> StoreTx(db, req).value.shared == db.shared
    ensures req.visibility == Shared ==> StoreTx(db, req).value.priv == db.priv
  {}

  lemma NormalizeKeeps(req: StoreRequest, env: Env)
    requires Normalize(req, env).Ok?
    ensures var r := Normalize(req, env).value;
            r.visibility == req.visibility && r.body == req.body &&
            (forall rel :: rel in r.relations ==> AllowedRelation(rel.relation)) &&
            (req.relations == [] ==> r.relations == [])
  {
    NormalizedRelationsAllowed(req.relations);
  }

  lemma PromoteTxEffect(db: Database, rules: TextRules, req: PromoteRequest, env: Env)
    requires PromoteTx(db, rules, req, env).Ok?
    requires PromotionsExist(db)
    ensures var (next, id) := PromoteTx(db, rules, req, env).value;
            Extends(db, next) && next.candidates == db.candidates && next.links == db.links &&
            next.chunks == db.chunks && next.shared == db.shared && id !in db.priv.nodes && id in next.priv.nodes &&
            (forall c :: c in req.chunkIds ==> c in db.chunks) &&
            next.priv.nodes[id].body == Join(ChunkTexts(db.chunks, req.chunkIds), "\n\n") &&
            next.priv.nodes[id].lifecycle == Active &&
            next.priv.nodes.Keys == db.priv.nodes.Keys + {id} &&
            (forall p :: p in next.promotions <==> p in db.promotions || (p.1 == id && p.0 in req.chunkIds))
  {
    var r := Normalize(PromotedRequest(db, req), env).value;
    NormalizeKeeps(PromotedRequest(db, req), env);
    StoreTxEffect(db, r);
    assert forall id: string, m: Id :: id in req.chunkIds && m == r.memoryId ==>
        (id, m) in (set id | id in req.chunkIds :: (id, r.memoryId));
  }

  lemma SupersedeExtends(db: Database, oldId: Id, req: StoreRequest, env: Env)
    requires SupersedeOp(db, oldId, req, env).Ok?
    ensures var next := SupersedeOp(db, oldId, req, env).value;
            Extends(db, next) && next.priv == db.priv && next.promotions == db.promotions &&
            next.candidates == db.candidates && next.chunks == db.chunks
  {
    var r := Normalize(req.(visibility := Shared), env).value;
    NormalizeKeeps(req.(visibility := Shared), env);
    StoreTxEffect(db, r);
    var stored := StoreTx(db, r).value;
    var next := SupersedeOp(db, oldId, req, env).value;
    assert stored.shared.edges <= next.shared.edges;
  }

  lemma PublishExtends(db: Database, rules: TextRules, privateId: Id, env: Env)
    requires PublishOp(db, rules, privateId, env).Ok?
    ensures var next := PublishOp(db, rules, privateId, env).value;
            Extends(db, next) && next.priv == db.priv && next.promotions == db.promotions &&
            next.candidates == db.candidates && next.chunks == db.chunks
  {
    var r := PublishedRequest(db.priv.nodes[TrimSpace(privateId)], rules);
    NormalizeKeeps(r, env);
    StoreTxEffect(db, Normalize(r, env).value);
  }

  /** A publication adds one active shared memory with the redacted body, and leaves the private one alone. */
  lemma PublishedCopy(db: Database, rules: TextRules, privateId: Id, env: Env) returns (id: Id)
    requires PublishOp(db, rules, privateId, env).Ok?
    ensures var next, original := PublishOp(db, rules, privateId, env).value, TrimSpace(privateId);
            original in db.priv.nodes && next.priv == db.priv &&
            id !in db.shared.nodes && next.shared.nodes.Keys == db.shared.nodes.Keys + {id} &&
            next.shared.nodes[id].body == rules.redactText(db.priv.nodes[original].body) &&
            next.shared.nodes[id].lifecycle == Active && (original, id) in next.publications
  {
    var r := PublishedRequest(db.priv.nodes[TrimSpace(privateId)], rules);
    NormalizeKeeps(r, env);
    var n := Normalize(r, env).value;
    StoreTxEffect(db, n);
    id := n.memoryId;
  }

  lemma ApproveEffect(db: Database, rules: TextRules, req: ApproveRequest, env: Env) returns (promoted: Database, id: Id)
    requires ApproveOp(db, rules, req, env).Ok?
    ensures var c := TrimSpace(req.candidateId);
            c in db.candidates && db.candidates[c].status == Pending &&
            PromoteTx(db, rules, ApprovalRequest(db, db.candidates[c], c, req), env) == Ok((promoted, id)) &&
            ApproveOp(db, rules, req, env).value ==
            promoted.(candidates := promoted.candidates[c := db.candidates[c].(status := Approved, approvedMemoryId := id,
                                                                               reviewNote := "")])
  {
    var c := TrimSpace(req.candidateId);
    var r := PromoteTx(db, rules, ApprovalRequest(db, db.candidates[c], c, req), env).value;
    promoted, id := r.0, r.1;
  }

  lemma ApproveExtends(db: Database, rules: TextRules, req: ApproveRequest, env: Env)
    requires ApproveOp(db, rules, req, env).Ok?
    requires PromotionsExist(db)
    ensures Extends(db, ApproveOp(db, rules, req, env).value)
  {
    var promoted, id := ApproveEffect(db, rules, req, env);
    var c := TrimSpace(req.candidateId);
    PromoteTxEffect(db, rules, ApprovalRequest(db, db.candidates[c], c, req), env);
  }

  /** Every operation extends the database. */
  lemma PerformExtends(db: Database, rules: TextRules, op: Op, env: Env)
    requires PromotionsExist(db)
    ensures Extends(db, After(db, rules, op, env))
  {
    if Perform(db, rules, op, env).Ok? {
      match op
      case Store(req) => StoreTxEffect(db, Normalize(req, env).value);
      case Supersede(oldId, req) => SupersedeExtends(db, oldId, req, env);
      case Promote(req) => PromoteTxEffect(db, rules, req, env);
      case Publish(privateId) => PublishExtends(db, rules, privateId, env);
      case Approve(req) => ApproveExtends(db, rules, req, env);
      case Reject(_, _) => ReviewStepsExtend(db, rules, op, env);
      case UpsertCandidateRow(_, _, _) => ReviewStepsExtend(db, rules, op, env);
      case IngestChunk(_, _, _) => ReviewStepsExtend(db, rules, op, env);
    }
  }

  lemma ReviewStepsExtend(db: Database, rules: TextRules, op: Op, env: Env)
    requires !WritesGraphs(op)
    ensures Extends(db, After(db, rules, op, env))
  {
    GraphsUntouched(db, rules, op, env);
    ReviewStepsKeep(db, rules, op, env);
  }

  /** Reviews and ingest leave chunks and publications, and reviewed candidates, as they were. */
  lemma ReviewStepsKeep(db: Database, rules: TextRules, op: Op, env: Env)
    requires !WritesGraphs(op)
    ensures var next := After(db, rules, op, env);
            CandidatesKept(db, next) && next.publications == db.publications &&
            (forall c :: c in db.chunks ==> c in next.chunks && next.chunks[c] == db.chunks[c])
  {
    if op.Reject? {
      RejectKeeps(db, op.candidateId, op.note);
    } else if op.UpsertCandidateRow? {
      UpsertRowKeeps(db, op.id, op.chunkIds, op.row);
    } else {
      IngestKeeps(db, rules, op.chunkId, op.chunk, op.candidate);
    }
  }

  lemma RejectKeeps(db: Database, candidateId: string, note: string)
    ensures RejectOp(db, candidateId, note).Ok? ==>
              var next := RejectOp(db, candidateId, note).value;
              CandidatesKept(db, next) && next.publications == db.publications && next.chunks == db.chunks
  {}

  lemma UpsertRowKeeps(db: Database, id: string, chunkIds: seq<string>, row: CandidateRow)
    ensures UpsertCandidateOp(db, id, chunkIds, row).Ok? ==>
              var next := UpsertCandidateOp(db, id, chunkIds, row).value;
              CandidatesKept(db, next) && next.publications == db.publications && next.chunks == db.chunks
  {}

  lemma IngestKeeps(db: Database, rules: TextRules, chunkId: string, chunk: ChunkRow, candidate: Option<CandidateRow>)
    ensures var next := IngestChunkOp(db, rules, chunkId, chunk, candidate).value;
            CandidatesKept(db, next) && next.publications == db.publications &&
            (forall c :: c in db.chunks ==> c in next.chunks && next.chunks[c] == db.chunks[c])
  {}

  // ---------------------------------------------------------------- the graph invariant

  ghost predicate PromotionsExist(db: Database) {
    forall p :: p in db.promotions ==> p.1 in db.priv.nodes
  }

  /** Superseded means targeted by a supersedes edge; the private space has neither. */
  ghost predicate SupersededIff(s: Space) {
    forall id :: id in s.nodes ==> (s.nodes[id].lifecycle == Superseded <==> Targeted(s.edges, id))
  }

  ghost predicate Targeted(edges: multiset<EdgeRow>, id: Id) {
    exists e :: e in edges && e.relation == "supersedes" && e.to == id
  }

  ghost predicate GraphsOk(db: Database) {
    GraphOk(db.shared) && GraphOk(db.priv) && SupersededIff(db.shared) && SupersededIff(db.priv) &&
    (forall e :: e in db.priv.edges ==> e.relation != "supersedes")
  }

  /** A node row may be rewritten and edges may be added as long as the lifecycle follows the edges. */
  lemma SupersededIffExtend(s: Space, t: Space, touched: set<Id>)
    requires SupersededIff(s) && s.edges <= t.edges
    requires forall id :: id in t.nodes && id !in touched ==> id in s.nodes && t.nodes[id].lifecycle == s.nodes[id].lifecycle
    requires forall e :: e in t.edges && e.relation == "supersedes" && e.to !in touched ==> e in s.edges
    requires forall id :: id in touched && id in t.nodes ==> (t.nodes[id].lifecycle == Superseded <==> Targeted(t.edges, id))
    ensures SupersededIff(t)
  {
    forall id | id in t.nodes && id !in touched
      ensures Targeted(t.edges, id) <==> Targeted(s.edges, id)
    {
      if Targeted(s.edges, id) {
        var e :| e in s.edges && e.relation == "supersedes" && e.to == id;
        assert e in t.edges;
      }
    }
  }

  lemma StoreTxSpace(db: Database, req: StoreRequest) returns (added: multiset<EdgeRow>)
    requires StoreTx(db, req).Ok? && forall rel :: rel in req.relations ==> AllowedRelation(rel.relation)
    ensures var s, id := db.In(req.visibility), req.memoryId;
            id !in s.nodes &&
            StoreTx(db, req).value.In(req.visibility) == Space(s.nodes[id := NodeOf(req)], s.edges + added) &&
            (forall e :: e in added ==> e.from == id && e.to in s.nodes && e.relation != "supersedes") &&
            (req.relations == [] ==> added == multiset{})
  {
    var s := db.In(req.visibility);
    var nodes := s.nodes[req.memoryId := NodeOf(req)];
    RelationEdgesShape(nodes, req.memoryId, req.authoredAtMS, req.relations);
    added := RelationEdges(nodes, req.memoryId, req.authoredAtMS, req.relations).value;
  }

  /** A graph in order whose superseded nodes are those a supersedes edge points at. */
  ghost predicate SpaceOk(s: Space) {
    GraphOk(s) && SupersededIff(s)
  }

  ghost predicate Untargeted(s: Space, id: Id) {
    forall e :: e in s.edges ==> e.to != id
  }

  /** A new active node with ordinary edges to older ones. */
  lemma NewNode(s: Space, id: Id, row: NodeRow, added: multiset<EdgeRow>)
    requires SpaceOk(s) && id !in s.nodes && row.lifecycle == Active
    requires forall e :: e in added ==> e.from == id && e.to in s.nodes && e.relation != "supersedes"
    ensures var t := Space(s.nodes[id := row], s.edges + added); SpaceOk(t) && Untargeted(t, id)
  {
    var t := Space(s.nodes[id := row], s.edges + added);
    GraphOkExtend(s, id, row, added);
    assert Untargeted(t, id);
    SupersededIffExtend(s, t, {id});
  }

  lemma StoreTxGraphs(db: Database, req: StoreRequest)
    requires GraphsOk(db) && StoreTx(db, req).Ok?
    requires forall rel :: rel in req.relations ==> AllowedRelation(rel.relation)
    ensures GraphsOk(StoreTx(db, req).value)
    ensures Untargeted(StoreTx(db, req).value.In(req.visibility), req.memoryId)
  {
    var added := StoreTxSpace(db, req);
    NewNode(db.In(req.visibility), req.memoryId, NodeOf(req), added);
    StoreTxEffect(db, req);
  }

  /** Superseding: the old node's lifecycle follows the new edge that points at it. */
  lemma SupersedeNode(s: Space, newId: Id, oldId: Id, e: EdgeRow)
    requires SpaceOk(s) && newId in s.nodes && oldId in s.nodes && newId != oldId && Untargeted(s, newId)
    requires e.from == newId && e.to == oldId && e.relation == "supersedes"
    ensures SpaceOk(Space(s.nodes[oldId := s.nodes[oldId].(lifecycle := Superseded)], s.edges + multiset{e}))
  {
    var t := Space(s.nodes[oldId := s.nodes[oldId].(lifecycle := Superseded)], s.edges + multiset{e});
    AcyclicExtend(s.edges, newId, multiset{e});
    assert e in t.edges && Targeted(t.edges, oldId);
    SupersededIffExtend(s, t, {oldId});
  }

  lemma SupersedeGraphs(db: Database, oldId: Id, req: StoreRequest, env: Env)
    requires GraphsOk(db) && SupersedeOp(db, oldId, req, env).Ok?
    ensures GraphsOk(SupersedeOp(db, oldId, req, env).value)
  {
    var r := Normalize(req.(visibility := Shared), env).value;
    NormalizeKeeps(req.(visibility := Shared), env);
    StoreTxGraphs(db, r);
    StoreTxEffect(db, r);
    SupersedeNode(StoreTx(db, r).value.shared, r.memoryId, oldId,
                  EdgeRow(r.memoryId, oldId, "supersedes", 1.0, r.authoredAtMS));
  }

  /** Ordinary edges from a node that nothing points at. */
  lemma MoreEdges(s: Space, id: Id, added: multiset<EdgeRow>)
    requires SpaceOk(s) && id in s.nodes && Untargeted(s, id)
    requires forall e :: e in added ==> e.from == id && e.to != id && e.to in s.nodes && e.relation != "supersedes"
    ensures SpaceOk(s.(edges := s.edges + added))
  {
    AcyclicExtend(s.edges, id, added);
    SupersededIffExtend(s, s.(edges := s.edges + added), {});
  }

  lemma PromoteGraphs(db: Database, rules: TextRules, req: PromoteRequest, env: Env)
    requires GraphsOk(db) && PromoteTx(db, rules, req, env).Ok?
    ensures GraphsOk(PromoteTx(db, rules, req, env).value.0)
  {
    var r := Normalize(PromotedRequest(db, req), env).value;
    NormalizeKeeps(PromotedRequest(db, req), env);
    StoreTxGraphs(db, r);
    StoreTxEffect(db, r);
    InferredGraphs(StoreTx(db, r).value, rules, r.memoryId, r.authoredAtMS, req.chunkIds);
  }

  lemma InferredGraphs(stored: Database, rules: TextRules, id: Id, at: int, chunkIds: seq<string>)
    requires GraphsOk(stored) && id in stored.priv.nodes && Untargeted(stored.priv, id)
    requires forall c <- chunkIds :: c in stored.chunks
    ensures var edges := stored.priv.edges + multiset(InferredEdges(stored, rules, id, at, chunkIds));
            SpaceOk(stored.priv.(edges := edges)) && forall e :: e in edges ==> e.relation != "supersedes"
  {
    var inferred := InferredEdges(stored, rules, id, at, chunkIds);
    InferredEdgesShape(stored, rules, id, at, chunkIds);
    assert forall e :: e in multiset(inferred) <==> e in inferred;
    MoreEdges(stored.priv, id, multiset(inferred));
  }

  lemma InferredEdgesShape(db: Database, rules: TextRules, memoryId: Id, at: int, ids: seq<string>)
    requires forall id <- ids :: id in db.chunks
    requires memoryId in db.priv.nodes
    ensures forall e :: e in InferredEdges(db, rules, memoryId, at, ids) ==>
                          e.from == memoryId && e.to != memoryId && e.to in db.priv.nodes && e.relation != "supersedes"
  {}

  lemma StoreGraphs(db: Database, req: StoreRequest, env: Env)
    requires GraphsOk(db) && StoreOp(db, req, env).Ok?
    ensures GraphsOk(StoreOp(db, req, env).value)
  {
    NormalizeKeeps(req, env);
    StoreTxGraphs(db, Normalize(req, env).value);
  }

  lemma PublishGraphs(db: Database, rules: TextRules, privateId: Id, env: Env)
    requires GraphsOk(db) && PublishOp(db, rules, privateId, env).Ok?
    ensures GraphsOk(PublishOp(db, rules, privateId, env).value)
  {
    var r := PublishedRequest(db.priv.nodes[TrimSpace(privateId)], rules);
    NormalizeKeeps(r, env);
    StoreTxGraphs(db, Normalize(r, env).value);
  }

  lemma ApproveGraphs(db: Database, rules: TextRules, req: ApproveRequest, env: Env)
    requires GraphsOk(db) && ApproveOp(db, rules, req, env).Ok?
    ensures GraphsOk(ApproveOp(db, rules, req, env).value)
  {
    var promoted, id := ApproveEffect(db, rules, req, env);
    var c := TrimSpace(req.candidateId);
    PromoteGraphs(db, rules, ApprovalRequest(db, db.candidates[c], c, req), env);
  }

  predicate WritesGraphs(op: Op) {
    op.Store? || op.Supersede? || op.Promote? || op.Publish? || op.Approve?
  }

  lemma GraphsUntouched(db: Database, rules: TextRules, op: Op, env: Env)
    requires !WritesGraphs(op)
    ensures var next := After(db, rules, op, env);
            next.shared == db.shared && next.priv == db.priv && next.promotions == db.promotions
  {}

  lemma GraphsOkSame(a: Database, b: Database)
    requires GraphsOk(a) && a.shared == b.shared && a.priv == b.priv
    ensures GraphsOk(b)
  {}

  lemma WriterGraphs(db: Database, rules: TextRules, op: Op, env: Env)
    requires GraphsOk(db) && WritesGraphs(op) && Perform(db, rules, op, env).Ok?
    ensures GraphsOk(Perform(db, rules, op, env).value)
  {
    if op.Store? {
      StoreGraphs(db, op.req, env);
    } else if op.Supersede? {
      SupersedeGraphs(db, op.oldId, op.req, env);
    } else if op.Promote? {
      PromoteGraphs(db, rules, op.promote, env);
    } else if op.Publish? {
      PublishGraphs(db, rules, op.privateId, env);
    } else {
      ApproveGraphs(db, rules, op.approve, env);
    }
  }

  lemma PerformGraphs(db: Database, rules: TextRules, op: Op, env: Env)
    requires GraphsOk(db)
    ensures GraphsOk(After(db, rules, op, env))
  {
    if !WritesGraphs(op) {
      GraphsUntouched(db, rules, op, env);
      GraphsOkSame(db, After(db, rules, op, env));
    } else if Perform(db, rules, op, env).Ok? {
      WriterGraphs(db, rules, op, env);
    }
  }

  // ---------------------------------------------------------------- the candidate invariant

  /** The memory was promoted from exactly these chunks: its body joins their texts and its promotions cover them. */
  ghost predicate PromotedFrom(db: Database, memoryId: Id, ids: seq<string>) {
    |ids| > 0 && (forall id <- ids :: id in db.chunks) && memoryId in db.priv.nodes &&
    db.priv.nodes[memoryId].body == Join(ChunkTexts(db.chunks, ids), "\n\n") &&
    (forall id :: (id, memoryId) in db.promotions <==> id in ids)
  }

  ghost predicate CandidateOk(db: Database, c: CandidateRow) {
    if c.status == Approved then exists ids :: PromotedFrom(db, c.approvedMemoryId, ids) else c.approvedMemoryId == ""
  }

  /** Approved candidates name existing memories, each its own. */
  ghost predicate CandidatesOk(db: Database) {
    (forall id :: id in db.candidates ==> CandidateOk(db, db.candidates[id])) &&
    (forall i, j :: i in db.candidates && j in db.candidates && i != j &&
                    db.candidates[i].status == Approved && db.candidates[j].status == Approved ==>
                      db.candidates[i].approvedMemoryId != db.candidates[j].approvedMemoryId)
  }

  lemma PromotedFromKept(a: Database, b: Database, memoryId: Id, ids: seq<string>)
    requires Extends(a, b) && PromotedFrom(a, memoryId, ids)
    ensures PromotedFrom(b, memoryId, ids)
  {
    assert ChunkTexts(a.chunks, ids) == ChunkTexts(b.chunks, ids);
  }

  lemma CandidateOkKept(a: Database, b: Database, c: CandidateRow)
    requires Extends(a, b) && CandidateOk(a, c)
    ensures CandidateOk(b, c)
  {
    if c.status == Approved {
      var ids :| PromotedFrom(a, c.approvedMemoryId, ids);
      PromotedFromKept(a, b, c.approvedMemoryId, ids);
    }
  }

  /** Operations that approve nothing keep the candidate invariant. */
  lemma CandidatesOkKept(a: Database, b: Database)
    requires Extends(a, b) && CandidatesOk(a)
    requires forall id :: id in b.candidates && b.candidates[id].status == Approved ==>
                            id in a.candidates && a.candidates[id].status == Approved
    requires forall id :: id in b.candidates && b.candidates[id].status != Approved ==> b.candidates[id].approvedMemoryId == ""
    ensures CandidatesOk(b)
  {
    forall id | id in b.candidates && b.candidates[id].status == Approved
      ensures CandidateOk(b, b.candidates[id])
    {
      CandidateOkKept(a, b, a.candidates[id]);
    }
  }

  /** The memory an approval creates comes from the linked chunks, and no other candidate names it. */
  lemma ApproveCandidates(db: Database, rules: TextRules, req: ApproveRequest, env: Env)
    requires PromotionsExist(db) && CandidatesOk(db) && ApproveOp(db, rules, req, env).Ok?
    ensures var next, c := ApproveOp(db, rules, req, env).value, TrimSpace(req.candidateId);
            CandidatesOk(next) && next.candidates[c].status == Approved &&
            next.candidates[c].approvedMemoryId !in db.priv.nodes &&
            PromotedFrom(next, next.candidates[c].approvedMemoryId, LinkedChunks(db, c))
  {
    var promoted, memoryId := ApproveEffect(db, rules, req, env);
    var c, next := TrimSpace(req.candidateId), ApproveOp(db, rules, req, env).value;
    var pr := ApprovalRequest(db, db.candidates[c], c, req);
    PromoteTxEffect(db, rules, pr, env);
    ApproveExtends(db, rules, req, env);
    forall id
      ensures (id, memoryId) in next.promotions <==> id in pr.chunkIds
    {}
    assert PromotedFrom(next, memoryId, LinkedChunks(db, c));
    forall id | id in next.candidates && id != c
      ensures CandidateOk(next, next.candidates[id])
      ensures next.candidates[id].status == Approved ==> next.candidates[id].approvedMemoryId in db.priv.nodes
    {
      assert CandidateOk(db, db.candidates[id]);
      CandidateOkKept(db, next, db.candidates[id]);
    }
  }

  lemma ApprovePromotions(db: Database, rules: TextRules, req: ApproveRequest, env: Env)
    requires PromotionsExist(db) && ApproveOp(db, rules, req, env).Ok?
    ensures PromotionsExist(ApproveOp(db, rules, req, env).value)
  {
    var promoted, id := ApproveEffect(db, rules, req, env);
    var c := TrimSpace(req.candidateId);
    PromoteTxEffect(db, rules, ApprovalRequest(db, db.candidates[c], c, req), env);
  }

  ghost predicate SameReviews(a: Database, b: Database) {
    a.candidates == b.candidates && a.links == b.links
  }

  lemma StoreKeepsReviews(db: Database, req: StoreRequest)
    requires StoreTx(db, req).Ok?
    ensures SameReviews(db, StoreTx(db, req).value)
  {
    StoreTxEffect(db, req);
  }

  lemma SupersedeKeepsReviews(db: Database, oldId: Id, req: StoreRequest, env: Env)
    requires SupersedeOp(db, oldId, req, env).Ok?
    ensures SameReviews(db, SupersedeOp(db, oldId, req, env).value)
  {
    StoreKeepsReviews(db, Normalize(req.(visibility := Shared), env).value);
  }

  lemma PromoteKeepsReviews(db: Database, rules: TextRules, req: PromoteRequest, env: Env)
    requires PromoteOp(db, rules, req, env).Ok?
    ensures SameReviews(db, PromoteOp(db, rules, req, env).value)
  {
    StoreKeepsReviews(db, Normalize(PromotedRequest(db, req), env).value);
  }

  lemma PublishKeepsReviews(db: Database, rules: TextRules, privateId: Id, env: Env)
    requires PublishOp(db, rules, privateId, env).Ok?
    ensures SameReviews(db, PublishOp(db, rules, privateId, env).value)
  {
    var row := db.priv.nodes[TrimSpace(privateId)];
    StoreKeepsReviews(db, Normalize(PublishedRequest(row, rules), env).value);
  }

  /** Writing a graph, short of an approval, leaves candidates and links alone. */
  lemma WritersKeepReviews(db: Database, rules: TextRules, op: Op, env: Env)
    requires WritesGraphs(op) && !op.Approve?
    ensures SameReviews(db, After(db, rules, op, env))
  {
    if Perform(db, rules, op, env).Ok? {
      if op.Store? {
        StoreKeepsReviews(db, Normalize(op.req, env).value);
      } else if op.Supersede? {
        SupersedeKeepsReviews(db, op.oldId, op.req, env);
      } else if op.Promote? {
        PromoteKeepsReviews(db, rules, op.promote, env);
      } else {
        PublishKeepsReviews(db, rules, op.privateId, env);
      }
    }
  }

  /** A candidate that is approved afterwards was before; the others name no memory. */
  ghost predicate ApprovesNothing(a: Database, b: Database) {
    (forall id :: id in b.candidates && b.candidates[id].status == Approved ==>
      id in a.candidates && a.candidates[id].status == Approved) &&
    (forall id :: id in b.candidates && b.candidates[id].status != Approved ==> b.candidates[id].approvedMemoryId == "")
  }

  /** Operations other than approval approve nothing. */
  lemma PerformApprovesNothing(db: Database, rules: TextRules, op: Op, env: Env)
    requires CandidatesOk(db) && !op.Approve?
    ensures ApprovesNothing(db, After(db, rules, op, env))
  {
    OldCandidates(db);
    if WritesGraphs(op) {
      WritersKeepReviews(db, rules, op, env);
    } else {
      ReviewStepsApproveNothing(db, rules, op, env);
    }
  }

  lemma OldCandidates(db: Database)
    requires CandidatesOk(db)
    ensures ApprovesNothing(db, db)
  {
    assert forall id :: id in db.candidates ==> CandidateOk(db, db.candidates[id]);
  }

  lemma ReviewStepsApproveNothing(db: Database, rules: TextRules, op: Op, env: Env)
    requires ApprovesNothing(db, db) && !WritesGraphs(op)
    ensures ApprovesNothing(db, After(db, rules, op, env))
  {
    if op.Reject? {
      RejectApprovesNothing(db, op.candidateId, op.note);
    } else if op.UpsertCandidateRow? {
      UpsertApprovesNothing(db, op.id, op.row, true);
    } else if op.candidate.Some? {
      UpsertApprovesNothing(db, CandidateId(rules.digest, op.chunkId), op.candidate.value, false);
    }
  }

  lemma RejectApprovesNothing(db: Database, candidateId: string, note: string)
    requires ApprovesNothing(db, db)
    ensures RejectOp(db, candidateId, note).Ok? ==> ApprovesNothing(db, RejectOp(db, candidateId, note).value)
  {}

  lemma UpsertApprovesNothing(db: Database, id: string, row: CandidateRow, replaceSourceUri: bool)
    requires ApprovesNothing(db, db)
    ensures ApprovesNothing(db, db.(candidates := UpsertCandidate(db.candidates, id, row, replaceSourceUri)))
  {}

  /** Only promoting adds promotions, and only for the memory it stores. */
  lemma PerformPromotions(db: Database, rules: TextRules, op: Op, env: Env)
    requires PromotionsExist(db)
    ensures PromotionsExist(After(db, rules, op, env))
  {
    PerformExtends(db, rules, op, env);
    if op.Approve? {
      if Perform(db, rules, op, env).Ok? {
        ApprovePromotions(db, rules, op.approve, env);
      }
    } else if op.Promote? {
      if Perform(db, rules, op, env).Ok? {
        PromoteTxEffect(db, rules, op.promote, env);
      }
    } else {
      OthersKeepPromotions(db, rules, op, env);
    }
  }

  lemma OthersKeepPromotions(db: Database, rules: TextRules, op: Op, env: Env)
    requires !op.Approve? && !op.Promote?
    ensures After(db, rules, op, env).promotions == db.promotions
  {
    if !WritesGraphs(op) {
      GraphsUntouched(db, rules, op, env);
    } else if Perform(db, rules, op, env).Ok? {
      if op.Store? {
        StoreTxEffect(db, Normalize(op.req, env).value);
      } else if op.Supersede? {
        SupersedeExtends(db, op.oldId, op.req, env);
      } else {
        PublishExtends(db, rules, op.privateId, env);
      }
    }
  }

  lemma PerformCandidates(db: Database, rules: TextRules, op: Op, env: Env)
    requires PromotionsExist(db) && CandidatesOk(db)
    ensures PromotionsExist(After(db, rules, op, env)) && CandidatesOk(After(db, rules, op, env))
  {
    PerformPromotions(db, rules, op, env);
    if op.Approve? {
      if Perform(db, rules, op, env).Ok? {
        ApproveCandidates(db, rules, op.approve, env);
      }
    } else {
      PerformExtends(db, rules, op, env);
      PerformApprovesNothing(db, rules, op, env);
      CandidatesOkKept(db, After(db, rules, op, env));
    }
  }

  // ---------------------------------------------------------------- every reachable database

  /**
    In every database reachable from the empty one by any run of operations, failed ones included, both
    graphs are acyclic with both endpoints of every edge present, a node is superseded exactly when a
    supersedes edge targets it, and approved candidates name their own promoted memories.
   */
  lemma {:induction false} Reachable(rules: TextRules, calls: seq<Call>)
    ensures GraphsOk(RunOps(EMPTY, rules, calls))
    ensures PromotionsExist(RunOps(EMPTY, rules, calls)) && CandidatesOk(RunOps(EMPTY, rules, calls))
  {
    if |calls| > 0 {
      var before, last := RunOps(EMPTY, rules, calls[..|calls| - 1]), calls[|calls| - 1];
      Reachable(rules, calls[..|calls| - 1]);
      PerformGraphs(before, rules, last.op, last.env);
      PerformCandidates(before, rules, last.op, last.env);
    } else {
      EmptyOk();
    }
  }

  lemma EmptyOk()
    ensures GraphsOk(EMPTY) && PromotionsExist(EMPTY) && CandidatesOk(EMPTY)
  {
    forall v, p | |p| > 0
      ensures !Walk(multiset{}, v, v, p)
    {}
  }

  /**
    Along any run: nodes, chunks and edges stay, a superseded node never becomes active again, and a
    candidate that has left pending keeps its whole row.
   */
  lemma {:induction false} RunExtends(rules: TextRules, calls: seq<Call>, k: nat)
    requires k <= |calls|
    ensures Extends(RunOps(EMPTY, rules, calls[..k]), RunOps(EMPTY, rules, calls))
    decreases |calls|
  {
    if k == |calls| {
      assert calls[..k] == calls;
    } else {
      var before, last := calls[..|calls| - 1], calls[|calls| - 1];
      assert before[..k] == calls[..k];
      RunExtends(rules, before, k);
      Reachable(rules, before);
      PerformExtends(RunOps(EMPTY, rules, before), rules, last.op, last.env);
      ExtendsTransitive(RunOps(EMPTY, rules, calls[..k]), RunOps(EMPTY, rules, before), RunOps(EMPTY, rules, calls));
    }
  }

  // ---------------------------------------------------------------- links of reviewed candidates

  /** Every approved candidate is still linked to the chunks its memory was promoted from. */
  ghost predicate LinksAgree(db: Database) {
    forall id :: id in db.candidates && db.candidates[id].status == Approved ==>
                   PromotedFrom(db, db.candidates[id].approvedMemoryId, LinkedChunks(db, id))
  }

  /** The operation would give an approved candidate another chunk list. */
  predicate Relinks(db: Database, rules: TextRules, op: Op) {
    match op
    case UpsertCandidateRow(id, chunkIds, _) =>
      id in db.candidates && db.candidates[id].status == Approved && chunkIds != LinkedChunks(db, id)
    case IngestChunk(chunkId, _, Some(_)) =>
      var id := CandidateId(rules.digest, chunkId);
      chunkId !in db.chunks && id in db.candidates && db.candidates[id].status == Approved &&
      [chunkId] != LinkedChunks(db, id)
    case _ => false
  }

  /** Every candidate is that of a stored chunk. */
  ghost predicate CandidatesOfChunks(db: Database, rules: TextRules) {
    forall id :: id in db.candidates ==> OfChunk(db, rules, id)
  }

  ghost predicate OfChunk(db: Database, rules: TextRules, id: string) {
    exists chunkId :: chunkId in db.chunks && id == CandidateId(rules.digest, chunkId)
  }

  /** So a new chunk has no candidate yet, and nothing the program does relinks an approved one. */
  lemma NothingRelinks(db: Database, rules: TextRules, op: Op)
    requires Injective(rules.digest) && CandidatesOfChunks(db, rules) && !op.UpsertCandidateRow?
    ensures !Relinks(db, rules, op)
  {
    if op.IngestChunk? && CandidateId(rules.digest, op.chunkId) in db.candidates {
      assert OfChunk(db, rules, CandidateId(rules.digest, op.chunkId));
      var chunkId :| chunkId in db.chunks && CandidateId(rules.digest, op.chunkId) == CandidateId(rules.digest, chunkId);
      CandidateIdInjective(rules.digest, op.chunkId, chunkId);
    }
  }

  lemma CandidatesOfChunksKept(a: Database, b: Database, rules: TextRules)
    requires CandidatesOfChunks(a, rules) && b.candidates.Keys == a.candidates.Keys
    requires forall c :: c in a.chunks ==> c in b.chunks
    ensures CandidatesOfChunks(b, rules)
  {
    forall id | id in b.candidates
      ensures OfChunk(b, rules, id)
    {
      assert id in a.candidates && OfChunk(a, rules, id);
    }
  }

  lemma IngestKeepsOrigin(db: Database, rules: TextRules, chunkId: string, chunk: ChunkRow, candidate: Option<CandidateRow>)
    requires CandidatesOfChunks(db, rules)
    ensures CandidatesOfChunks(IngestChunkOp(db, rules, chunkId, chunk, candidate).value, rules)
  {
    var next := IngestChunkOp(db, rules, chunkId, chunk, candidate).value;
    forall id | id in next.candidates
      ensures OfChunk(next, rules, id)
    {
      if id in db.candidates {
        assert OfChunk(db, rules, id);
        var c :| c in db.chunks && id == CandidateId(rules.digest, c);
        assert c in next.chunks;
      } else {
        assert chunkId in next.chunks && id == CandidateId(rules.digest, chunkId);
      }
    }
  }

  lemma StepKeepsOrigin(db: Database, rules: TextRules, op: Op, env: Env)
    requires PromotionsExist(db) && CandidatesOfChunks(db, rules) && !op.UpsertCandidateRow?
    ensures CandidatesOfChunks(After(db, rules, op, env), rules)
  {
    PerformExtends(db, rules, op, env);
    if op.IngestChunk? {
      IngestKeepsOrigin(db, rules, op.chunkId, op.chunk, op.candidate);
    } else {
      SameCandidateIds(db, rules, op, env);
      CandidatesOfChunksKept(db, After(db, rules, op, env), rules);
    }
  }

  lemma SameCandidateIds(db: Database, rules: TextRules, op: Op, env: Env)
    requires PromotionsExist(db) && !op.UpsertCandidateRow? && !op.IngestChunk?
    ensures After(db, rules, op, env).candidates.Keys == db.candidates.Keys
  {
    if op.Approve? {
      if Perform(db, rules, op, env).Ok? {
        ApproveLinks(db, rules, op.approve, env);
      }
    } else if WritesGraphs(op) {
      WritersKeepReviews(db, rules, op, env);
    }
  }

  /**
    In every database the program reaches, every approved candidate is still linked to the chunks its memory
    was promoted from. The program makes every call but the service's own candidate upsert, which nothing
    calls; the digest is injective.
   */
  lemma {:induction false} LinksAgreeReachable(rules: TextRules, calls: seq<Call>)
    requires Injective(rules.digest) && forall call :: call in calls ==> !call.op.UpsertCandidateRow?
    ensures LinksAgree(RunOps(EMPTY, rules, calls)) && CandidatesOfChunks(RunOps(EMPTY, rules, calls), rules)
  {
    if |calls| > 0 {
      var earlier, last := calls[..|calls| - 1], calls[|calls| - 1];
      var before := RunOps(EMPTY, rules, earlier);
      LinksAgreeReachable(rules, earlier);
      Reachable(rules, earlier);
      NothingRelinks(before, rules, last.op);
      LinksAgreeStep(before, rules, last.op, last.env);
      StepKeepsOrigin(before, rules, last.op, last.env);
    }
  }

  lemma LinksAgreeStep(db: Database, rules: TextRules, op: Op, env: Env)
    requires LinksAgree(db) && PromotionsExist(db) && CandidatesOk(db) && !Relinks(db, rules, op)
    ensures LinksAgree(After(db, rules, op, env))
  {
    if op.Approve? {
      if Perform(db, rules, op, env).Ok? {
        ApprovalAgrees(db, rules, op.approve, env);
      }
    } else {
      PerformExtends(db, rules, op, env);
      LinksStep(db, rules, op, env);
      PerformApprovesNothing(db, rules, op, env);
      LinksAgreeKept(db, After(db, rules, op, env), {});
    }
  }

  lemma ApprovalAgrees(db: Database, rules: TextRules, req: ApproveRequest, env: Env)
    requires LinksAgree(db) && PromotionsExist(db) && CandidatesOk(db) && ApproveOp(db, rules, req, env).Ok?
    ensures LinksAgree(ApproveOp(db, rules, req, env).value)
  {
    ApproveExtends(db, rules, req, env);
    ApproveLinks(db, rules, req, env);
    ApproveCandidates(db, rules, req, env);
    LinksAgreeKept(db, ApproveOp(db, rules, req, env).value, {TrimSpace(req.candidateId)});
  }

  lemma LinksAgreeKept(a: Database, b: Database, approved: set<string>)
    requires LinksAgree(a) && Extends(a, b)
    requires forall id :: id in b.candidates && b.candidates[id].status == Approved && id !in approved ==>
                            id in a.candidates && a.candidates[id].status == Approved &&
                            LinkedChunks(b, id) == LinkedChunks(a, id)
    requires forall id :: id in approved && id in b.candidates ==>
                            PromotedFrom(b, b.candidates[id].approvedMemoryId, LinkedChunks(b, id))
    ensures LinksAgree(b)
  {
    forall id | id in b.candidates && b.candidates[id].status == Approved && id !in approved
      ensures PromotedFrom(b, b.candidates[id].approvedMemoryId, LinkedChunks(b, id))
    {
      PromotedFromKept(a, b, a.candidates[id].approvedMemoryId, LinkedChunks(a, id));
    }
  }

  lemma ApproveLinks(db: Database, rules: TextRules, req: ApproveRequest, env: Env)
    requires PromotionsExist(db) && ApproveOp(db, rules, req, env).Ok?
    ensures var next := ApproveOp(db, rules, req, env).value;
            next.links == db.links && next.candidates.Keys == db.candidates.Keys &&
            (forall id :: id in db.candidates && id != TrimSpace(req.candidateId) ==>
              next.candidates[id] == db.candidates[id])
  {
    var promoted, memoryId := ApproveEffect(db, rules, req, env);
    var c := TrimSpace(req.candidateId);
    PromoteTxEffect(db, rules, ApprovalRequest(db, db.candidates[c], c, req), env);
  }

  lemma LinksStep(db: Database, rules: TextRules, op: Op, env: Env)
    requires !Relinks(db, rules, op) && !op.Approve?
    ensures forall id :: id in db.candidates && db.candidates[id].status == Approved ==>
                           LinkedChunks(After(db, rules, op, env), id) == LinkedChunks(db, id)
  {
    if WritesGraphs(op) {
      WritersKeepReviews(db, rules, op, env);
    }
  }

  /** The chunks name the same set and join to the same text as the promoted ones. */
  ghost predicate SamePromotion(db: Database, chunkIds: seq<string>, promoted: seq<string>) {
    ToSet(chunkIds) == ToSet(promoted) && (forall c <- chunkIds + promoted :: c in db.chunks) &&
    Join(ChunkTexts(db.chunks, chunkIds), "\n\n") == Join(ChunkTexts(db.chunks, promoted), "\n\n")
  }

  lemma PromotedFromIff(db: Database, memoryId: Id, ids: seq<string>, promoted: seq<string>)
    requires PromotedFrom(db, memoryId, promoted) && |ids| > 0
    ensures PromotedFrom(db, memoryId, ids) <==> SamePromotion(db, ids, promoted)
  {
    assert forall c :: c in ToSet(promoted) <==> (c, memoryId) in db.promotions;
    if PromotedFrom(db, memoryId, ids) {
      assert forall c :: c in ToSet(ids) <==> (c, memoryId) in db.promotions;
    }
    if ToSet(ids) == ToSet(promoted) {
      assert forall c :: c in ids <==> c in ToSet(ids);
      assert forall c :: c in promoted <==> c in ToSet(promoted);
    }
  }

  /**
    The service's own candidate upsert would relink: it guards the row of a reviewed candidate but not its
    links. Applied to an approved candidate it keeps agreement if and only if the given chunks are the
    promoted ones as a set and join to the same text, so a mere reordering can break it too.
   */
  lemma RelinkIff(db: Database, id: string, chunkIds: seq<string>, row: CandidateRow)
    requires LinksAgree(db) && id in db.candidates && db.candidates[id].status == Approved
    requires UpsertCandidateOp(db, id, chunkIds, row).Ok?
    ensures UpsertCandidateOp(db, id, chunkIds, row).value.candidates[id] == db.candidates[id]
    ensures LinksAgree(UpsertCandidateOp(db, id, chunkIds, row).value) <==>
            SamePromotion(db, chunkIds, LinkedChunks(db, id))
  {
    var next, memoryId := UpsertCandidateOp(db, id, chunkIds, row).value, db.candidates[id].approvedMemoryId;
    PromotedFromIff(db, memoryId, chunkIds, LinkedChunks(db, id));
    PromotedFromSame(db, next, memoryId, chunkIds);
    forall other | other in next.candidates && next.candidates[other].status == Approved && other != id
      ensures PromotedFrom(next, next.candidates[other].approvedMemoryId, LinkedChunks(next, other))
    {
      PromotedFromSame(db, next, db.candidates[other].approvedMemoryId, LinkedChunks(db, other));
    }
  }

  lemma PromotedFromSame(a: Database, b: Database, memoryId: Id, ids: seq<string>)
    requires b.chunks == a.chunks && b.priv == a.priv && b.promotions == a.promotions
    ensures PromotedFrom(a, memoryId, ids) <==> PromotedFrom(b, memoryId, ids)
  {}
}
