/**
  Transcript ingest: one transaction that adds messages, rebuilds the chunk list and inserts
  the chunks not yet stored, with their retrieval units, queue rows and candidates.
 */
module Ingest {
  import opened Prelude
  import opened Numerals
  import opened Records
  import opened Chunking

  datatype Session = Session(sourceKind: string, namespace: string, branchName: string, projectKey: string,
                             sensitivity: string, retentionClass: string)

  /** A request after normalisation (trimming and defaults). */
  datatype Request = Request(sessionId: string, session: Session, messages: seq<Message>)

  datatype Key = Key(sessionId: string, seqNo: int)

  type Messages = map<Key, Message>

  datatype Tables = Tables(sessions: map<string, Session>, messages: Messages,
                           chunks: map<string, ChunkRow>, units: map<string, UnitRow>, queue: seq<string>,
                           candidates: Candidates, links: map<string, seq<string>>)

  datatype IngestError = SessionIdRequired | SourceKindRequired | NamespaceRequired | MessagesRequired
                       | MessageIdTaken(messageId: string) | SeqReused(seqNo: int)

  // ---------------------------------------------------------------- messages

  /** The row a message is stored as: its id defaults to session:seq. */
  function Stored(sessionId: string, m: Message): Message {
    if m.messageId == "" then m.(messageId := sessionId + ":" + IntText(m.seqNo)) else m
  }

  predicate IdUsed(table: Messages, messageId: string) {
    exists k :: k in table && table[k].messageId == messageId
  }

  /**
    Insert, or on a (session, seq) conflict refresh everything but the id and the content.
    Content hashes stand for content: the digest is taken as injective.
   */
  function UpsertMessage(table: Messages, sessionId: string, m: Message): Result<Messages, IngestError> {
    var key := Key(sessionId, m.seqNo);
    if key in table then
      if table[key].content == m.content then Ok(table[key := m.(messageId := table[key].messageId)])
      else Err(SeqReused(m.seqNo))
    else if IdUsed(table, Stored(sessionId, m).messageId) then Err(MessageIdTaken(Stored(sessionId, m).messageId))
    else Ok(table[key := Stored(sessionId, m)])
  }

  function UpsertAll(table: Messages, sessionId: string, ms: seq<Message>): Result<Messages, IngestError> {
    if |ms| == 0 then Ok(table)
    else
      match UpsertAll(table, sessionId, ms[..|ms| - 1])
      case Err(e) => Err(e)
      case Ok(before) => UpsertMessage(before, sessionId, ms[|ms| - 1])
  }

  function SeqsOf(table: Messages, sessionId: string): set<int> {
    set k | k in table && k.sessionId == sessionId :: k.seqNo
  }

  /** A loaded row carries its key's sequence number. */
  function RowAt(table: Messages, sessionId: string, k: int): Message
    requires Key(sessionId, k) in table
  {
    table[Key(sessionId, k)].(seqNo := k)
  }

  /** `SELECT … WHERE session_id = ? ORDER BY seq`. */
  ghost function Load(table: Messages, sessionId: string): seq<Message> {
    LoadSeqs(table, sessionId, SeqsOf(table, sessionId))
  }

  ghost function LoadSeqs(table: Messages, sessionId: string, seqs: set<int>): seq<Message>
    requires forall k :: k in seqs ==> Key(sessionId, k) in table
    decreases |seqs|
  {
    if |seqs| == 0 then []
    else [RowAt(table, sessionId, Least(seqs))] + LoadSeqs(table, sessionId, seqs - {Least(seqs)})
  }

  method LoadMessages(table: Messages, sessionId: string) returns (out: seq<Message>)
    ensures out == Load(table, sessionId)
  {
    var todo := SeqsOf(table, sessionId);
    out := [];
    while |todo| > 0
      invariant forall k :: k in todo ==> Key(sessionId, k) in table
      invariant Load(table, sessionId) == out + LoadSeqs(table, sessionId, todo)
      decreases |todo|
    {
      ghost var least := LeastExists(todo);
      var k :| k in todo && forall j :: j in todo ==> k <= j;
      assert k == Least(todo);
      out := out + [RowAt(table, sessionId, k)];
      todo := todo - {k};
    }
  }

  // ---------------------------------------------------------------- chunks

  predicate PromotionKind(kind: string) {
    kind in {"decision", "task_candidate", "rationale", "debug_trace"}
  }

  function ChunkRowOf(sessionId: string, session: Session, c: Chunk): ChunkRow {
    ChunkRow(sessionId, c.chunkSeq, c.chunkKind, c.startSeq, c.endSeq, c.text, c.authoredAtMS, c.sensitivity,
             session.retentionClass)
  }

  function UnitOf(session: Session, c: Chunk): UnitRow {
    UnitRow("transcript_chunk", c.chunkId, "transcript", session.namespace, c.chunkKind, "", c.text,
            c.authoredAtMS, c.sensitivity, session.retentionClass, "active", "",
            session.projectKey, session.branchName)
  }

  function CandidateOf(h: Heuristics, session: Session, c: Chunk): CandidateRow {
    CandidateRow(session.namespace, c.chunkKind, Pending, h.subjectOf(c.chunkKind, c.text), c.text, "",
                 c.authoredAtMS, "agent/ingest", "peer/local", c.sensitivity, session.retentionClass,
                 session.projectKey, session.branchName, "", "")
  }

  /** One chunk: skipped when its id is already stored, otherwise inserted with everything derived from it. */
  function InsertChunk(h: Heuristics, digest: string -> string, t: Tables,
                       sessionId: string, session: Session, c: Chunk): Tables
  {
    if c.chunkId in t.chunks then t
    else
      var id := CandidateId(digest, c.chunkId);
      t.(chunks := t.chunks[c.chunkId := ChunkRowOf(sessionId, session, c)],
         units := if c.chunkId in t.units then t.units else t.units[c.chunkId := UnitOf(session, c)],
         queue := t.queue + [c.chunkId],
         candidates := if PromotionKind(c.chunkKind)
                       then UpsertCandidate(t.candidates, id, CandidateOf(h, session, c), false) else t.candidates,
         links := if PromotionKind(c.chunkKind) then t.links[id := [c.chunkId]] else t.links)
  }

  function InsertChunks(h: Heuristics, digest: string -> string, t: Tables,
                        sessionId: string, session: Session, cs: seq<Chunk>): Tables
  {
    if |cs| == 0 then t
    else InsertChunk(h, digest, InsertChunks(h, digest, t, sessionId, session, cs[..|cs| - 1]), sessionId, session,
                     cs[|cs| - 1])
  }

  // ---------------------------------------------------------------- the transaction

  function Validate(req: Request): Option<IngestError> {
    if req.sessionId == "" then Some(SessionIdRequired)
    else if req.session.sourceKind == "" then Some(SourceKindRequired)
    else if req.session.namespace == "" then Some(NamespaceRequired)
    else if |req.messages| == 0 then Some(MessagesRequired)
    else None
  }

  /** The chunks of everything stored for a session. */
  ghost function SessionChunks(h: Heuristics, sessionId: string, session: Session, messages: Messages): seq<Chunk> {
    ChunksOf(h, sessionId, session.sensitivity, Runs(Load(messages, sessionId)))
  }

  ghost function Ingested(h: Heuristics, digest: string -> string, t: Tables, req: Request): Result<Tables, IngestError> {
    if Validate(req).Some? then Err(Validate(req).value)
    else
      match UpsertAll(t.messages, req.sessionId, req.messages)
      case Err(e) => Err(e)
      case Ok(messages) =>
        var t1 := t.(sessions := t.sessions[req.sessionId := req.session], messages := messages);
        Ok(InsertChunks(h, digest, t1, req.sessionId, req.session, SessionChunks(h, req.sessionId, req.session, messages)))
  }

  class Service {
    var db: Tables
    const h: Heuristics
    const digest: string -> string

    constructor (db: Tables, h: Heuristics, digest: string -> string)
      ensures this.db == db && this.h == h && this.digest == digest
    {
      this.db, this.h, this.digest := db, h, digest;
    }

    method UpsertMessages(table: Messages, sessionId: string, ms: seq<Message>) returns (r: Result<Messages, IngestError>)
      ensures r == UpsertAll(table, sessionId, ms)
    {
      var messages := table;
      for i := 0 to |ms|
        invariant UpsertAll(table, sessionId, ms[..i]) == Ok(messages)
      {
        assert ms[..i + 1][..i] == ms[..i];
        var msg := ms[i];
        var key := Key(sessionId, msg.seqNo);
        var contentHash := msg.content;
        if key in messages {
          if messages[key].content == contentHash {
            messages := messages[key := msg.(messageId := messages[key].messageId)];
          }
        } else if IdUsed(messages, Stored(sessionId, msg).messageId) {
          UpsertAllStops(table, sessionId, ms, i + 1);
          return Err(MessageIdTaken(Stored(sessionId, msg).messageId));
        } else {
          messages := messages[key := Stored(sessionId, msg)];
        }
        var existingHash := messages[key].content;
        if existingHash != contentHash {
          UpsertAllStops(table, sessionId, ms, i + 1);
          return Err(SeqReused(msg.seqNo));
        }
      }
      assert ms[..|ms|] == ms;
      return Ok(messages);
    }

    method UpsertChunks(t0: Tables, sessionId: string, session: Session, chunks: seq<Chunk>) returns (t: Tables)
      ensures t == InsertChunks(h, digest, t0, sessionId, session, chunks)
    {
      t := t0;
      for i := 0 to |chunks|
        invariant t == InsertChunks(h, digest, t0, sessionId, session, chunks[..i])
      {
        assert chunks[..i + 1][..i] == chunks[..i];
        var chunk := chunks[i];
        if chunk.chunkId in t.chunks {
          continue;
        }
        t := t.(chunks := t.chunks[chunk.chunkId := ChunkRowOf(sessionId, session, chunk)]);
        if chunk.chunkId !in t.units {
          t := t.(units := t.units[chunk.chunkId := UnitOf(session, chunk)]);
        }
        t := t.(queue := t.queue + [chunk.chunkId]);
        t := UpsertPromotionCandidate(t, session, chunk);
      }
      assert chunks[..|chunks|] == chunks;
    }

    method UpsertPromotionCandidate(t0: Tables, session: Session, chunk: Chunk) returns (t: Tables)
      ensures t == if PromotionKind(chunk.chunkKind)
                   then t0.(candidates := UpsertCandidate(t0.candidates, CandidateId(digest, chunk.chunkId),
                                                          CandidateOf(h, session, chunk), false),
                            links := t0.links[CandidateId(digest, chunk.chunkId) := [chunk.chunkId]])
                   else t0
    {
      t := t0;
      if !PromotionKind(chunk.chunkKind) {
        return;
      }
      var id := CandidateId(digest, chunk.chunkId);
      t := t.(candidates := UpsertCandidate(t.candidates, id, CandidateOf(h, session, chunk), false));
      t := t.(links := t.links - {id});
      t := t.(links := t.links[id := [chunk.chunkId]]);
      assert t.links == t0.links[id := [chunk.chunkId]];
    }

    /** All or nothing: on any error the tables are as before the call. */
    method IngestSession(req: Request) returns (r: Result<(), IngestError>)
      modifies this`db
      ensures match Ingested(h, digest, old(db), req)
              case Ok(t) => r == Ok(()) && db == t
              case Err(e) => r == Err(e) && db == old(db)
    {
      var invalid := Validate(req);
      if invalid.Some? {
        return Err(invalid.value);
      }
      var tx := db.(sessions := db.sessions[req.sessionId := req.session]);
      var upserted := UpsertMessages(tx.messages, req.sessionId, req.messages);
      if upserted.Err? {
        return Err(upserted.error);
      }
      tx := tx.(messages := upserted.value);
      var messages := LoadMessages(tx.messages, req.sessionId);
      LoadExact(tx.messages, req.sessionId);
      var chunks := BuildChunks(h, req.sessionId, req.session.sensitivity, messages);
      ChunkingUnique(h, req.sessionId, req.session.sensitivity, messages, chunks);
      tx := UpsertChunks(tx, req.sessionId, req.session, chunks);
      db := tx;
      return Ok(());
    }
  }

  lemma {:induction false} UpsertAllStops(table: Messages, sessionId: string, ms: seq<Message>, n: nat)
    requires n <= |ms| && UpsertAll(table, sessionId, ms[..n]).Err?
    ensures UpsertAll(table, sessionId, ms) == UpsertAll(table, sessionId, ms[..n])
    decreases |ms|
  {
    if n == |ms| {
      assert ms[..n] == ms;
    } else {
      assert ms[..|ms| - 1][..n] == ms[..n];
      UpsertAllStops(table, sessionId, ms[..|ms| - 1], n);
    }
  }

  // ---------------------------------------------------------------- loading

  /** What a load returns: the rows of the session, once each, in sequence order. */
  ghost predicate IsLoad(table: Messages, sessionId: string, ms: seq<Message>) {
    StrictlySortedBySeq(ms) &&
    (forall m :: m in ms <==> Key(sessionId, m.seqNo) in table && RowAt(table, sessionId, m.seqNo) == m)
  }

  lemma LoadExact(table: Messages, sessionId: string)
    ensures IsLoad(table, sessionId, Load(table, sessionId))
  {
    LoadSeqsExact(table, sessionId, SeqsOf(table, sessionId));
    forall m: Message
      ensures m.seqNo in SeqsOf(table, sessionId) <==> Key(sessionId, m.seqNo) in table
    {
      if Key(sessionId, m.seqNo) in table {
        assert Key(sessionId, m.seqNo).seqNo in SeqsOf(table, sessionId);
      }
    }
  }

  lemma {:induction false} LoadSeqsExact(table: Messages, sessionId: string, seqs: set<int>)
    requires forall k :: k in seqs ==> Key(sessionId, k) in table
    ensures StrictlySortedBySeq(LoadSeqs(table, sessionId, seqs))
    ensures forall m :: m in LoadSeqs(table, sessionId, seqs) <==>
                        m.seqNo in seqs && RowAt(table, sessionId, m.seqNo) == m
    decreases |seqs|
  {
    if |seqs| > 0 {
      LoadSeqsExact(table, sessionId, seqs - {Least(seqs)});
    }
  }

  lemma {:induction false} StrictlySortedUnique(a: seq<Message>, b: seq<Message>)
    requires StrictlySortedBySeq(a) && StrictlySortedBySeq(b)
    requires forall m :: m in a <==> m in b
    ensures a == b
    decreases |a|
  {
    assert |a| > 0 ==> a[0] in b;
    assert |b| > 0 ==> b[0] in a;
    if |a| > 0 {
      SameStrictFirst(a, b);
      forall m
        ensures m in a[1..] <==> m in b[1..]
      {
        InTail(a, m);
        InTail(b, m);
      }
      StrictlySortedUnique(a[1..], b[1..]);
      assert a == [a[0]] + a[1..] && b == [b[0]] + b[1..];
    }
  }

  lemma SameStrictFirst(a: seq<Message>, b: seq<Message>)
    requires StrictlySortedBySeq(a) && StrictlySortedBySeq(b) && |a| > 0 && |b| > 0
    requires a[0] in b && b[0] in a
    ensures a[0] == b[0]
  {
    var j :| 0 <= j < |b| && b[j] == a[0];
    var i :| 0 <= i < |a| && a[i] == b[0];
    assert b[0].seqNo <= b[j].seqNo && a[0].seqNo <= a[i].seqNo;
    assert i == 0;
  }

  lemma InTail(a: seq<Message>, m: Message)
    requires StrictlySortedBySeq(a) && |a| > 0
    ensures m in a[1..] <==> m in a && m != a[0]
  {
    assert a == [a[0]] + a[1..];
    if m in a[1..] {
      var i :| 0 <= i < |a[1..]| && a[1..][i] == m;
      assert a[0].seqNo < a[i + 1].seqNo;
    }
  }

  lemma LoadUnique(table: Messages, sessionId: string, ms: seq<Message>)
    requires IsLoad(table, sessionId, ms)
    ensures Load(table, sessionId) == ms
  {
    LoadExact(table, sessionId);
    StrictlySortedUnique(Load(table, sessionId), ms);
  }
}
