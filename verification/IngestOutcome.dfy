/** What a run of ingest calls leaves in the tables, told row by row in terms of the messages. */
module IngestOutcome {
  import opened Prelude
  import opened Numerals
  import opened Records
  import opened Chunking
  import opened Ingest
  import opened IngestRuns

  // ---------------------------------------------------------------- chunks, units, candidates

  /** The lines "role: content" of a run, in order, with a newline between any two. */
  function Spelled(run: Run): string {
    if |run| == 0 then ""
    else if |run| == 1 then run[0].role + ": " + run[0].content
    else run[0].role + ": " + run[0].content + "\n" + Spelled(run[1..])
  }

  lemma {:induction false} JoinedIsSpelled(run: Run)
    requires |run| > 0
    ensures Join(Lines(run), "\n") == Spelled(run)
  {
    if |run| > 1 {
      JoinedIsSpelled(run[1..]);
      assert Lines(run)[1..] == Lines(run[1..]);
      JoinCons(Lines(run), "\n");
    }
  }

  /** The sensitivity of a text in a session: "secret" if the text or the session is, and else the session's. */
  ghost predicate SensitivityRight(h: Heuristics, session: Session, text: string, sensitivity: string) {
    (sensitivity == "secret" <==> h.isSecret(text) || session.sensitivity == "secret") &&
    (sensitivity != "secret" ==> sensitivity == session.sensitivity)
  }

  /** A user message with what follows it, or a single other message. */
  predicate OneTurn(run: Run) {
    |run| > 0 && (forall k :: 0 < k < |run| ==> run[k].role != "user") && (run[0].role == "user" || |run| == 1)
  }

  /** The row tells of the i-th run of its session. */
  ghost predicate RowTells(h: Heuristics, sessionId: string, session: Session, chunkId: string, row: ChunkRow, run: Run,
                           i: nat)
  {
    OneTurn(run) && row.sessionId == sessionId && row.chunkSeq == i + 1 &&
    chunkId == sessionId + ":v2:" + Decimal(i + 1) &&
    row.startSeq == run[0].seqNo && row.endSeq == run[|run| - 1].seqNo && row.text == Spelled(run) &&
    (exists m :: m in run && m.authoredAtMS == row.authoredAtMS) &&
    (forall m :: m in run ==> m.authoredAtMS <= row.authoredAtMS) &&
    row.chunkKind == h.kindOf(row.text) && SensitivityRight(h, session, row.text, row.sensitivity) &&
    row.retentionClass == session.retentionClass
  }

  /** The retrieval unit of a chunk: active, and with the chunk's own text, time, kind and sensitivity. */
  predicate UnitTells(session: Session, chunkId: string, row: ChunkRow, u: UnitRow) {
    u.sourceType == "transcript_chunk" && u.sourceId == chunkId && u.memorySpace == "transcript" &&
    u.namespace == session.namespace && u.unitKind == row.chunkKind && u.title == "" && u.body == row.text &&
    u.authoredAtMS == row.authoredAtMS && u.sensitivity == row.sensitivity && u.retentionClass == row.retentionClass &&
    u.state == "active" && u.sourceUri == "" && u.projectKey == session.projectKey && u.branchName == session.branchName
  }

  /** The pending candidate of a chunk of a promotable kind. */
  ghost predicate CandidateTells(h: Heuristics, session: Session, row: ChunkRow, c: CandidateRow) {
    c.namespace == session.namespace && c.candidateType == row.chunkKind && c.status == Pending &&
    c.subject == h.subjectOf(row.chunkKind, row.text) && c.body == row.text && c.sourceUri == "" &&
    c.authoredAtMS == row.authoredAtMS && c.authorAgentId == "agent/ingest" && c.originPeerId == "peer/local" &&
    c.sensitivity == row.sensitivity && c.retentionClass == row.retentionClass &&
    c.projectKey == session.projectKey && c.branchName == session.branchName &&
    c.approvedMemoryId == "" && c.reviewNote == ""
  }

  /** Everything the tables hold for a chunk tells of one run of the session's messages. */
  ghost predicate ChunkTells(h: Heuristics, digest: string -> string, t: Tables, chunkId: string, sessionId: string,
                             session: Session, run: Run, i: nat)
  {
    chunkId in t.chunks && RowTells(h, sessionId, session, chunkId, t.chunks[chunkId], run, i) &&
    chunkId in t.units && UnitTells(session, chunkId, t.chunks[chunkId], t.units[chunkId]) && chunkId in t.queue &&
    (t.chunks[chunkId].chunkKind in {"decision", "task_candidate", "rationale", "debug_trace"} ==>
      CandidateId(digest, chunkId) in t.candidates &&
      CandidateTells(h, session, t.chunks[chunkId], t.candidates[CandidateId(digest, chunkId)]))
  }

  /** The run is the i-th of the segmentation of everything stored for the session. */
  ghost predicate IsRunOf(messages: Messages, sessionId: string, run: Run, i: nat) {
    exists ms, runs :: IsLoad(messages, sessionId, ms) && IsSegmentation(runs, ms) && i < |runs| && runs[i] == run &&
                       StopsRight(runs, i)
  }

  /** A turn of the user goes on up to the next one or to the end. */
  predicate StopsRight(runs: seq<Run>, i: nat)
    requires i < |runs|
  {
    i + 1 < |runs| && |runs[i]| > 0 && runs[i][0].role == "user" ==> |runs[i + 1]| > 0 && runs[i + 1][0].role == "user"
  }

  /** Some run of the messages that the tables held when the call with this session was made. */
  ghost predicate FromCall(h: Heuristics, digest: string -> string, t: Tables, chunkId: string, messages: Messages,
                           req: Request)
  {
    exists run, i :: IsRunOf(messages, req.sessionId, run, i) &&
                     ChunkTells(h, digest, t, chunkId, req.sessionId, req.session, run, i)
  }

  /** No chunks, and nothing derived from chunks. */
  predicate Bare(t: Tables) {
    t.chunks == map[] && t.units == map[] && t.candidates == map[]
  }

  /** Units belong to stored chunks, and candidates too. */
  ghost predicate Derived(digest: string -> string, t: Tables) {
    t.units.Keys <= t.chunks.Keys && CandidatesMatch(digest, t)
  }

  /** The tables hold for the chunk exactly what the chunk says, as a call of this session writes it. */
  ghost predicate Written(h: Heuristics, digest: string -> string, t: Tables, sessionId: string, session: Session,
                          c: Chunk)
  {
    c.chunkId in t.chunks && t.chunks[c.chunkId] == ChunkRowOf(sessionId, session, c) &&
    c.chunkId in t.units && t.units[c.chunkId] == UnitOf(session, c) && c.chunkId in t.queue &&
    (PromotionKind(c.chunkKind) ==>
      CandidateId(digest, c.chunkId) in t.candidates &&
      t.candidates[CandidateId(digest, c.chunkId)] == CandidateOf(h, session, c))
  }

  lemma ChunkWritten(h: Heuristics, digest: string -> string, t: Tables, sessionId: string, session: Session, c: Chunk)
    requires Injective(digest) && Derived(digest, t)
    ensures Derived(digest, InsertChunk(h, digest, t, sessionId, session, c))
    ensures c.chunkId !in t.chunks ==>
              Written(h, digest, InsertChunk(h, digest, t, sessionId, session, c), sessionId, session, c)
  {
    ChunkKeepsCandidates(h, digest, t, sessionId, session, c);
    if c.chunkId !in t.chunks && CandidateId(digest, c.chunkId) in t.candidates {
      assert Founded(digest, t, CandidateId(digest, c.chunkId));
      var chunkId :| Promotable(t, chunkId) && CandidateId(digest, chunkId) == CandidateId(digest, c.chunkId);
      CandidateIdInjective(digest, chunkId, c.chunkId);
    }
  }

  /** What the tables hold for a stored chunk. */
  ghost predicate SameFor(digest: string -> string, t: Tables, next: Tables, chunkId: string) {
    Lookup(next.chunks, chunkId) == Lookup(t.chunks, chunkId) && Lookup(next.units, chunkId) == Lookup(t.units, chunkId) &&
    (chunkId in t.queue ==> chunkId in next.queue) &&
    (CandidateId(digest, chunkId) in t.candidates ==>
      Lookup(next.candidates, CandidateId(digest, chunkId)) == Lookup(t.candidates, CandidateId(digest, chunkId)))
  }

  lemma ChunkStays(h: Heuristics, digest: string -> string, t: Tables, sessionId: string, session: Session, c: Chunk,
                   chunkId: string)
    requires Injective(digest) && Derived(digest, t) && chunkId in t.chunks
    ensures SameFor(digest, t, InsertChunk(h, digest, t, sessionId, session, c), chunkId)
  {
    ChunkKeepsCandidates(h, digest, t, sessionId, session, c);
    var next, id := InsertChunk(h, digest, t, sessionId, session, c), CandidateId(digest, chunkId);
    if id in t.candidates {
      assert CandidateKept(t, next, id);
    }
  }

  lemma {:induction false} ChunksWritten(h: Heuristics, digest: string -> string, t: Tables, sessionId: string,
                                         session: Session, cs: seq<Chunk>, chunkId: string)
    requires Injective(digest) && Derived(digest, t)
    ensures var next := InsertChunks(h, digest, t, sessionId, session, cs);
            Derived(digest, next) &&
            (chunkId in t.chunks ==> SameFor(digest, t, next, chunkId)) &&
            (chunkId in next.chunks && chunkId !in t.chunks ==>
              exists c :: c in cs && c.chunkId == chunkId && Written(h, digest, next, sessionId, session, c)) &&
            (forall c :: c in cs ==> c.chunkId in next.chunks)
  {
    if |cs| > 0 {
      var before, last := cs[..|cs| - 1], cs[|cs| - 1];
      var middle := InsertChunks(h, digest, t, sessionId, session, before);
      ChunksWritten(h, digest, t, sessionId, session, before, chunkId);
      ChunkWritten(h, digest, middle, sessionId, session, last);
      assert cs == before + [last];
      if chunkId in middle.chunks {
        ChunkStays(h, digest, middle, sessionId, session, last, chunkId);
        if chunkId !in t.chunks {
          var c :| c in before && c.chunkId == chunkId && Written(h, digest, middle, sessionId, session, c);
          WrittenStays(h, digest, middle, InsertChunk(h, digest, middle, sessionId, session, last), sessionId, session, c);
        }
      }
    }
  }

  lemma WrittenStays(h: Heuristics, digest: string -> string, t: Tables, next: Tables, sessionId: string,
                     session: Session, c: Chunk)
    requires Written(h, digest, t, sessionId, session, c) && SameFor(digest, t, next, c.chunkId)
    ensures Written(h, digest, next, sessionId, session, c)
  {}

  lemma WrittenTells(h: Heuristics, digest: string -> string, t: Tables, sessionId: string, session: Session, run: Run,
                     i: nat)
    requires OneTurn(run)
    requires Written(h, digest, t, sessionId, session, ChunkOf(h, sessionId, session.sensitivity, i + 1, run))
    ensures ChunkTells(h, digest, t, sessionId + ":v2:" + Decimal(i + 1), sessionId, session, run, i)
  {
    JoinedIsSpelled(run);
    var at := LatestAuthoredIsMaximum(run);
    assert run[at] in run;
    IdSpelled(sessionId, i + 1);
  }

  lemma IdSpelled(sessionId: string, chunkSeq: nat)
    ensures ChunkIdText(sessionId, chunkSeq) == sessionId + ":v2:" + Decimal(chunkSeq)
  {
    assert Decimal(2) == "2";
    assert sessionId + ":v" + "2" + ":" == sessionId + ":v2:";
  }

  /** Whatever a call newly stores, it derives from a run of what the session then held. */
  lemma CallTells(h: Heuristics, digest: string -> string, t: Tables, req: Request, chunkId: string)
    requires Injective(digest) && Derived(digest, t) && Ingested(h, digest, t, req).Ok?
    ensures var next := Ingested(h, digest, t, req).value;
            Derived(digest, next) &&
            (chunkId in t.chunks ==> SameFor(digest, t, next, chunkId)) &&
            (chunkId in next.chunks && chunkId !in t.chunks ==> FromCall(h, digest, next, chunkId, next.messages, req))
  {
    var next, messages := Ingested(h, digest, t, req).value, UpsertAll(t.messages, req.sessionId, req.messages).value;
    var t1 := t.(sessions := t.sessions[req.sessionId := req.session], messages := messages);
    var ms := Load(messages, req.sessionId);
    var cs := SessionChunks(h, req.sessionId, req.session, messages);
    CallKeepsCandidates(h, digest, t, req);
    SameDerived(digest, t, t1);
    ChunksWritten(h, digest, t1, req.sessionId, req.session, cs, chunkId);
    InsertChunksKeeps(h, digest, t1, req.sessionId, req.session, cs, chunkId);
    if chunkId in next.chunks && chunkId !in t.chunks {
      var c :| c in cs && c.chunkId == chunkId && Written(h, digest, next, req.sessionId, req.session, c);
      var i :| 0 <= i < |cs| && cs[i] == c;
      var run := Runs(ms)[i];
      RunsSegment(ms);
      LoadExact(messages, req.sessionId);
      RunStops(ms, i);
      IdSpelled(req.sessionId, i + 1);
      WrittenTells(h, digest, next, req.sessionId, req.session, run, i);
      assert IsRunOf(next.messages, req.sessionId, run, i);
    }
  }

  lemma RunStops(ms: seq<Message>, i: nat)
    requires i < |Runs(ms)|
    ensures OneTurn(Runs(ms)[i]) && StopsRight(Runs(ms), i)
  {
    RunsSegment(ms);
    assert Runs(ms)[i] in Runs(ms);
    if i + 1 < |Runs(ms)| {
      assert Runs(ms)[i + 1] in Runs(ms);
    }
  }

  lemma SameDerived(digest: string -> string, a: Tables, b: Tables)
    requires Derived(digest, a) && b.units == a.units && b.chunks == a.chunks
    requires b.candidates == a.candidates && b.links == a.links
    ensures Derived(digest, b)
  {
    forall chunkId: string
      ensures Promotable(b, chunkId) == Promotable(a, chunkId)
      ensures Nominated(digest, b, chunkId) == Nominated(digest, a, chunkId)
    {}
    forall id | id in b.candidates
      ensures Founded(digest, b, id)
    {
      assert Founded(digest, a, id);
      var chunkId :| Promotable(a, chunkId) && CandidateId(digest, chunkId) == id;
      assert Promotable(b, chunkId);
    }
  }

  lemma TellsStays(h: Heuristics, digest: string -> string, t: Tables, next: Tables, chunkId: string, messages: Messages,
                   req: Request)
    requires FromCall(h, digest, t, chunkId, messages, req) && SameFor(digest, t, next, chunkId)
    ensures FromCall(h, digest, next, chunkId, messages, req)
  {
    var run, i :| IsRunOf(messages, req.sessionId, run, i) &&
                  ChunkTells(h, digest, t, chunkId, req.sessionId, req.session, run, i);
    assert ChunkTells(h, digest, next, chunkId, req.sessionId, req.session, run, i);
  }

  /** The n-th call of the run was accepted, and this is what the messages were after it. */
  ghost predicate AcceptedAt(h: Heuristics, digest: string -> string, t: Tables, reqs: seq<Request>, n: nat,
                             messages: Messages)
  {
    n < |reqs| && Ingested(h, digest, RunAll(h, digest, t, reqs[..n]), reqs[n]).Ok? &&
    messages == RunAll(h, digest, t, reqs[..n + 1]).messages
  }

  /**
    After any run of calls, every stored chunk with its unit, queue entry and candidate tells of one run of the
    messages its session held after one of the accepted calls, under that call's session settings.
   */
  lemma {:induction false} StoredChunksTell(h: Heuristics, digest: string -> string, t: Tables, reqs: seq<Request>,
                                            chunkId: string) returns (n: nat, messages: Messages)
    requires Injective(digest) && Bare(t) && chunkId in RunAll(h, digest, t, reqs).chunks
    ensures AcceptedAt(h, digest, t, reqs, n, messages)
    ensures FromCall(h, digest, RunAll(h, digest, t, reqs), chunkId, messages, reqs[n])
  {
    var last := |reqs| - 1;
    var before := RunAll(h, digest, t, reqs[..last]);
    StaysDerived(h, digest, t, reqs[..last]);
    if chunkId in before.chunks {
      n, messages := StoredChunksTell(h, digest, t, reqs[..last], chunkId);
      EarlierAccepted(h, digest, t, reqs, n, messages);
      NextCallKeeps(h, digest, before, reqs[last], chunkId, messages, reqs[n]);
    } else {
      n, messages := last, RunAll(h, digest, t, reqs).messages;
      NewAtLast(h, digest, t, reqs, chunkId);
    }
  }

  lemma EarlierAccepted(h: Heuristics, digest: string -> string, t: Tables, reqs: seq<Request>, n: nat, messages: Messages)
    requires |reqs| > 0 && AcceptedAt(h, digest, t, reqs[..|reqs| - 1], n, messages)
    ensures AcceptedAt(h, digest, t, reqs, n, messages)
  {
    var earlier := reqs[..|reqs| - 1];
    assert earlier[..n] == reqs[..n] && earlier[..n + 1] == reqs[..n + 1];
  }

  lemma NewAtLast(h: Heuristics, digest: string -> string, t: Tables, reqs: seq<Request>, chunkId: string)
    requires Injective(digest) && |reqs| > 0 && Derived(digest, RunAll(h, digest, t, reqs[..|reqs| - 1]))
    requires chunkId in RunAll(h, digest, t, reqs).chunks && chunkId !in RunAll(h, digest, t, reqs[..|reqs| - 1]).chunks
    ensures AcceptedAt(h, digest, t, reqs, |reqs| - 1, RunAll(h, digest, t, reqs).messages)
    ensures FromCall(h, digest, RunAll(h, digest, t, reqs), chunkId, RunAll(h, digest, t, reqs).messages, reqs[|reqs| - 1])
  {
    CallTells(h, digest, RunAll(h, digest, t, reqs[..|reqs| - 1]), reqs[|reqs| - 1], chunkId);
    assert reqs[..|reqs| - 1 + 1] == reqs;
  }

  lemma NextCallKeeps(h: Heuristics, digest: string -> string, t: Tables, next: Request, chunkId: string,
                      messages: Messages, req: Request)
    requires Injective(digest) && Derived(digest, t) && chunkId in t.chunks
    requires FromCall(h, digest, t, chunkId, messages, req)
    ensures match Ingested(h, digest, t, next)
            case Ok(after) => FromCall(h, digest, after, chunkId, messages, req)
            case Err(_) => true
  {
    if Ingested(h, digest, t, next).Ok? {
      CallTells(h, digest, t, next, chunkId);
      TellsStays(h, digest, t, Ingested(h, digest, t, next).value, chunkId, messages, req);
    }
  }

  lemma {:induction false} StaysDerived(h: Heuristics, digest: string -> string, t: Tables, reqs: seq<Request>)
    requires Injective(digest) && Bare(t)
    ensures Derived(digest, RunAll(h, digest, t, reqs))
  {
    if |reqs| > 0 {
      var before, req := RunAll(h, digest, t, reqs[..|reqs| - 1]), reqs[|reqs| - 1];
      StaysDerived(h, digest, t, reqs[..|reqs| - 1]);
      if Ingested(h, digest, before, req).Ok? {
        CallTells(h, digest, before, req, "");
      }
    }
  }

  /** And nothing is left out: after an accepted call every run of the session has its chunk. */
  lemma EveryRunStored(h: Heuristics, digest: string -> string, t: Tables, req: Request, run: Run, i: nat)
    requires Injective(digest) && Derived(digest, t) && Ingested(h, digest, t, req).Ok?
    requires IsRunOf(Ingested(h, digest, t, req).value.messages, req.sessionId, run, i)
    ensures req.sessionId + ":v2:" + Decimal(i + 1) in Ingested(h, digest, t, req).value.chunks
  {
    var messages := UpsertAll(t.messages, req.sessionId, req.messages).value;
    var t1 := t.(sessions := t.sessions[req.sessionId := req.session], messages := messages);
    var cs := SessionChunks(h, req.sessionId, req.session, messages);
    SameDerived(digest, t, t1);
    ChunksWritten(h, digest, t1, req.sessionId, req.session, cs, "");
    InsertChunksKeeps(h, digest, t1, req.sessionId, req.session, cs, "");
    RunHasChunk(h, req.sessionId, req.session, messages, run, i);
  }

  lemma RunHasChunk(h: Heuristics, sessionId: string, session: Session, messages: Messages, run: Run, i: nat)
    requires IsRunOf(messages, sessionId, run, i)
    ensures exists c :: c in SessionChunks(h, sessionId, session, messages) &&
                        c.chunkId == sessionId + ":v2:" + Decimal(i + 1)
  {
    var ms, runs :| IsLoad(messages, sessionId, ms) && IsSegmentation(runs, ms) && i < |runs| && runs[i] == run;
    LoadUnique(messages, sessionId, ms);
    SegmentationUnique(runs, ms);
    IdSpelled(sessionId, i + 1);
    assert SessionChunks(h, sessionId, session, messages)[i] in SessionChunks(h, sessionId, session, messages);
  }

  // ---------------------------------------------------------------- messages

  /** The last message of the request at its sequence number. */
  ghost predicate LastAt(ms: seq<Message>, i: nat) {
    i < |ms| && forall k :: i < k < |ms| ==> ms[k].seqNo != ms[i].seqNo
  }

  /** The first one. */
  ghost predicate FirstMessageAt(ms: seq<Message>, i: nat) {
    i < |ms| && forall k :: 0 <= k < i ==> ms[k].seqNo != ms[i].seqNo
  }

  /** The id a new row gets: its own, or the session and sequence number. */
  predicate NewIdIs(sessionId: string, m: Message, id: string) {
    if m.messageId == "" then id == sessionId + ":" + IntText(m.seqNo) else id == m.messageId
  }

  lemma {:induction false} OtherRowsStay(table: Messages, sessionId: string, ms: seq<Message>, k: Key)
    requires UpsertAll(table, sessionId, ms).Ok? && forall m :: m in ms ==> k != Key(sessionId, m.seqNo)
    ensures Lookup(UpsertAll(table, sessionId, ms).value, k) == Lookup(table, k)
  {
    if |ms| > 0 {
      assert ms[|ms| - 1] in ms;
      OtherRowsStay(table, sessionId, ms[..|ms| - 1], k);
    }
  }

  lemma UpsertedRow(table: Messages, sessionId: string, m: Message)
    requires UpsertMessage(table, sessionId, m).Ok?
    ensures var after, key := UpsertMessage(table, sessionId, m).value, Key(sessionId, m.seqNo);
            after.Keys == table.Keys + {key} && after[key] == m.(messageId := after[key].messageId) &&
            (key in table ==> after[key].messageId == table[key].messageId) &&
            (key !in table ==> NewIdIs(sessionId, m, after[key].messageId)) &&
            forall k :: k in table && k != key ==> after[k] == table[k]
  {}

  /** An accepted request leaves, at each of its sequence numbers, the last message it holds for it. */
  lemma {:induction false} LastMessageStored(table: Messages, sessionId: string, ms: seq<Message>, i: nat)
    requires UpsertAll(table, sessionId, ms).Ok? && LastAt(ms, i)
    ensures var key, after := Key(sessionId, ms[i].seqNo), UpsertAll(table, sessionId, ms).value;
            key in after && after[key] == ms[i].(messageId := after[key].messageId)
  {
    var before, last := ms[..|ms| - 1], ms[|ms| - 1];
    UpsertedRow(UpsertAll(table, sessionId, before).value, sessionId, last);
    if i < |before| {
      assert before[i] == ms[i] && ms[|ms| - 1].seqNo != ms[i].seqNo;
      LastMessageStored(table, sessionId, before, i);
    }
  }

  /** It is stored under the id that came first: the stored one, or that of the first message for a new row. */
  lemma {:induction false} FirstIdStored(table: Messages, sessionId: string, ms: seq<Message>, i: nat)
    requires UpsertAll(table, sessionId, ms).Ok? && FirstMessageAt(ms, i)
    ensures var key, after := Key(sessionId, ms[i].seqNo), UpsertAll(table, sessionId, ms).value;
            key in after &&
            if key in table then after[key].messageId == table[key].messageId
            else NewIdIs(sessionId, ms[i], after[key].messageId)
  {
    var before, last := ms[..|ms| - 1], ms[|ms| - 1];
    UpsertedRow(UpsertAll(table, sessionId, before).value, sessionId, last);
    if i < |before| {
      assert before[i] == ms[i];
      FirstIdStored(table, sessionId, before, i);
    } else {
      forall m | m in before
        ensures Key(sessionId, ms[i].seqNo) != Key(sessionId, m.seqNo)
      {
        var k :| 0 <= k < |before| && before[k] == m;
        assert ms[k].seqNo != ms[i].seqNo;
      }
      OtherRowsStay(table, sessionId, before, Key(sessionId, ms[i].seqNo));
    }
  }

  /** Message i cannot be stored after the ones before it. */
  ghost predicate Offends(table: Messages, sessionId: string, ms: seq<Message>, i: nat, e: IngestError) {
    i < |ms| && UpsertAll(table, sessionId, ms[..i]).Ok? &&
    var stored, key := UpsertAll(table, sessionId, ms[..i]).value, Key(sessionId, ms[i].seqNo);
    if key in stored then stored[key].content != ms[i].content && e == SeqReused(ms[i].seqNo)
    else exists k, id :: k in stored && stored[k].messageId == id && NewIdIs(sessionId, ms[i], id) && e == MessageIdTaken(id)
  }

  /** A refused request is refused for the first message that cannot be stored. */
  lemma {:induction false} RefusedForFirst(table: Messages, sessionId: string, ms: seq<Message>) returns (i: nat)
    requires UpsertAll(table, sessionId, ms).Err?
    ensures Offends(table, sessionId, ms, i, UpsertAll(table, sessionId, ms).error)
  {
    var before := ms[..|ms| - 1];
    if UpsertAll(table, sessionId, before).Err? {
      i := RefusedForFirst(table, sessionId, before);
      assert before[..i] == ms[..i];
    } else {
      i := |ms| - 1;
      assert ms[..i] == before;
    }
  }

  /** A call fails on its header first, and then for a message; otherwise it commits, with its session as given. */
  lemma IngestIff(h: Heuristics, digest: string -> string, t: Tables, req: Request)
    ensures match Ingested(h, digest, t, req)
            case Ok(next) =>
              "" !in {req.sessionId, req.session.sourceKind, req.session.namespace} && req.messages != [] &&
              next.sessions == t.sessions[req.sessionId := req.session] &&
              UpsertAll(t.messages, req.sessionId, req.messages) == Ok(next.messages)
            case Err(e) =>
              if req.sessionId == "" then e == SessionIdRequired
              else if req.session.sourceKind == "" then e == SourceKindRequired
              else if req.session.namespace == "" then e == NamespaceRequired
              else if req.messages == [] then e == MessagesRequired
              else exists i: nat :: Offends(t.messages, req.sessionId, req.messages, i, e)
  {
    var upserted := UpsertAll(t.messages, req.sessionId, req.messages);
    if Validate(req).None? {
      if upserted.Err? {
        var i := RefusedForFirst(t.messages, req.sessionId, req.messages);
      } else {
        var t1 := t.(sessions := t.sessions[req.sessionId := req.session], messages := upserted.value);
        InsertChunksKeeps(h, digest, t1, req.sessionId, req.session,
                          SessionChunks(h, req.sessionId, req.session, upserted.value), "");
      }
    }
  }
}
