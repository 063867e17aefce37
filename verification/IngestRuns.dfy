/** Properties of whole runs of ingest calls. */
module IngestRuns {
  import opened Prelude
  import opened Numerals
  import opened Records
  import opened Chunking
  import opened Ingest

  // ---------------------------------------------------------------- transcripts never change

  /** A run of calls; a failed call leaves the tables alone. */
  ghost function RunAll(h: Heuristics, digest: string -> string, t: Tables, reqs: seq<Request>): Tables {
    if |reqs| == 0 then t
    else
      var before := RunAll(h, digest, t, reqs[..|reqs| - 1]);
      match Ingested(h, digest, before, reqs[|reqs| - 1])
      case Ok(after) => after
      case Err(_) => before
  }

  /** Whatever calls follow, a stored message keeps its content and a stored chunk its whole row. */
  lemma {:induction false} StoredNeverChanges(h: Heuristics, digest: string -> string, t: Tables, reqs: seq<Request>,
                                              key: Key, chunkId: string)
    ensures key in t.messages ==>
              key in RunAll(h, digest, t, reqs).messages &&
              RunAll(h, digest, t, reqs).messages[key].content == t.messages[key].content
    ensures chunkId in t.chunks ==>
              chunkId in RunAll(h, digest, t, reqs).chunks &&
              RunAll(h, digest, t, reqs).chunks[chunkId] == t.chunks[chunkId]
  {
    if |reqs| > 0 {
      var before, req := RunAll(h, digest, t, reqs[..|reqs| - 1]), reqs[|reqs| - 1];
      StoredNeverChanges(h, digest, t, reqs[..|reqs| - 1], key, chunkId);
      var upserted := UpsertAll(before.messages, req.sessionId, req.messages);
      if upserted.Ok? {
        if key in before.messages {
          UpsertKeepsContent(before.messages, req.sessionId, req.messages, key);
        }
        var t1 := before.(sessions := before.sessions[req.sessionId := req.session], messages := upserted.value);
        InsertChunksKeeps(h, digest, t1, req.sessionId, req.session,
                          SessionChunks(h, req.sessionId, req.session, upserted.value), chunkId);
      }
    }
  }

  lemma {:induction false} UpsertKeepsContent(table: Messages, sessionId: string, ms: seq<Message>, key: Key)
    requires key in table && UpsertAll(table, sessionId, ms).Ok?
    ensures key in UpsertAll(table, sessionId, ms).value
    ensures UpsertAll(table, sessionId, ms).value[key].content == table[key].content
  {
    if |ms| > 0 {
      UpsertKeepsContent(table, sessionId, ms[..|ms| - 1], key);
    }
  }

  lemma {:induction false} InsertChunksKeeps(h: Heuristics, digest: string -> string, t: Tables, sessionId: string,
                                             session: Session, cs: seq<Chunk>, chunkId: string)
    ensures InsertChunks(h, digest, t, sessionId, session, cs).messages == t.messages
    ensures InsertChunks(h, digest, t, sessionId, session, cs).sessions == t.sessions
    ensures chunkId in t.chunks ==>
              chunkId in InsertChunks(h, digest, t, sessionId, session, cs).chunks &&
              InsertChunks(h, digest, t, sessionId, session, cs).chunks[chunkId] == t.chunks[chunkId]
  {
    if |cs| > 0 {
      InsertChunksKeeps(h, digest, t, sessionId, session, cs[..|cs| - 1], chunkId);
    }
  }

  // ---------------------------------------------------------------- candidates follow chunks

  predicate Promotable(t: Tables, chunkId: string) {
    chunkId in t.chunks && PromotionKind(t.chunks[chunkId].chunkKind)
  }

  /** The candidate of a chunk is stored and linked to that chunk alone. */
  predicate Nominated(digest: string -> string, t: Tables, chunkId: string) {
    var id := CandidateId(digest, chunkId);
    id in t.candidates && id in t.links && t.links[id] == [chunkId]
  }

  /** The candidate is that of a stored chunk of a promotable kind. */
  ghost predicate Founded(digest: string -> string, t: Tables, id: string) {
    exists chunkId :: Promotable(t, chunkId) && CandidateId(digest, chunkId) == id
  }

  /** Candidates and promotable chunks correspond, each candidate linked to its own chunk. */
  ghost predicate CandidatesMatch(digest: string -> string, t: Tables) {
    (forall chunkId :: Promotable(t, chunkId) ==> Nominated(digest, t, chunkId)) &&
    (forall id :: id in t.candidates ==> Founded(digest, t, id))
  }

  /** Every candidate row and its links are as they were. */
  ghost predicate CandidatesKept(t: Tables, next: Tables) {
    forall id :: id in t.candidates ==> CandidateKept(t, next, id)
  }

  predicate CandidateKept(t: Tables, next: Tables, id: string) {
    id in next.candidates && Lookup(next.candidates, id) == Lookup(t.candidates, id) &&
    Lookup(next.links, id) == Lookup(t.links, id)
  }

  lemma ChunkKeepsCandidates(h: Heuristics, digest: string -> string, t: Tables, sessionId: string, session: Session,
                             c: Chunk)
    requires Injective(digest) && CandidatesMatch(digest, t)
    ensures var next := InsertChunk(h, digest, t, sessionId, session, c);
            CandidatesMatch(digest, next) && CandidatesKept(t, next)
  {
    var next := InsertChunk(h, digest, t, sessionId, session, c);
    ChunkTouchesOwn(h, digest, t, sessionId, session, c);
    forall id | id in t.candidates
      ensures CandidateKept(t, next, id) && Founded(digest, next, id)
    {
      ChunkKeepsCandidate(h, digest, t, sessionId, session, c, id);
      var chunkId :| Promotable(t, chunkId) && CandidateId(digest, chunkId) == id;
      assert Promotable(next, chunkId);
    }
    forall chunkId | Promotable(next, chunkId)
      ensures Nominated(digest, next, chunkId)
    {
      assert Promotable(t, chunkId) ==>
        Nominated(digest, t, chunkId) && CandidateKept(t, next, CandidateId(digest, chunkId));
    }
    forall id | id in next.candidates && id !in t.candidates
      ensures Founded(digest, next, id)
    {
      assert Promotable(next, c.chunkId);
    }
  }

  /** A chunk adds itself, and its candidate if it is of a promotable kind and new. */
  lemma ChunkTouchesOwn(h: Heuristics, digest: string -> string, t: Tables, sessionId: string, session: Session,
                        c: Chunk)
    ensures var next := InsertChunk(h, digest, t, sessionId, session, c);
            (forall chunkId :: Promotable(t, chunkId) ==> Promotable(next, chunkId)) &&
            (forall chunkId :: Promotable(next, chunkId) && !Promotable(t, chunkId) ==>
              chunkId == c.chunkId && Nominated(digest, next, chunkId)) &&
            (forall id :: id in next.candidates && id !in t.candidates ==>
              id == CandidateId(digest, c.chunkId) && Promotable(next, c.chunkId))
  {}

  lemma ChunkKeepsCandidate(h: Heuristics, digest: string -> string, t: Tables, sessionId: string, session: Session,
                            c: Chunk, id: string)
    requires Injective(digest) && id in t.candidates && Founded(digest, t, id)
    ensures CandidateKept(t, InsertChunk(h, digest, t, sessionId, session, c), id)
  {
    var chunkId :| Promotable(t, chunkId) && CandidateId(digest, chunkId) == id;
    if CandidateId(digest, c.chunkId) == id {
      CandidateIdInjective(digest, c.chunkId, chunkId);
    }
  }

  lemma {:induction false} ChunksKeepCandidates(h: Heuristics, digest: string -> string, t: Tables, sessionId: string,
                                                session: Session, cs: seq<Chunk>)
    requires Injective(digest) && CandidatesMatch(digest, t)
    ensures var next := InsertChunks(h, digest, t, sessionId, session, cs);
            CandidatesMatch(digest, next) && CandidatesKept(t, next)
  {
    if |cs| > 0 {
      var before := cs[..|cs| - 1];
      ChunksKeepCandidates(h, digest, t, sessionId, session, before);
      var middle := InsertChunks(h, digest, t, sessionId, session, before);
      ChunkKeepsCandidates(h, digest, middle, sessionId, session, cs[|cs| - 1]);
      KeptTwice(t, middle, InsertChunks(h, digest, t, sessionId, session, cs));
    }
  }

  lemma KeptTwice(a: Tables, b: Tables, c: Tables)
    requires CandidatesKept(a, b) && CandidatesKept(b, c)
    ensures CandidatesKept(a, c)
  {
    forall id | id in a.candidates
      ensures CandidateKept(a, c, id)
    {
      assert CandidateKept(a, b, id) && CandidateKept(b, c, id);
    }
  }

  /**
    Over any run of calls the candidates are those of the stored chunks of promotable kinds, each linked to its
    own chunk alone, and no call touches a candidate that is there, reviewed or not.
   */
  lemma {:induction false} CandidatesFollowChunks(h: Heuristics, digest: string -> string, t: Tables, reqs: seq<Request>)
    requires Injective(digest) && CandidatesMatch(digest, t)
    ensures CandidatesMatch(digest, RunAll(h, digest, t, reqs)) && CandidatesKept(t, RunAll(h, digest, t, reqs))
  {
    if |reqs| > 0 {
      var before, req := RunAll(h, digest, t, reqs[..|reqs| - 1]), reqs[|reqs| - 1];
      CandidatesFollowChunks(h, digest, t, reqs[..|reqs| - 1]);
      CallKeepsCandidates(h, digest, before, req);
      if Ingested(h, digest, before, req).Ok? {
        KeptTwice(t, before, Ingested(h, digest, before, req).value);
      }
    }
  }

  lemma CallKeepsCandidates(h: Heuristics, digest: string -> string, t: Tables, req: Request)
    requires Injective(digest) && CandidatesMatch(digest, t)
    ensures match Ingested(h, digest, t, req)
            case Ok(next) => CandidatesMatch(digest, next) && CandidatesKept(t, next)
            case Err(_) => true
  {
    var upserted := UpsertAll(t.messages, req.sessionId, req.messages);
    if upserted.Ok? {
      var t1 := t.(sessions := t.sessions[req.sessionId := req.session], messages := upserted.value);
      forall chunkId: string
        ensures Promotable(t1, chunkId) == Promotable(t, chunkId)
        ensures Nominated(digest, t1, chunkId) == Nominated(digest, t, chunkId)
      {}
      forall id | id in t1.candidates
        ensures Founded(digest, t1, id)
      {
        var chunkId :| Promotable(t, chunkId) && CandidateId(digest, chunkId) == id;
        assert Promotable(t1, chunkId);
      }
      ChunksKeepCandidates(h, digest, t1, req.sessionId, req.session,
                           SessionChunks(h, req.sessionId, req.session, upserted.value));
      if Ingested(h, digest, t, req).Ok? {
        SameCandidates(t, t1, Ingested(h, digest, t, req).value);
      }
    }
  }

  lemma SameCandidates(a: Tables, b: Tables, c: Tables)
    requires a.candidates == b.candidates && a.links == b.links && CandidatesKept(b, c)
    ensures CandidatesKept(a, c)
  {
    forall id | id in a.candidates
      ensures CandidateKept(a, c, id)
    {
      assert CandidateKept(b, c, id);
    }
  }

  // ---------------------------------------------------------------- when a call is refused

  /** The first message of the request at its sequence number, new to the session: the one that inserts a row. */
  ghost predicate Inserts(table: Messages, sessionId: string, ms: seq<Message>, i: nat)
    requires i < |ms|
  {
    Key(sessionId, ms[i].seqNo) !in table && forall k :: 0 <= k < i ==> ms[k].seqNo != ms[i].seqNo
  }

  /** Two contents claim one sequence number, be it a stored one and a new one or two of the request. */
  ghost predicate ContentClash(table: Messages, sessionId: string, ms: seq<Message>) {
    (exists i :: 0 <= i < |ms| && Key(sessionId, ms[i].seqNo) in table &&
                 table[Key(sessionId, ms[i].seqNo)].content != ms[i].content) ||
    (exists i, j :: 0 <= i < j < |ms| && ms[i].seqNo == ms[j].seqNo && ms[i].content != ms[j].content)
  }

  /** A row to insert carries an id that another row has. */
  ghost predicate IdClash(table: Messages, sessionId: string, ms: seq<Message>) {
    exists i :: 0 <= i < |ms| && IdClashAt(table, sessionId, ms, i)
  }

  /** Message i would be inserted under an id in use. */
  ghost predicate IdClashAt(table: Messages, sessionId: string, ms: seq<Message>, i: nat)
    requires i < |ms|
  {
    Inserts(table, sessionId, ms, i) && IdTakenAt(table, sessionId, ms, i)
  }

  ghost predicate IdTakenAt(table: Messages, sessionId: string, ms: seq<Message>, i: nat)
    requires i < |ms|
  {
    var id := Stored(sessionId, ms[i]).messageId;
    IdUsed(table, id) ||
    exists k :: 0 <= k < i && Inserts(table, sessionId, ms, k) && Stored(sessionId, ms[k]).messageId == id
  }

  /** What the table holds after the messages, as long as no message was refused. */
  ghost predicate Upserted(table: Messages, sessionId: string, ms: seq<Message>, after: Messages) {
    KeepsRows(table, after) && HoldsContents(sessionId, ms, after) &&
    OnlyInserts(table, sessionId, ms, after) && InsertsAll(table, sessionId, ms, after)
  }

  ghost predicate KeepsRows(table: Messages, after: Messages) {
    forall k :: k in table ==> k in after && after[k].content == table[k].content &&
                               after[k].messageId == table[k].messageId
  }

  ghost predicate HoldsContents(sessionId: string, ms: seq<Message>, after: Messages) {
    forall m :: m in ms ==> Key(sessionId, m.seqNo) in after && after[Key(sessionId, m.seqNo)].content == m.content
  }

  ghost predicate OnlyInserts(table: Messages, sessionId: string, ms: seq<Message>, after: Messages) {
    forall k :: k in after && k !in table ==> IsInserted(table, sessionId, ms, k, after[k].messageId)
  }

  ghost predicate InsertsAll(table: Messages, sessionId: string, ms: seq<Message>, after: Messages) {
    forall i :: 0 <= i < |ms| && Inserts(table, sessionId, ms, i) ==>
                  Key(sessionId, ms[i].seqNo) in after &&
                  after[Key(sessionId, ms[i].seqNo)].messageId == Stored(sessionId, ms[i]).messageId
  }

  ghost predicate IsInserted(table: Messages, sessionId: string, ms: seq<Message>, k: Key, messageId: string) {
    exists i :: 0 <= i < |ms| && Inserts(table, sessionId, ms, i) && Key(sessionId, ms[i].seqNo) == k &&
                Stored(sessionId, ms[i]).messageId == messageId
  }

  /** The last message contradicts a stored or an earlier content. */
  ghost predicate LastClashes(table: Messages, sessionId: string, ms: seq<Message>)
    requires |ms| > 0
  {
    var m := ms[|ms| - 1];
    (Key(sessionId, m.seqNo) in table && table[Key(sessionId, m.seqNo)].content != m.content) ||
    (exists i :: 0 <= i < |ms| - 1 && ms[i].seqNo == m.seqNo && ms[i].content != m.content)
  }

  lemma ContentClashLast(table: Messages, sessionId: string, ms: seq<Message>)
    requires |ms| > 0
    ensures ContentClash(table, sessionId, ms) <==>
            ContentClash(table, sessionId, ms[..|ms| - 1]) || LastClashes(table, sessionId, ms)
  {
    var before := ms[..|ms| - 1];
    assert forall i :: 0 <= i < |before| ==> before[i] == ms[i];
    if LastClashes(table, sessionId, ms) {
      var m := ms[|ms| - 1];
      if i :| 0 <= i < |ms| - 1 && ms[i].seqNo == m.seqNo && ms[i].content != m.content {
        assert ms[i].seqNo == ms[|ms| - 1].seqNo;
      }
    }
  }

  lemma InsertsPrefix(table: Messages, sessionId: string, ms: seq<Message>, i: nat)
    requires i < |ms| - 1
    ensures Inserts(table, sessionId, ms[..|ms| - 1], i) <==> Inserts(table, sessionId, ms, i)
  {
    assert forall k :: 0 <= k <= i ==> ms[..|ms| - 1][k] == ms[k];
  }

  lemma IdTakenPrefix(table: Messages, sessionId: string, ms: seq<Message>, i: nat)
    requires i < |ms| - 1
    ensures IdTakenAt(table, sessionId, ms[..|ms| - 1], i) <==> IdTakenAt(table, sessionId, ms, i)
  {
    forall k | 0 <= k <= i
      ensures Inserts(table, sessionId, ms[..|ms| - 1], k) <==> Inserts(table, sessionId, ms, k)
      ensures ms[..|ms| - 1][k] == ms[k]
    {
      InsertsPrefix(table, sessionId, ms, k);
    }
  }

  lemma IdClashLast(table: Messages, sessionId: string, ms: seq<Message>)
    requires |ms| > 0
    ensures IdClash(table, sessionId, ms) <==>
            IdClash(table, sessionId, ms[..|ms| - 1]) || IdClashAt(table, sessionId, ms, |ms| - 1)
  {
    var before := ms[..|ms| - 1];
    forall i | 0 <= i < |before|
      ensures IdClashAt(table, sessionId, before, i) <==> IdClashAt(table, sessionId, ms, i)
    {
      InsertsPrefix(table, sessionId, ms, i);
      IdTakenPrefix(table, sessionId, ms, i);
    }
    if i :| 0 <= i < |before| && IdClashAt(table, sessionId, before, i) {
      assert IdClashAt(table, sessionId, ms, i);
    }
    if i :| 0 <= i < |ms| && IdClashAt(table, sessionId, ms, i) {
      assert i < |before| ==> IdClashAt(table, sessionId, before, i);
    }
  }

  lemma KeyStoredIff(table: Messages, sessionId: string, ms: seq<Message>, stored: Messages)
    requires |ms| > 0 && Upserted(table, sessionId, ms[..|ms| - 1], stored)
    ensures Key(sessionId, ms[|ms| - 1].seqNo) in stored <==> !Inserts(table, sessionId, ms, |ms| - 1)
  {
    var before := ms[..|ms| - 1];
    assert forall i :: 0 <= i < |before| ==> before[i] == ms[i];
  }

  lemma ContentMatchesIff(table: Messages, sessionId: string, ms: seq<Message>, stored: Messages)
    requires |ms| > 0 && Upserted(table, sessionId, ms[..|ms| - 1], stored)
    requires Key(sessionId, ms[|ms| - 1].seqNo) in stored
    ensures stored[Key(sessionId, ms[|ms| - 1].seqNo)].content == ms[|ms| - 1].content <==>
            !LastClashes(table, sessionId, ms)
  {
    var before := ms[..|ms| - 1];
    KeyStoredIff(table, sessionId, ms, stored);
    assert forall i :: 0 <= i < |before| ==> before[i] == ms[i];
  }

  lemma IdStoredIff(table: Messages, sessionId: string, ms: seq<Message>, stored: Messages)
    requires |ms| > 0 && Upserted(table, sessionId, ms[..|ms| - 1], stored)
    ensures IdUsed(stored, Stored(sessionId, ms[|ms| - 1]).messageId) <==>
            IdTakenAt(table, sessionId, ms, |ms| - 1)
  {
    var before, id := ms[..|ms| - 1], Stored(sessionId, ms[|ms| - 1]).messageId;
    forall i | 0 <= i < |before|
      ensures before[i] == ms[i]
      ensures Inserts(table, sessionId, before, i) <==> Inserts(table, sessionId, ms, i)
    {
      InsertsPrefix(table, sessionId, ms, i);
    }
    if k :| k in stored && stored[k].messageId == id {
      if k !in table {
        assert IsInserted(table, sessionId, before, k, id);
      }
    }
    if k :| 0 <= k < |ms| - 1 && Inserts(table, sessionId, ms, k) && Stored(sessionId, ms[k]).messageId == id {
      assert Inserts(table, sessionId, before, k);
      assert stored[Key(sessionId, before[k].seqNo)].messageId == id;
    }
  }

  lemma UpsertedLast(table: Messages, sessionId: string, ms: seq<Message>, stored: Messages, after: Messages)
    requires |ms| > 0 && Upserted(table, sessionId, ms[..|ms| - 1], stored)
    requires UpsertMessage(stored, sessionId, ms[|ms| - 1]) == Ok(after)
    ensures Upserted(table, sessionId, ms, after)
  {
    ContentsLast(table, sessionId, ms, stored, after);
    OnlyInsertsLast(table, sessionId, ms, stored, after);
    InsertsAllLast(table, sessionId, ms, stored, after);
  }

  lemma ContentsLast(table: Messages, sessionId: string, ms: seq<Message>, stored: Messages, after: Messages)
    requires |ms| > 0 && KeepsRows(table, stored) && HoldsContents(sessionId, ms[..|ms| - 1], stored)
    requires UpsertMessage(stored, sessionId, ms[|ms| - 1]) == Ok(after)
    ensures KeepsRows(table, after) && HoldsContents(sessionId, ms, after)
  {
    assert ms == ms[..|ms| - 1] + [ms[|ms| - 1]];
  }

  lemma OnlyInsertsLast(table: Messages, sessionId: string, ms: seq<Message>, stored: Messages, after: Messages)
    requires |ms| > 0 && Upserted(table, sessionId, ms[..|ms| - 1], stored)
    requires UpsertMessage(stored, sessionId, ms[|ms| - 1]) == Ok(after)
    ensures OnlyInserts(table, sessionId, ms, after)
  {
    KeyStoredIff(table, sessionId, ms, stored);
    forall k | k in after && k !in table
      ensures IsInserted(table, sessionId, ms, k, after[k].messageId)
    {
      if k in stored {
        StillInserted(table, sessionId, ms, k, stored[k].messageId);
      } else {
        assert Inserts(table, sessionId, ms, |ms| - 1);
      }
    }
  }

  lemma InsertsAllLast(table: Messages, sessionId: string, ms: seq<Message>, stored: Messages, after: Messages)
    requires |ms| > 0 && Upserted(table, sessionId, ms[..|ms| - 1], stored)
    requires UpsertMessage(stored, sessionId, ms[|ms| - 1]) == Ok(after)
    ensures InsertsAll(table, sessionId, ms, after)
  {
    KeyStoredIff(table, sessionId, ms, stored);
    forall i | 0 <= i < |ms| && Inserts(table, sessionId, ms, i)
      ensures Key(sessionId, ms[i].seqNo) in after
      ensures after[Key(sessionId, ms[i].seqNo)].messageId == Stored(sessionId, ms[i]).messageId
    {
      if i < |ms| - 1 {
        InsertsPrefix(table, sessionId, ms, i);
        assert ms[..|ms| - 1][i] == ms[i];
      }
    }
  }

  lemma StillInserted(table: Messages, sessionId: string, ms: seq<Message>, k: Key, messageId: string)
    requires |ms| > 0 && IsInserted(table, sessionId, ms[..|ms| - 1], k, messageId)
    ensures IsInserted(table, sessionId, ms, k, messageId)
  {
    var before := ms[..|ms| - 1];
    var i :| 0 <= i < |before| && Inserts(table, sessionId, before, i) && Key(sessionId, before[i].seqNo) == k &&
             Stored(sessionId, before[i]).messageId == messageId;
    InsertsPrefix(table, sessionId, ms, i);
    assert before[i] == ms[i];
  }

  /** A request is accepted exactly when neither kind of clash occurs. */
  lemma {:induction false} AcceptedIff(table: Messages, sessionId: string, ms: seq<Message>)
    ensures UpsertAll(table, sessionId, ms).Ok? <==>
            !ContentClash(table, sessionId, ms) && !IdClash(table, sessionId, ms)
    ensures UpsertAll(table, sessionId, ms).Ok? ==>
              Upserted(table, sessionId, ms, UpsertAll(table, sessionId, ms).value)
  {
    if |ms| > 0 {
      var before, last := ms[..|ms| - 1], |ms| - 1;
      AcceptedIff(table, sessionId, before);
      ContentClashLast(table, sessionId, ms);
      IdClashLast(table, sessionId, ms);
      if UpsertAll(table, sessionId, before).Ok? {
        var stored := UpsertAll(table, sessionId, before).value;
        KeyStoredIff(table, sessionId, ms, stored);
        IdStoredIff(table, sessionId, ms, stored);
        if LastClashes(table, sessionId, ms) {
          LastClashNeedsRow(table, sessionId, ms);
        }
        if Key(sessionId, ms[last].seqNo) in stored {
          ContentMatchesIff(table, sessionId, ms, stored);
        }
        if UpsertMessage(stored, sessionId, ms[last]).Ok? {
          UpsertedLast(table, sessionId, ms, stored, UpsertMessage(stored, sessionId, ms[last]).value);
        }
      }
    }
  }

  lemma LastClashNeedsRow(table: Messages, sessionId: string, ms: seq<Message>)
    requires |ms| > 0 && LastClashes(table, sessionId, ms)
    ensures !Inserts(table, sessionId, ms, |ms| - 1)
  {}
}
