/**
  Delivering a transcript in pieces. When every piece ends at a clean cut the tables end up as
  after a single call; for two calls that condition is also necessary.
 */
module IngestIncremental {
  import opened Prelude
  import opened Numerals
  import opened Records
  import opened Chunking
  import opened Ingest
  import opened IngestRuns

  // ---------------------------------------------------------------- transcripts and deliveries

  /** The rows of a session, new to `base`: distinct sequence numbers and ids, the ids unused elsewhere. */
  ghost predicate Transcript(base: Messages, sessionId: string, rows: seq<Message>) {
    StrictlySortedBySeq(rows) &&
    (forall k :: k in base ==> k.sessionId != sessionId) &&
    (forall i, j :: 0 <= i < j < |rows| ==> rows[i].messageId != rows[j].messageId) &&
    (forall m :: m in rows ==> m.messageId != "" && !IdUsed(base, m.messageId))
  }

  /** A transcript about to be delivered to a store, with the session metadata that every call repeats. */
  datatype SettingData = Setting(h: Heuristics, digest: string -> string, start: Tables,
                                 sessionId: string, session: Session, rows: seq<Message>)
  {
    ghost predicate Valid() {
      Transcript(start.messages, sessionId, rows) &&
      sessionId != "" && session.sourceKind != "" && session.namespace != ""
    }
  }

  type Setting = s: SettingData | s.Valid()
    ghost witness Setting(Heuristics(_ => "", _ => false, (_, _) => ""), _ => "",
                          Tables(map[], map[], map[], map[], [], map[], map[]),
                          "s", Session("k", "n", "", "", "", ""), [])

  /** `table` is `base` plus exactly these rows. */
  ghost predicate Holds(base: Messages, sessionId: string, rows: seq<Message>, table: Messages) {
    (forall k :: k in base ==> k in table && table[k] == base[k]) &&
    (forall k :: k in table && k !in base ==> HasSeq(rows, k.seqNo) && k.sessionId == sessionId) &&
    (forall m :: m in rows ==> Key(sessionId, m.seqNo) in table && table[Key(sessionId, m.seqNo)] == m)
  }

  ghost predicate HasSeq(rows: seq<Message>, seqNo: int) {
    exists m :: m in rows && m.seqNo == seqNo
  }

  /** A batch brings every row between two cuts, and may resend earlier ones, in any order. */
  ghost predicate Brings(sessionId: string, rows: seq<Message>, from: nat, to: nat, batch: seq<Message>)
    requires from <= to <= |rows|
  {
    |batch| > 0 &&
    (forall b :: b in batch ==> Stored(sessionId, b) in rows[..to]) &&
    (forall m :: m in rows[from..to] ==> exists b :: b in batch && Stored(sessionId, b) == m)
  }

  /** A delivery in any number of calls; each brings the rows up to its cut. */
  datatype Delivery = Undelivered | Then(before: Delivery, cut: nat, batch: seq<Message>)
  {
    function UpTo(): nat {
      if Undelivered? then 0 else cut
    }

    /** Every call brings what follows the cut of the one before, and may resend what came earlier. */
    ghost predicate Ordered(sessionId: string, rows: seq<Message>) {
      Then? ==>
        before.Ordered(sessionId, rows) && before.UpTo() <= cut <= |rows| &&
        Brings(sessionId, rows, before.UpTo(), cut, batch)
    }

    /** Every call but the last ends at a clean cut. */
    ghost predicate CleanCuts(rows: seq<Message>) {
      Then? ==> before.CleanCuts(rows) && before.UpTo() <= |rows| && CleanCut(rows, before.UpTo())
    }

    ghost predicate Clean(sessionId: string, rows: seq<Message>) {
      Ordered(sessionId, rows) && CleanCuts(rows)
    }
  }

  ghost function RunCalls(s: SettingData, d: Delivery): Result<Tables, IngestError> {
    if d.Undelivered? then Ok(s.start)
    else
      match RunCalls(s, d.before)
      case Err(e) => Err(e)
      case Ok(t) => CallOn(s, t, d.batch)
  }

  ghost function CallOn(s: SettingData, before: Tables, batch: seq<Message>): Result<Tables, IngestError> {
    Ingested(s.h, s.digest, before, Request(s.sessionId, s.session, batch))
  }

  // ---------------------------------------------------------------- the message phase

  lemma SameSeqSameRow(rows: seq<Message>, a: Message, b: Message)
    requires StrictlySortedBySeq(rows) && a in rows && b in rows && a.seqNo == b.seqNo
    ensures a == b
  {}

  lemma OtherRowOtherId(base: Messages, sessionId: string, rows: seq<Message>, a: Message, b: Message)
    requires Transcript(base, sessionId, rows) && a in rows && b in rows && a != b
    ensures a.messageId != b.messageId
  {}

  lemma UpsertOneRow(base: Messages, sessionId: string, rows: seq<Message>, held: seq<Message>, table: Messages, b: Message)
    requires Transcript(base, sessionId, rows) && Holds(base, sessionId, held, table)
    requires (forall m :: m in held ==> m in rows) && Stored(sessionId, b) in rows
    ensures UpsertMessage(table, sessionId, b).Ok?
    ensures Holds(base, sessionId, held + [Stored(sessionId, b)], UpsertMessage(table, sessionId, b).value)
  {
    var key, row := Key(sessionId, b.seqNo), Stored(sessionId, b);
    var more := held + [row];
    forall k | HasSeq(held, k)
      ensures HasSeq(more, k)
    {
      var m :| m in held && m.seqNo == k;
      assert m in more;
    }
    assert row in more && HasSeq(more, b.seqNo);
    if key in table {
      var m :| m in held && m.seqNo == b.seqNo;
      SameSeqSameRow(rows, m, row);
      assert UpsertMessage(table, sessionId, b) == Ok(table[key := row]);
    } else {
      forall k | k in table
        ensures table[k].messageId != row.messageId
      {
        OtherKeyOtherId(base, sessionId, rows, held, table, row, k);
      }
    }
  }

  lemma OtherKeyOtherId(base: Messages, sessionId: string, rows: seq<Message>, held: seq<Message>, table: Messages,
                        row: Message, k: Key)
    requires Transcript(base, sessionId, rows) && Holds(base, sessionId, held, table)
    requires (forall m :: m in held ==> m in rows) && row in rows
    requires k in table && Key(sessionId, row.seqNo) !in table
    ensures table[k].messageId != row.messageId
  {
    if k in base {
      assert !IdUsed(base, row.messageId);
    } else {
      var m :| m in held && m.seqNo == k.seqNo;
      OtherRowOtherId(base, sessionId, rows, m, row);
    }
  }

  lemma {:induction false} UpsertBatch(base: Messages, sessionId: string, rows: seq<Message>, held: seq<Message>,
                                       table: Messages, batch: seq<Message>) returns (all: seq<Message>)
    requires Transcript(base, sessionId, rows) && Holds(base, sessionId, held, table)
    requires forall m :: m in held ==> m in rows
    requires forall b :: b in batch ==> Stored(sessionId, b) in rows
    ensures UpsertAll(table, sessionId, batch).Ok?
    ensures Holds(base, sessionId, all, UpsertAll(table, sessionId, batch).value)
    ensures forall m :: m in all <==> m in held || exists b :: b in batch && Stored(sessionId, b) == m
  {
    all := held;
    if |batch| > 0 {
      var before, b := batch[..|batch| - 1], batch[|batch| - 1];
      assert batch == before + [b];
      var some := UpsertBatch(base, sessionId, rows, held, table, before);
      UpsertOneRow(base, sessionId, rows, some, UpsertAll(table, sessionId, before).value, b);
      all := some + [Stored(sessionId, b)];
      forall m
        ensures m in all <==> m in held || exists c :: c in batch && Stored(sessionId, c) == m
      {
        if m in all && m !in some {
          assert b in batch && Stored(sessionId, b) == m;
        }
      }
    }
  }

  lemma HoldsSameRows(base: Messages, sessionId: string, a: seq<Message>, b: seq<Message>, table: Messages)
    requires Holds(base, sessionId, a, table) && forall m :: m in a <==> m in b
    ensures Holds(base, sessionId, b, table)
  {
    forall k | HasSeq(a, k)
      ensures HasSeq(b, k)
    {
      var m :| m in a && m.seqNo == k;
      assert m in b;
    }
  }

  /** The call's messages leave exactly the rows up to its cut. */
  lemma MessagePhase(base: Messages, sessionId: string, rows: seq<Message>, from: nat, to: nat,
                     table: Messages, batch: seq<Message>)
    requires Transcript(base, sessionId, rows) && from <= to <= |rows|
    requires Holds(base, sessionId, rows[..from], table) && Brings(sessionId, rows, from, to, batch)
    ensures UpsertAll(table, sessionId, batch).Ok?
    ensures Holds(base, sessionId, rows[..to], UpsertAll(table, sessionId, batch).value)
  {
    assert forall m :: m in rows[..to] ==> m in rows;
    assert forall m :: m in rows[..from] ==> m in rows;
    var all := UpsertBatch(base, sessionId, rows, rows[..from], table, batch);
    forall m
      ensures m in all <==> m in rows[..to]
    {
      BroughtRows(sessionId, rows, from, to, batch, m);
    }
    HoldsSameRows(base, sessionId, all, rows[..to], UpsertAll(table, sessionId, batch).value);
  }

  lemma BroughtRows(sessionId: string, rows: seq<Message>, from: nat, to: nat, batch: seq<Message>, m: Message)
    requires from <= to <= |rows| && Brings(sessionId, rows, from, to, batch)
    ensures m in rows[..to] <==> m in rows[..from] || exists b :: b in batch && Stored(sessionId, b) == m
  {
    assert rows[..to] == rows[..from] + rows[from..to];
  }

  lemma LoadHeld(base: Messages, sessionId: string, rows: seq<Message>, n: nat, table: Messages)
    requires Transcript(base, sessionId, rows) && n <= |rows| && Holds(base, sessionId, rows[..n], table)
    ensures Load(table, sessionId) == rows[..n]
  {
    forall m: Message
      ensures m in rows[..n] <==> Key(sessionId, m.seqNo) in table && RowAt(table, sessionId, m.seqNo) == m
    {
      if Key(sessionId, m.seqNo) in table {
        var held :| held in rows[..n] && held.seqNo == m.seqNo;
        assert table[Key(sessionId, held.seqNo)] == held;
      }
    }
    LoadUnique(table, sessionId, rows[..n]);
  }

  lemma HoldsDeterminesTable(base: Messages, sessionId: string, rows: seq<Message>, a: Messages, b: Messages)
    requires Holds(base, sessionId, rows, a) && Holds(base, sessionId, rows, b)
    ensures a == b
  {
    forall k
      ensures k in a ==> k in b && a[k] == b[k]
      ensures k in b ==> k in a && a[k] == b[k]
    {
      if (k in a || k in b) && k !in base {
        var m :| m in rows && m.seqNo == k.seqNo;
      }
    }
  }

  // ---------------------------------------------------------------- the chunk phase

  lemma {:induction false} InsertChunksConcat(h: Heuristics, digest: string -> string, t: Tables, sessionId: string,
                                              session: Session, a: seq<Chunk>, b: seq<Chunk>)
    ensures InsertChunks(h, digest, t, sessionId, session, a + b) ==
            InsertChunks(h, digest, InsertChunks(h, digest, t, sessionId, session, a), sessionId, session, b)
  {
    if |b| == 0 {
      assert a + b == a;
    } else {
      assert (a + b)[..|a + b| - 1] == a + b[..|b| - 1];
      InsertChunksConcat(h, digest, t, sessionId, session, a, b[..|b| - 1]);
    }
  }

  lemma {:induction false} InsertChunksAgain(h: Heuristics, digest: string -> string, t: Tables, sessionId: string,
                                             session: Session, cs: seq<Chunk>)
    requires forall c :: c in cs ==> c.chunkId in t.chunks
    ensures InsertChunks(h, digest, t, sessionId, session, cs) == t
  {
    if |cs| > 0 {
      InsertChunksAgain(h, digest, t, sessionId, session, cs[..|cs| - 1]);
    }
  }

  lemma {:induction false} InsertChunksStores(h: Heuristics, digest: string -> string, t: Tables, sessionId: string,
                                              session: Session, cs: seq<Chunk>)
    ensures forall c :: c in cs ==> c.chunkId in InsertChunks(h, digest, t, sessionId, session, cs).chunks
  {
    if |cs| > 0 {
      InsertChunksStores(h, digest, t, sessionId, session, cs[..|cs| - 1]);
      assert cs == cs[..|cs| - 1] + [cs[|cs| - 1]];
      forall c | c in cs[..|cs| - 1]
        ensures c.chunkId in InsertChunks(h, digest, t, sessionId, session, cs).chunks
      {}
    }
  }

  /** Inserting chunks neither reads nor writes sessions and messages. */
  lemma {:induction false} InsertChunksFrame(h: Heuristics, digest: string -> string, t: Tables, sessionId: string,
                                             session: Session, cs: seq<Chunk>, sessions: map<string, Session>,
                                             messages: Messages)
    ensures InsertChunks(h, digest, t.(sessions := sessions, messages := messages), sessionId, session, cs) ==
            InsertChunks(h, digest, t, sessionId, session, cs).(sessions := sessions, messages := messages)
  {
    if |cs| > 0 {
      InsertChunksFrame(h, digest, t, sessionId, session, cs[..|cs| - 1], sessions, messages);
    }
  }

  function TranscriptChunks(h: Heuristics, sessionId: string, session: Session, rows: seq<Message>): seq<Chunk> {
    ChunksOf(h, sessionId, session.sensitivity, Runs(rows))
  }

  /** At a clean cut the chunks so far are a prefix of the later ones. */
  lemma ChunksGrow(h: Heuristics, sessionId: string, session: Session, rows: seq<Message>, from: nat, to: nat)
    requires from <= to <= |rows| && CleanCut(rows, from)
    ensures var some, all := TranscriptChunks(h, sessionId, session, rows[..from]),
                             TranscriptChunks(h, sessionId, session, rows[..to]);
            |some| <= |all| && all[..|some|] == some
  {
    var a, b := rows[..from], rows[from..to];
    assert rows[..to] == a + b;
    if from < to {
      assert rows[..to][from] == rows[from];
      assert forall k :: 0 <= k < from ==> rows[..to][k] == rows[k];
    }
    RunsConcat(a, b);
  }

  function ChunksUpTo(s: SettingData, n: nat): seq<Chunk>
    requires n <= |s.rows|
  {
    TranscriptChunks(s.h, s.sessionId, s.session, s.rows[..n])
  }

  function WithChunks(s: SettingData, t: Tables, cs: seq<Chunk>): Tables {
    InsertChunks(s.h, s.digest, t, s.sessionId, s.session, cs)
  }

  /** The tables after a delivery up to row `n`, computed in one go. */
  ghost predicate DeliveredUpTo(s: SettingData, n: nat, after: Tables)
    requires n <= |s.rows|
  {
    Holds(s.start.messages, s.sessionId, s.rows[..n], after.messages) &&
    after == WithChunks(s, s.start, ChunksUpTo(s, n)).(
      sessions := s.start.sessions[s.sessionId := s.session], messages := after.messages)
  }

  /** What one call makes of the tables, given the rows it leaves. */
  lemma CallResult(s: Setting, from: nat, to: nat, before: Tables, batch: seq<Message>) returns (after: Tables)
    requires from <= to <= |s.rows| && Brings(s.sessionId, s.rows, from, to, batch)
    requires Holds(s.start.messages, s.sessionId, s.rows[..from], before.messages)
    ensures CallOn(s, before, batch) == Ok(after)
    ensures Holds(s.start.messages, s.sessionId, s.rows[..to], after.messages)
    ensures after == WithChunks(s, before, ChunksUpTo(s, to)).(
                       sessions := before.sessions[s.sessionId := s.session], messages := after.messages)
  {
    MessagePhase(s.start.messages, s.sessionId, s.rows, from, to, before.messages, batch);
    var messages := UpsertAll(before.messages, s.sessionId, batch).value;
    LoadHeld(s.start.messages, s.sessionId, s.rows, to, messages);
    InsertChunksFrame(s.h, s.digest, before, s.sessionId, s.session, ChunksUpTo(s, to),
                      before.sessions[s.sessionId := s.session], messages);
    InsertChunksKeeps(s.h, s.digest, before.(sessions := before.sessions[s.sessionId := s.session], messages := messages),
                      s.sessionId, s.session, ChunksUpTo(s, to), "");
    after := CallOn(s, before, batch).value;
  }

  lemma FirstCall(s: Setting, to: nat, batch: seq<Message>) returns (after: Tables)
    requires to <= |s.rows| && Brings(s.sessionId, s.rows, 0, to, batch)
    ensures CallOn(s, s.start, batch) == Ok(after) && DeliveredUpTo(s, to, after)
  {
    after := CallResult(s, 0, to, s.start, batch);
  }

  /** A later call takes the tables from one cut to the next. */
  lemma NextCall(s: Setting, from: nat, to: nat, before: Tables, batch: seq<Message>) returns (after: Tables)
    requires from <= to <= |s.rows| && Brings(s.sessionId, s.rows, from, to, batch)
    requires CleanCut(s.rows, from) && DeliveredUpTo(s, from, before)
    ensures CallOn(s, before, batch) == Ok(after) && DeliveredUpTo(s, to, after)
  {
    after := CallResult(s, from, to, before, batch);
    NextChunks(s, from, to, before);
  }

  lemma NextChunks(s: Setting, from: nat, to: nat, before: Tables)
    requires from <= to <= |s.rows| && CleanCut(s.rows, from)
    requires before == WithChunks(s, s.start, ChunksUpTo(s, from)).(
                         sessions := s.start.sessions[s.sessionId := s.session], messages := before.messages)
    ensures WithChunks(s, before, ChunksUpTo(s, to)) == WithChunks(s, s.start, ChunksUpTo(s, to)).(
              sessions := s.start.sessions[s.sessionId := s.session], messages := before.messages)
  {
    var some, all := ChunksUpTo(s, from), ChunksUpTo(s, to);
    ChunksGrow(s.h, s.sessionId, s.session, s.rows, from, to);
    ResumeChunks(s, some, all[|some|..], before.messages);
    assert some + all[|some|..] == all;
  }

  /** Re-inserting chunks already stored and then new ones amounts to inserting all of them at once. */
  lemma ResumeChunks(s: SettingData, some: seq<Chunk>, more: seq<Chunk>, messages: Messages)
    ensures var sessions := s.start.sessions[s.sessionId := s.session];
            var before := WithChunks(s, s.start, some).(sessions := sessions, messages := messages);
            WithChunks(s, before, some + more) ==
            WithChunks(s, s.start, some + more).(sessions := sessions, messages := messages)
  {
    var sessions := s.start.sessions[s.sessionId := s.session];
    var stored := WithChunks(s, s.start, some);
    InsertChunksStores(s.h, s.digest, s.start, s.sessionId, s.session, some);
    InsertChunksAgain(s.h, s.digest, stored, s.sessionId, s.session, some);
    InsertChunksConcat(s.h, s.digest, stored, s.sessionId, s.session, some, more);
    InsertChunksConcat(s.h, s.digest, s.start, s.sessionId, s.session, some, more);
    InsertChunksFrame(s.h, s.digest, stored, s.sessionId, s.session, some + more, sessions, messages);
  }

  lemma {:induction false} AllCalls(s: Setting, d: Delivery) returns (after: Tables)
    requires d.Then? && d.Clean(s.sessionId, s.rows)
    ensures RunCalls(s, d) == Ok(after) && DeliveredUpTo(s, d.cut, after)
    decreases d
  {
    if d.before.Undelivered? {
      after := FirstCall(s, d.cut, d.batch);
    } else {
      var before := AllCalls(s, d.before);
      after := NextCall(s, d.before.cut, d.cut, before, d.batch);
    }
  }

  /**
    Incremental ingest equals one-shot ingest. Any delivery of a transcript whose inner cuts are clean, in
    any number of calls, with earlier rows resent or not, leaves every table as the one call with all rows.
   */
  lemma IncrementalEqualsOneShot(s: Setting, d: Delivery)
    requires |s.rows| > 0 && d.Then? && d.cut == |s.rows| && d.Clean(s.sessionId, s.rows)
    ensures RunCalls(s, d).Ok? && RunCalls(s, d) == CallOn(s, s.start, s.rows)
  {
    var after := AllCalls(s, d);
    WholeTranscript(s.sessionId, s.rows);
    var atOnce := FirstCall(s, |s.rows|, s.rows);
    HoldsDeterminesTable(s.start.messages, s.sessionId, s.rows[..|s.rows|], after.messages, atOnce.messages);
  }

  lemma WholeTranscript(sessionId: string, rows: seq<Message>)
    requires |rows| > 0 && forall m :: m in rows ==> m.messageId != ""
    ensures Brings(sessionId, rows, 0, |rows|, rows)
  {
    assert rows[..|rows|] == rows && rows[0..|rows|] == rows;
    forall m | m in rows
      ensures Stored(sessionId, m) == m
    {}
  }

  // ---------------------------------------------------------------- why the cut has to be clean

  lemma ChunkIdsDiffer(sessionId: string, m: nat, n: nat)
    requires ChunkIdText(sessionId, m) == ChunkIdText(sessionId, n)
    ensures m == n
  {
    var prefix := sessionId + ":v" + Decimal(CHUNK_STRATEGY_VERSION) + ":";
    assert ChunkIdText(sessionId, m)[|prefix|..] == Decimal(m);
    assert ChunkIdText(sessionId, n)[|prefix|..] == Decimal(n);
    DecimalInjective(m, n);
  }

  /** The first call to bring a chunk id decides its row. */
  lemma {:induction false} FirstWriterWins(s: SettingData, t: Tables, cs: seq<Chunk>, i: nat)
    requires i < |cs| && cs[i].chunkId !in t.chunks
    requires forall j, k :: 0 <= j < k < |cs| ==> cs[j].chunkId != cs[k].chunkId
    ensures cs[i].chunkId in WithChunks(s, t, cs).chunks
    ensures WithChunks(s, t, cs).chunks[cs[i].chunkId] == ChunkRowOf(s.sessionId, s.session, cs[i])
  {
    var before := cs[..|cs| - 1];
    if i < |cs| - 1 {
      FirstWriterWins(s, t, before, i);
    } else {
      NotYetInserted(s, t, before, cs[i].chunkId);
    }
  }

  lemma {:induction false} NotYetInserted(s: SettingData, t: Tables, cs: seq<Chunk>, chunkId: string)
    requires chunkId !in t.chunks && forall c :: c in cs ==> c.chunkId != chunkId
    ensures chunkId !in WithChunks(s, t, cs).chunks
  {
    if |cs| > 0 {
      assert cs == cs[..|cs| - 1] + [cs[|cs| - 1]];
      NotYetInserted(s, t, cs[..|cs| - 1], chunkId);
    }
  }

  ghost predicate NoChunksOf(t: Tables, sessionId: string) {
    forall k: nat :: ChunkIdText(sessionId, k) !in t.chunks
  }

  lemma ChunkRowStored(s: SettingData, n: nat, i: nat)
    requires n <= |s.rows| && i < |ChunksUpTo(s, n)| && NoChunksOf(s.start, s.sessionId)
    ensures var c, chunks := ChunksUpTo(s, n)[i], WithChunks(s, s.start, ChunksUpTo(s, n)).chunks;
            c.chunkId in chunks && chunks[c.chunkId] == ChunkRowOf(s.sessionId, s.session, c)
  {
    var cs := ChunksUpTo(s, n);
    forall j, k | 0 <= j < k < |cs|
      ensures cs[j].chunkId != cs[k].chunkId
    {
      if cs[j].chunkId == cs[k].chunkId {
        ChunkIdsDiffer(s.sessionId, j + 1, k + 1);
      }
    }
    FirstWriterWins(s, s.start, cs, i);
  }

  lemma {:induction false} RunsStaySorted(runs: seq<Run>, k: nat)
    requires StrictlySortedBySeq(Flatten(runs)) && k < |runs|
    ensures StrictlySortedBySeq(runs[k])
  {
    var all := Flatten(runs);
    if k == 0 {
      assert runs[0] == all[..|runs[0]|];
    } else {
      assert Flatten(runs[1..]) == all[|runs[0]|..];
      RunsStaySorted(runs[1..], k - 1);
    }
  }

  lemma UncleanRunDiffers(a: seq<Message>, b: seq<Message>) returns (i: nat)
    requires StrictlySortedBySeq(a + b) && !CleanCut(a + b, |a|)
    ensures i < |Runs(a)| && i < |Runs(a + b)|
    ensures var short, long := Runs(a)[i], Runs(a + b)[i];
            |short| > 0 && |long| > 0 && short[|short| - 1].seqNo < long[|long| - 1].seqNo
  {
    LastRunGrows(a, b);
    i := |Runs(a)| - 1;
    var short, long := Runs(a)[i], Runs(a + b)[i];
    assert short in Runs(a);
    RunsSegment(a + b);
    RunsStaySorted(Runs(a + b), i);
    assert long[|short| - 1] == short[|short| - 1];
  }

  /** At an unclean cut the last chunk of the first part is shorter than the one-shot chunk of the same id. */
  lemma UncleanChunkDiffers(s: Setting, n: nat) returns (i: nat)
    requires 0 < n < |s.rows| && !CleanCut(s.rows, n)
    ensures i < |ChunksUpTo(s, n)| && i < |ChunksUpTo(s, |s.rows|)|
    ensures ChunksUpTo(s, n)[i].chunkId == ChunksUpTo(s, |s.rows|)[i].chunkId
    ensures ChunksUpTo(s, n)[i].endSeq != ChunksUpTo(s, |s.rows|)[i].endSeq
  {
    assert s.rows[..n] + s.rows[n..] == s.rows && s.rows[..|s.rows|] == s.rows;
    i := UncleanChunks(s.h, s.sessionId, s.session, s.rows[..n], s.rows[n..]);
  }

  lemma UncleanChunks(h: Heuristics, sessionId: string, session: Session, a: seq<Message>, b: seq<Message>)
    returns (i: nat)
    requires StrictlySortedBySeq(a + b) && !CleanCut(a + b, |a|)
    ensures var some, all := TranscriptChunks(h, sessionId, session, a), TranscriptChunks(h, sessionId, session, a + b);
            i < |some| && i < |all| && some[i].chunkId == all[i].chunkId && some[i].endSeq != all[i].endSeq
  {
    i := UncleanRunDiffers(a, b);
    ChunkFields(h, sessionId, session, a, i);
    ChunkFields(h, sessionId, session, a + b, i);
  }

  lemma ChunkFields(h: Heuristics, sessionId: string, session: Session, rows: seq<Message>, i: nat)
    requires i < |Runs(rows)|
    ensures var chunks, run := TranscriptChunks(h, sessionId, session, rows), Runs(rows)[i];
            i < |chunks| && |run| > 0 && chunks[i].chunkId == ChunkIdText(sessionId, i + 1) &&
            chunks[i].endSeq == run[|run| - 1].seqNo
  {}

  /** An ordered delivery is accepted, call by call. */
  lemma {:induction false} CallsHold(s: Setting, d: Delivery) returns (after: Tables)
    requires d.Then? && d.Ordered(s.sessionId, s.rows)
    ensures RunCalls(s, d) == Ok(after)
    ensures Holds(s.start.messages, s.sessionId, s.rows[..d.cut], after.messages)
    decreases d
  {
    if d.before.Undelivered? {
      after := CallResult(s, 0, d.cut, s.start, d.batch);
    } else {
      var before := CallsHold(s, d.before);
      after := CallResult(s, d.before.cut, d.cut, before, d.batch);
    }
  }

  /** A chunk is stored with the row it had when the transcript ended at row n. */
  ghost predicate StoredShort(s: SettingData, after: Tables, n: nat, i: nat)
    requires n <= |s.rows|
  {
    i < |ChunksUpTo(s, n)| &&
    ChunksUpTo(s, n)[i].chunkId in after.chunks &&
    after.chunks[ChunksUpTo(s, n)[i].chunkId] == ChunkRowOf(s.sessionId, s.session, ChunksUpTo(s, n)[i])
  }

  /** Later calls leave it so. */
  lemma ShortStays(s: Setting, from: nat, to: nat, before: Tables, batch: seq<Message>, n: nat, i: nat)
    returns (after: Tables)
    requires from <= to <= |s.rows| && Brings(s.sessionId, s.rows, from, to, batch)
    requires Holds(s.start.messages, s.sessionId, s.rows[..from], before.messages)
    requires n <= |s.rows| && StoredShort(s, before, n, i)
    ensures CallOn(s, before, batch) == Ok(after) && StoredShort(s, after, n, i)
  {
    after := CallResult(s, from, to, before, batch);
    InsertChunksKeeps(s.h, s.digest, before, s.sessionId, s.session, ChunksUpTo(s, to), ChunksUpTo(s, n)[i].chunkId);
  }

  /** The chunk that an unclean cut leaves short: not the one that a single call stores under its id. */
  ghost predicate Short(s: SettingData, n: nat, i: nat)
    requires n <= |s.rows|
  {
    i < |ChunksUpTo(s, n)| && i < |ChunksUpTo(s, |s.rows|)| &&
    ChunksUpTo(s, n)[i].chunkId == ChunksUpTo(s, |s.rows|)[i].chunkId &&
    ChunksUpTo(s, n)[i].endSeq != ChunksUpTo(s, |s.rows|)[i].endSeq
  }

  /** A delivery with an unclean cut leaves the chunk before the first such cut short. */
  lemma {:induction false} UncleanDelivery(s: Setting, d: Delivery) returns (after: Tables, n: nat, i: nat)
    requires d.Then? && d.Ordered(s.sessionId, s.rows) && !d.CleanCuts(s.rows) && NoChunksOf(s.start, s.sessionId)
    ensures RunCalls(s, d) == Ok(after)
    ensures n <= |s.rows| && Short(s, n, i) && StoredShort(s, after, n, i)
    decreases d
  {
    var before: Tables;
    if d.before.CleanCuts(s.rows) {
      before := AllCalls(s, d.before);
      n := d.before.cut;
      i := UncleanChunkDiffers(s, n);
      ChunkRowStored(s, n, i);
    } else {
      before, n, i := UncleanDelivery(s, d.before);
      var held := CallsHold(s, d.before);
    }
    after := ShortStays(s, d.before.cut, d.cut, before, d.batch, n, i);
  }

  lemma OneShotStores(s: Setting, i: nat)
    requires |s.rows| > 0 && NoChunksOf(s.start, s.sessionId) && i < |ChunksUpTo(s, |s.rows|)|
    ensures CallOn(s, s.start, s.rows).Ok? && StoredShort(s, CallOn(s, s.start, s.rows).value, |s.rows|, i)
  {
    WholeTranscript(s.sessionId, s.rows);
    var once := FirstCall(s, |s.rows|, s.rows);
    ChunkRowStored(s, |s.rows|, i);
  }

  /**
    Over any ordered delivery of a new transcript, in any number of calls and with earlier rows resent or
    not, the stored chunks are those of one call if and only if every inner cut is clean: a stored chunk is
    never refreshed, so a run cut short stays short.
   */
  lemma DeliveryIff(s: Setting, d: Delivery)
    requires d.Then? && d.cut == |s.rows| && d.Ordered(s.sessionId, s.rows) && NoChunksOf(s.start, s.sessionId)
    ensures RunCalls(s, d).Ok? && CallOn(s, s.start, s.rows).Ok?
    ensures RunCalls(s, d).value.chunks == CallOn(s, s.start, s.rows).value.chunks <==> d.CleanCuts(s.rows)
  {
    SomeRows(s, d);
    if d.CleanCuts(s.rows) {
      IncrementalEqualsOneShot(s, d);
    } else {
      var after, n, i := UncleanDelivery(s, d);
      OneShotStores(s, i);
    }
  }

  /** A call without messages is no delivery. */
  lemma SomeRows(s: Setting, d: Delivery)
    requires d.Then? && d.cut == |s.rows| && d.Ordered(s.sessionId, s.rows)
    ensures |s.rows| > 0
  {
    var b := d.batch[0];
    assert b in d.batch && Stored(s.sessionId, b) in s.rows[..d.cut];
  }

  function InTwo(s: SettingData, n: nat): Delivery
    requires n <= |s.rows|
  {
    Then(Then(Undelivered, n, s.rows[..n]), |s.rows|, s.rows[n..])
  }

  /** Two calls: one clean split. */
  lemma SplitIff(s: Setting, n: nat)
    requires 0 < n < |s.rows| && NoChunksOf(s.start, s.sessionId)
    ensures RunCalls(s, InTwo(s, n)).Ok? && CallOn(s, s.start, s.rows).Ok?
    ensures RunCalls(s, InTwo(s, n)).value.chunks == CallOn(s, s.start, s.rows).value.chunks <==> CleanCut(s.rows, n)
  {
    PartsBring(s, n);
    TwoCuts(s.sessionId, s.rows, n, s.rows[..n], s.rows[n..]);
    DeliveryIff(s, InTwo(s, n));
  }

  lemma TwoCuts(sessionId: string, rows: seq<Message>, n: nat, a: seq<Message>, b: seq<Message>)
    requires n <= |rows| && Brings(sessionId, rows, 0, n, a) && Brings(sessionId, rows, n, |rows|, b)
    ensures var d := Then(Then(Undelivered, n, a), |rows|, b);
            d.Ordered(sessionId, rows) && (d.CleanCuts(rows) <==> CleanCut(rows, n))
  {
    var first := Then(Undelivered, n, a);
    assert Undelivered.Ordered(sessionId, rows) && Undelivered.CleanCuts(rows);
    assert CleanCut(rows, 0);
    assert first.Ordered(sessionId, rows) && first.CleanCuts(rows);
  }

  lemma PartsBring(s: Setting, n: nat)
    requires 0 < n < |s.rows|
    ensures Brings(s.sessionId, s.rows, 0, n, s.rows[..n])
    ensures Brings(s.sessionId, s.rows, n, |s.rows|, s.rows[n..])
  {
    assert s.rows[..|s.rows|] == s.rows && s.rows[0..n] == s.rows[..n];
    forall m | m in s.rows
      ensures Stored(s.sessionId, m) == m
    {}
    assert s.rows[n..|s.rows|] == s.rows[n..];
    assert forall m :: m in s.rows[..n] ==> m in s.rows;
    assert forall m :: m in s.rows[n..] ==> m in s.rows;
  }
}
