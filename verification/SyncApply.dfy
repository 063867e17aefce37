/**
  Inbound batches: the one-pass verification of their memory claims, and their application.
 */
module SyncApply {
  import opened Prelude
  import opened Numerals
  import opened SyncTypes

  datatype Claim = Claim(memoryId: string, memoryType: string, namespace: string, subject: string, body: string,
                         sourceUri: string, sourceHash: string, authorAgentId: string, originPeerId: string,
                         authoredAtMS: int, validFromMS: int, validToMS: int)

  datatype Candidate = Candidate(claim: Claim, signature: string)

  datatype Cell = NullCell | IntCell(i: int) | RealCell(r: real) | TextCell(s: string) | BlobCell(b: string)

  /** A cell of a replicated row with the version its merge compares. */
  datatype CellState = CellState(value: Cell, colVersion: int)

  datatype RowKey = Memory(id: string) | Other(table: string, pk: string)

  type Cells = map<(RowKey, string), CellState>

  datatype Status = Valid | MissingSignature

  datatype Verdict = Verdict(memoryId: string, status: Status)

  datatype Error = IncompatibleMetadata | InvalidClaimValue | UnknownPeerKey(memoryId: string)
                 | InvalidSignature(memoryId: string) | InvalidPkEncoding | InvalidSiteIdEncoding
                 | InvalidValueEncoding | BatchAlreadyQuarantined

  /** Base64, number formatting, column scanning, value ordering and signature checking, kept abstract. */
  datatype Primitives = Primitives(b64: string -> Option<string>, floatText: real -> string,
                                   cellText: Cell -> string, cellInt: Cell -> int, rank: Cell -> int,
                                   verify: (Claim, string, string) -> bool)

  datatype State = State(cells: Cells, verification: map<string, Status>, cursors: map<(string, string), int>,
                         quarantine: map<string, Error>, peerErrors: map<(string, string), Option<Error>>,
                         publicKeys: map<string, string>)

  // ---------------------------------------------------------------- values

  function ValueAsString(p: Primitives, v: Value): string {
    if v.isNull then ""
    else if v.text.Some? then v.text.value
    else if v.integer.Some? then IntText(v.integer.value)
    else if v.float.Some? then p.floatText(v.float.value)
    else if v.blobB64.Some? && p.b64(v.blobB64.value).Some? then p.b64(v.blobB64.value).value
    else ""
  }

  function ValueAsInt64(v: Value): Option<int> {
    if v.isNull then Some(0)
    else if v.integer.Some? then v.integer
    else if v.text.Some? then Atoi(v.text.value)
    else None
  }

  function ValueAsBytes(p: Primitives, v: Value): Option<string> {
    if v.isNull then Some("")
    else if v.blobB64.Some? then p.b64(v.blobB64.value)
    else v.text
  }

  function DecodeValue(p: Primitives, v: Value): Option<Cell> {
    if v.isNull then Some(NullCell)
    else if v.integer.Some? then Some(IntCell(v.integer.value))
    else if v.float.Some? then Some(RealCell(v.float.value))
    else if v.text.Some? then Some(TextCell(v.text.value))
    else if v.blobB64.Some? then
      match p.b64(v.blobB64.value)
      case Some(b) => Some(BlobCell(b))
      case None => None
    else Some(NullCell)
  }

  predicate IsAlphaNumeric(c: char) {
    '0' <= c <= '9' || 'a' <= c <= 'z' || 'A' <= c <= 'Z'
  }

  /** The text from the first alphanumeric on, if there is one. */
  function FromAlphaNumeric(s: string): Option<string> {
    if |s| == 0 then None
    else if IsAlphaNumeric(s[0]) then Some(s)
    else FromAlphaNumeric(s[1..])
  }

  function PkText(p: Primitives, encoded: string): string {
    match p.b64(encoded)
    case None => ""
    case Some(decoded) =>
      match FromAlphaNumeric(decoded)
      case Some(text) => text
      case None => decoded
  }

  // ---------------------------------------------------------------- claims

  function TextCellOf(p: Primitives, cells: Cells, id: string, cid: string): string {
    if (Memory(id), cid) in cells then p.cellText(cells[(Memory(id), cid)].value) else ""
  }

  function IntCellOf(p: Primitives, cells: Cells, id: string, cid: string): int {
    if (Memory(id), cid) in cells then p.cellInt(cells[(Memory(id), cid)].value) else 0
  }

  /** The candidate a memory starts from: its stored row, or zero values if it has none. */
  function Loaded(p: Primitives, cells: Cells, id: string): Candidate {
    Candidate(Claim(id, TextCellOf(p, cells, id, "memory_type"), TextCellOf(p, cells, id, "namespace"),
                    TextCellOf(p, cells, id, "subject"), TextCellOf(p, cells, id, "body"),
                    TextCellOf(p, cells, id, "source_uri"), TextCellOf(p, cells, id, "source_hash"),
                    TextCellOf(p, cells, id, "author_agent_id"), TextCellOf(p, cells, id, "origin_peer_id"),
                    IntCellOf(p, cells, id, "authored_at_ms"), IntCellOf(p, cells, id, "valid_from_ms"),
                    IntCellOf(p, cells, id, "valid_to_ms")),
              TextCellOf(p, cells, id, "author_signature"))
  }

  /** The columns of a memory row that its claim and signature are made of. */
  datatype Column = MemoryId | MemoryType | Namespace | Subject | Body | SourceUri | SourceHash | AuthorAgentId
                  | OriginPeerId | AuthoredAt | ValidFrom | ValidTo | AuthorSignature

  function ColumnOf(cid: string): Option<Column> {
    match cid
    case "memory_id" => Some(MemoryId)
    case "memory_type" => Some(MemoryType)
    case "namespace" => Some(Namespace)
    case "subject" => Some(Subject)
    case "body" => Some(Body)
    case "source_uri" => Some(SourceUri)
    case "source_hash" => Some(SourceHash)
    case "author_agent_id" => Some(AuthorAgentId)
    case "origin_peer_id" => Some(OriginPeerId)
    case "authored_at_ms" => Some(AuthoredAt)
    case "valid_from_ms" => Some(ValidFrom)
    case "valid_to_ms" => Some(ValidTo)
    case "author_signature" => Some(AuthorSignature)
    case _ => None
  }

  /** `applyMemoryNodeChange`: overwrite the field the change names; other columns are not part of the claim. */
  function ApplyChange(p: Primitives, c: Candidate, ch: Change): Option<Candidate> {
    match ColumnOf(ch.cid)
    case None => Some(c)
    case Some(AuthorSignature) =>
      (match ValueAsBytes(p, ch.val) case None => None case Some(b) => Some(c.(signature := b)))
    case Some(column) =>
      (match ApplyToClaim(c.claim, column, ValueAsString(p, ch.val), ValueAsInt64(ch.val))
       case None => None
       case Some(claim) => Some(c.(claim := claim)))
  }

  function ApplyToClaim(c: Claim, column: Column, text: string, number: Option<int>): Option<Claim> {
    match column
    case MemoryId => Some(c.(memoryId := text))
    case MemoryType => Some(c.(memoryType := text))
    case Namespace => Some(c.(namespace := text))
    case Subject => Some(c.(subject := text))
    case Body => Some(c.(body := text))
    case SourceUri => Some(c.(sourceUri := text))
    case SourceHash => Some(c.(sourceHash := text))
    case AuthorAgentId => Some(c.(authorAgentId := text))
    case OriginPeerId => Some(c.(originPeerId := text))
    case AuthoredAt => (match number case None => None case Some(n) => Some(c.(authoredAtMS := n)))
    case ValidFrom => (match number case None => None case Some(n) => Some(c.(validFromMS := n)))
    case ValidTo => (match number case None => None case Some(n) => Some(c.(validToMS := n)))
    case AuthorSignature => Some(c)
  }

  function Fold(p: Primitives, start: Candidate, changes: seq<Change>): Option<Candidate> {
    if |changes| == 0 then Some(start)
    else
      match Fold(p, start, changes[..|changes| - 1])
      case None => None
      case Some(c) => ApplyChange(p, c, changes[|changes| - 1])
  }

  /** The memory a change speaks about, if any. */
  function Touches(p: Primitives, ch: Change): Option<string> {
    if ch.table != "memory_nodes" then None
    else if TrimSpace(PkText(p, ch.pkB64)) == "" then None
    else Some(PkText(p, ch.pkB64))
  }

  /** The touched memories, in order of first appearance. */
  function Touched(p: Primitives, changes: seq<Change>): seq<string> {
    if |changes| == 0 then []
    else
      var before := Touched(p, changes[..|changes| - 1]);
      match Touches(p, changes[|changes| - 1])
      case Some(id) => if id in before then before else before + [id]
      case None => before
  }

  /** A memory's own changes, in batch order. */
  function Own(p: Primitives, changes: seq<Change>, id: string): seq<Change> {
    if |changes| == 0 then []
    else
      var last := changes[|changes| - 1];
      Own(p, changes[..|changes| - 1], id) + (if Touches(p, last) == Some(id) then [last] else [])
  }

  /** What a memory claims after the batch: its own changes folded over its stored row. */
  function ClaimAfter(p: Primitives, cells: Cells, changes: seq<Change>, id: string): Option<Candidate> {
    Fold(p, Loaded(p, cells, id), Own(p, changes, id))
  }

  function PublicKey(st: State, peerId: string): string {
    if peerId in st.publicKeys then st.publicKeys[peerId] else ""
  }

  function Judge(p: Primitives, st: State, id: string, c: Candidate): Result<Verdict, Error> {
    if |c.signature| == 0 then Ok(Verdict(id, MissingSignature))
    else
      var key := PublicKey(st, c.claim.originPeerId);
      if TrimSpace(key) == "" then Err(UnknownPeerKey(c.claim.memoryId))
      else if !p.verify(c.claim, c.signature, key) then Err(InvalidSignature(c.claim.memoryId))
      else Ok(Verdict(id, Valid))
  }

  /** Judging memory by memory; the first refusal wins. */
  function JudgeAll(p: Primitives, st: State, changes: seq<Change>, ids: seq<string>): Result<seq<Verdict>, Error> {
    if |ids| == 0 then Ok([])
    else
      match JudgeAll(p, st, changes, ids[..|ids| - 1])
      case Err(e) => Err(e)
      case Ok(before) =>
        var id := ids[|ids| - 1];
        match ClaimAfter(p, st.cells, changes, id)
        case None => Err(InvalidClaimValue)
        case Some(c) =>
          match Judge(p, st, id, c)
          case Err(e) => Err(e)
          case Ok(v) => Ok(before + [v])
  }

  /** The simple form of verification: every touched memory on its own. */
  ghost function Verified(p: Primitives, st: State, changes: seq<Change>): Result<seq<Verdict>, Error> {
    if exists id :: id in Touched(p, changes) && ClaimAfter(p, st.cells, changes, id).None? then Err(InvalidClaimValue)
    else JudgeAll(p, st, changes, Touched(p, changes))
  }

  // ---------------------------------------------------------------- application

  function KeyOf(p: Primitives, ch: Change): (RowKey, string) {
    (if ch.table == "memory_nodes" then Memory(PkText(p, ch.pkB64))
     else Other(ch.table, if p.b64(ch.pkB64).Some? then p.b64(ch.pkB64).value else ""), ch.cid)
  }

  function StateOf(p: Primitives, ch: Change): CellState {
    CellState(if DecodeValue(p, ch.val).Some? then DecodeValue(p, ch.val).value else NullCell, ch.colVersion)
  }

  predicate Newer(p: Primitives, a: CellState, b: CellState) {
    a.colVersion > b.colVersion || (a.colVersion == b.colVersion && p.rank(a.value) > p.rank(b.value))
  }

  /** The per-cell merge: a change replaces an absent or older cell. */
  function Merge(p: Primitives, cells: Cells, ch: Change): Cells {
    var k := KeyOf(p, ch);
    if k in cells && !Newer(p, StateOf(p, ch), cells[k]) then cells else cells[k := StateOf(p, ch)]
  }

  function MergeAll(p: Primitives, cells: Cells, changes: seq<Change>): Cells {
    if |changes| == 0 then cells
    else Merge(p, MergeAll(p, cells, changes[..|changes| - 1]), changes[|changes| - 1])
  }

  function Malformed(p: Primitives, ch: Change): Option<Error> {
    if p.b64(ch.pkB64).None? then Some(InvalidPkEncoding)
    else if p.b64(ch.siteIdB64).None? then Some(InvalidSiteIdEncoding)
    else if DecodeValue(p, ch.val).None? then Some(InvalidValueEncoding)
    else None
  }

  function FirstMalformed(p: Primitives, changes: seq<Change>): Option<Error> {
    if |changes| == 0 then None
    else
      match FirstMalformed(p, changes[..|changes| - 1])
      case Some(e) => Some(e)
      case None => Malformed(p, changes[|changes| - 1])
  }

  function RecordVerdicts(table: map<string, Status>, verdicts: seq<Verdict>): map<string, Status> {
    if |verdicts| == 0 then table
    else RecordVerdicts(table, verdicts[..|verdicts| - 1])[verdicts[|verdicts| - 1].memoryId := verdicts[|verdicts| - 1].status]
  }

  /** The batch is accepted with these verdicts, or refused with this reason. */
  ghost function Checked(p: Primitives, st: State, meta: Meta, batch: Batch): Result<seq<Verdict>, Error> {
    if batch.schemaHash != meta.schemaHash || batch.crrManifestHash != meta.crrManifestHash then Err(IncompatibleMetadata)
    else
      match Verified(p, st, batch.changes)
      case Err(e) => Err(e)
      case Ok(verdicts) =>
        match FirstMalformed(p, batch.changes)
        case Some(e) => Err(e)
        case None => Ok(verdicts)
  }

  function Accepted(p: Primitives, st: State, fromPeerId: string, batch: Batch, verdicts: seq<Verdict>): State {
    st.(cells := MergeAll(p, st.cells, batch.changes),
        verification := RecordVerdicts(st.verification, verdicts),
        cursors := if batch.maxVersion > 0 then st.cursors[(fromPeerId, batch.namespace) := batch.maxVersion] else st.cursors,
        peerErrors := st.peerErrors[(fromPeerId, batch.namespace) := None])
  }

  /** A refused batch is kept in quarantine under its id; a second one with that id is not recorded at all. */
  function Quarantined(st: State, fromPeerId: string, batch: Batch, reason: Error): (State, Error) {
    if batch.batchId in st.quarantine then (st, BatchAlreadyQuarantined)
    else (st.(quarantine := st.quarantine[batch.batchId := reason],
              peerErrors := st.peerErrors[(fromPeerId, batch.namespace) := Some(reason)]), reason)
  }

  ghost function Applied(p: Primitives, st: State, meta: Meta, fromPeerId: string, batch: Batch): (State, Option<Error>) {
    match Checked(p, st, meta, batch)
    case Ok(verdicts) => (Accepted(p, st, fromPeerId, batch, verdicts), None)
    case Err(e) =>
      var (after, error) := Quarantined(st, fromPeerId, batch, e);
      (after, Some(error))
  }

  class Service {
    var db: State
    const p: Primitives
    const meta: Meta

    constructor (db: State, p: Primitives, meta: Meta)
      ensures this.db == db && this.p == p && this.meta == meta
    {
      this.db, this.p, this.meta := db, p, meta;
    }

    /** One pass over interleaved changes with a mutable candidate per memory. */
    method CollectCandidates(changes: seq<Change>) returns (r: Option<(map<string, Candidate>, seq<string>)>)
      ensures r.None? <==> exists id :: id in Touched(p, changes) && ClaimAfter(p, db.cells, changes, id).None?
      ensures r.Some? ==> r.value.1 == Touched(p, changes) && r.value.0.Keys == ToSet(r.value.1)
      ensures r.Some? ==> forall id :: id in r.value.1 ==> ClaimAfter(p, db.cells, changes, id) == Some(r.value.0[id])
    {
      var candidates: map<string, Candidate> := map[];
      var order: seq<string> := [];
      for i := 0 to |changes|
        invariant Tracks(p, db.cells, changes[..i], candidates, order)
      {
        var change := changes[i];
        assert changes[..i + 1] == changes[..i] + [change];
        if change.table != "memory_nodes" {
          TracksOther(p, db.cells, changes[..i], change, candidates, order);
          continue;
        }
        var memoryId := PkText(p, change.pkB64);
        if TrimSpace(memoryId) == "" {
          TracksOther(p, db.cells, changes[..i], change, candidates, order);
          continue;
        }
        if memoryId !in candidates {
          TracksLoad(p, db.cells, changes[..i], change, memoryId, candidates, order);
          candidates := candidates[memoryId := Loaded(p, db.cells, memoryId)];
          order := order + [memoryId];
        } else {
          TracksKnown(p, db.cells, changes[..i], change, memoryId, candidates, order);
        }
        var applied := ApplyChange(p, candidates[memoryId], change);
        if applied.None? {
          FailureStays(p, db.cells, changes, i + 1, memoryId);
          return None;
        }
        TracksApplied(p, db.cells, changes[..i], change, memoryId, candidates, order, applied.value);
        candidates := candidates[memoryId := applied.value];
      }
      assert changes[..|changes|] == changes;
      return Some((candidates, order));
    }

    method EvaluateBatchVerification(changes: seq<Change>) returns (r: Result<seq<Verdict>, Error>)
      ensures r == Verified(p, db, changes)
    {
      var collected := CollectCandidates(changes);
      if collected.None? {
        return Err(InvalidClaimValue);
      }
      r := JudgeInOrder(changes, collected.value.0, collected.value.1);
    }

    method JudgeInOrder(ghost changes: seq<Change>, candidates: map<string, Candidate>, order: seq<string>)
      returns (r: Result<seq<Verdict>, Error>)
      requires forall id :: id in order ==> id in candidates && ClaimAfter(p, db.cells, changes, id) == Some(candidates[id])
      ensures r == JudgeAll(p, db, changes, order)
    {
      var results: seq<Verdict> := [];
      for i := 0 to |order|
        invariant JudgeAll(p, db, changes, order[..i]) == Ok(results)
      {
        var judged := JudgeCandidate(order[i], candidates[order[i]]);
        JudgeAllNext(p, db, changes, order, i, candidates[order[i]], results);
        if judged.Err? {
          return Err(judged.error);
        }
        results := results + [judged.value];
      }
      assert order[..|order|] == order;
      return Ok(results);
    }

    method JudgeCandidate(memoryId: string, candidate: Candidate) returns (r: Result<Verdict, Error>)
      ensures r == Judge(p, db, memoryId, candidate)
    {
      if |candidate.signature| == 0 {
        return Ok(Verdict(memoryId, MissingSignature));
      }
      var publicKey := PublicKey(db, candidate.claim.originPeerId);
      if TrimSpace(publicKey) == "" {
        return Err(UnknownPeerKey(candidate.claim.memoryId));
      }
      if !p.verify(candidate.claim, candidate.signature, publicKey) {
        return Err(InvalidSignature(candidate.claim.memoryId));
      }
      return Ok(Verdict(memoryId, Valid));
    }

    method QuarantineBatch(fromPeerId: string, batch: Batch, reason: Error) returns (error: Error)
      modifies this`db
      ensures (db, error) == Quarantined(old(db), fromPeerId, batch, reason)
    {
      if batch.batchId in db.quarantine {
        return BatchAlreadyQuarantined;
      }
      db := db.(quarantine := db.quarantine[batch.batchId := reason]);
      db := db.(peerErrors := db.peerErrors[(fromPeerId, batch.namespace) := Some(reason)]);
      return reason;
    }

    method ApplyBatch(fromPeerId: string, batch: Batch) returns (failure: Option<Error>)
      modifies this`db
      ensures (db, failure) == Applied(p, old(db), meta, fromPeerId, batch)
    {
      if batch.schemaHash != meta.schemaHash || batch.crrManifestHash != meta.crrManifestHash {
        var error := QuarantineBatch(fromPeerId, batch, IncompatibleMetadata);
        return Some(error);
      }
      var verified := EvaluateBatchVerification(batch.changes);
      if verified.Err? {
        var error := QuarantineBatch(fromPeerId, batch, verified.error);
        return Some(error);
      }
      var cells := db.cells;
      for i := 0 to |batch.changes|
        invariant FirstMalformed(p, batch.changes[..i]) == None
        invariant cells == MergeAll(p, old(db).cells, batch.changes[..i])
        invariant db == old(db)
      {
        assert batch.changes[..i + 1][..i] == batch.changes[..i];
        var malformed := Malformed(p, batch.changes[i]);
        if malformed.Some? {
          MalformedStays(p, batch.changes, i + 1);
          var error := QuarantineBatch(fromPeerId, batch, malformed.value);
          return Some(error);
        }
        cells := Merge(p, cells, batch.changes[i]);
      }
      assert batch.changes[..|batch.changes|] == batch.changes;
      var verification := db.verification;
      for i := 0 to |verified.value|
        invariant verification == RecordVerdicts(old(db).verification, verified.value[..i])
        invariant db == old(db)
      {
        assert verified.value[..i + 1][..i] == verified.value[..i];
        verification := verification[verified.value[i].memoryId := verified.value[i].status];
      }
      assert verified.value[..|verified.value|] == verified.value;
      var cursors := db.cursors;
      if batch.maxVersion > 0 {
        cursors := cursors[(fromPeerId, batch.namespace) := batch.maxVersion];
      }
      db := db.(cells := cells, verification := verification, cursors := cursors,
                peerErrors := db.peerErrors[(fromPeerId, batch.namespace) := None]);
      return None;
    }
  }

  // ---------------------------------------------------------------- the pass, change by change

  /** The mutable candidates are the claims of the touched memories, each from its own changes alone. */
  ghost predicate Tracks(p: Primitives, cells: Cells, changes: seq<Change>, candidates: map<string, Candidate>,
                         order: seq<string>)
  {
    order == Touched(p, changes) && candidates.Keys == ToSet(order) &&
    forall id :: id in order ==> ClaimAfter(p, cells, changes, id) == Some(candidates[id])
  }

  /** A change of the memory is pending: everything else is tracked through it already. */
  ghost predicate Awaits(p: Primitives, cells: Cells, before: seq<Change>, change: Change, id: string,
                         candidates: map<string, Candidate>, order: seq<string>)
  {
    order == Touched(p, before + [change]) && candidates.Keys == ToSet(order) && id in order &&
    ClaimAfter(p, cells, before + [change], id) == ApplyChange(p, candidates[id], change) &&
    forall other :: other in order && other != id ==>
      ClaimAfter(p, cells, before + [change], other) == Some(candidates[other])
  }

  lemma TouchedSnoc(p: Primitives, before: seq<Change>, change: Change)
    ensures Touched(p, before + [change]) ==
            match Touches(p, change)
            case None => Touched(p, before)
            case Some(id) => if id in Touched(p, before) then Touched(p, before) else Touched(p, before) + [id]
  {
    assert (before + [change])[..|before|] == before;
  }

  lemma TracksOther(p: Primitives, cells: Cells, before: seq<Change>, change: Change, candidates: map<string, Candidate>,
                    order: seq<string>)
    requires Tracks(p, cells, before, candidates, order) && Touches(p, change).None?
    ensures Tracks(p, cells, before + [change], candidates, order)
  {
    TouchedSnoc(p, before, change);
    OwnOthers(p, before, change);
  }

  lemma TracksKnown(p: Primitives, cells: Cells, before: seq<Change>, change: Change, id: string,
                    candidates: map<string, Candidate>, order: seq<string>)
    requires Tracks(p, cells, before, candidates, order) && Touches(p, change) == Some(id) && id in candidates
    ensures Awaits(p, cells, before, change, id, candidates, order)
  {
    TouchedSnoc(p, before, change);
    OwnOthers(p, before, change);
    OwnSnoc(p, cells, before, change, id, candidates[id]);
  }

  lemma TracksLoad(p: Primitives, cells: Cells, before: seq<Change>, change: Change, id: string,
                   candidates: map<string, Candidate>, order: seq<string>)
    requires Tracks(p, cells, before, candidates, order) && Touches(p, change) == Some(id) && id !in candidates
    ensures Awaits(p, cells, before, change, id, candidates[id := Loaded(p, cells, id)], order + [id])
  {
    TouchedSnoc(p, before, change);
    NotTouchedYet(p, before, id);
    OwnSnoc(p, cells, before, change, id, Loaded(p, cells, id));
    forall other | other in order + [id] && other != id
      ensures other in order && ClaimAfter(p, cells, before + [change], other) == Some(candidates[other])
    {
      OwnOther(p, before, change, other);
    }
    LoadedKeys(candidates, order, id, Loaded(p, cells, id));
  }

  lemma TracksApplied(p: Primitives, cells: Cells, before: seq<Change>, change: Change, id: string,
                      candidates: map<string, Candidate>, order: seq<string>, applied: Candidate)
    requires Awaits(p, cells, before, change, id, candidates, order)
    requires ApplyChange(p, candidates[id], change) == Some(applied)
    ensures Tracks(p, cells, before + [change], candidates[id := applied], order)
  {}

  lemma LoadedKeys(candidates: map<string, Candidate>, order: seq<string>, id: string, c: Candidate)
    requires candidates.Keys == ToSet(order)
    ensures candidates[id := c].Keys == ToSet(order + [id])
  {}

  lemma OwnOther(p: Primitives, before: seq<Change>, last: Change, id: string)
    requires Touches(p, last) != Some(id)
    ensures Own(p, before + [last], id) == Own(p, before, id)
  {
    OwnOthers(p, before, last);
  }

  lemma OwnOthers(p: Primitives, before: seq<Change>, last: Change)
    ensures forall id :: Touches(p, last) != Some(id) ==> Own(p, before + [last], id) == Own(p, before, id)
  {
    assert (before + [last])[..|before|] == before;
  }

  lemma OwnSnoc(p: Primitives, cells: Cells, before: seq<Change>, last: Change, id: string, c: Candidate)
    requires Touches(p, last) == Some(id) && ClaimAfter(p, cells, before, id) == Some(c)
    ensures ClaimAfter(p, cells, before + [last], id) == ApplyChange(p, c, last)
  {
    assert (before + [last])[..|before|] == before;
    var own := Own(p, before + [last], id);
    assert own == Own(p, before, id) + [last] && own[..|own| - 1] == Own(p, before, id);
  }

  lemma {:induction false} NotTouchedYet(p: Primitives, changes: seq<Change>, id: string)
    requires id !in Touched(p, changes)
    ensures Own(p, changes, id) == []
  {
    if |changes| > 0 {
      NotTouchedYet(p, changes[..|changes| - 1], id);
    }
  }

  lemma {:induction false} FoldStops(p: Primitives, start: Candidate, changes: seq<Change>, n: nat)
    requires n <= |changes| && Fold(p, start, changes[..n]).None?
    ensures Fold(p, start, changes).None?
    decreases |changes|
  {
    if n == |changes| {
      assert changes[..n] == changes;
    } else {
      assert changes[..|changes| - 1][..n] == changes[..n];
      FoldStops(p, start, changes[..|changes| - 1], n);
    }
  }

  lemma {:induction false} OwnPrefix(p: Primitives, changes: seq<Change>, n: nat, id: string)
    requires n <= |changes|
    ensures |Own(p, changes[..n], id)| <= |Own(p, changes, id)|
    ensures Own(p, changes, id)[..|Own(p, changes[..n], id)|] == Own(p, changes[..n], id)
    ensures id in Touched(p, changes[..n]) ==> id in Touched(p, changes)
    decreases |changes|
  {
    if n == |changes| {
      assert changes[..n] == changes;
    } else {
      assert changes[..|changes| - 1][..n] == changes[..n];
      OwnPrefix(p, changes[..|changes| - 1], n, id);
    }
  }

  lemma FailureStays(p: Primitives, cells: Cells, changes: seq<Change>, n: nat, id: string)
    requires n <= |changes| && id in Touched(p, changes[..n]) && ClaimAfter(p, cells, changes[..n], id).None?
    ensures id in Touched(p, changes) && ClaimAfter(p, cells, changes, id).None?
  {
    OwnPrefix(p, changes, n, id);
    FoldStops(p, Loaded(p, cells, id), Own(p, changes, id), |Own(p, changes[..n], id)|);
  }

  lemma JudgeAllNext(p: Primitives, st: State, changes: seq<Change>, order: seq<string>, i: nat, c: Candidate,
                     verdicts: seq<Verdict>)
    requires i < |order| && JudgeAll(p, st, changes, order[..i]) == Ok(verdicts)
    requires ClaimAfter(p, st.cells, changes, order[i]) == Some(c)
    ensures match Judge(p, st, order[i], c)
            case Err(e) => JudgeAll(p, st, changes, order) == Err(e)
            case Ok(v) => JudgeAll(p, st, changes, order[..i + 1]) == Ok(verdicts + [v])
  {
    assert order[..i + 1][..i] == order[..i];
    if Judge(p, st, order[i], c).Err? {
      RefusalStays(p, st, changes, order, i + 1);
    }
  }

  lemma {:induction false} RefusalStays(p: Primitives, st: State, changes: seq<Change>, ids: seq<string>, n: nat)
    requires n <= |ids| && JudgeAll(p, st, changes, ids[..n]).Err?
    ensures JudgeAll(p, st, changes, ids) == JudgeAll(p, st, changes, ids[..n])
    decreases |ids|
  {
    if n == |ids| {
      assert ids[..n] == ids;
    } else {
      assert ids[..|ids| - 1][..n] == ids[..n];
      RefusalStays(p, st, changes, ids[..|ids| - 1], n);
    }
  }

  lemma {:induction false} MalformedStays(p: Primitives, changes: seq<Change>, n: nat)
    requires n <= |changes| && FirstMalformed(p, changes[..n]).Some?
    ensures FirstMalformed(p, changes) == FirstMalformed(p, changes[..n])
    decreases |changes|
  {
    if n == |changes| {
      assert changes[..n] == changes;
    } else {
      assert changes[..|changes| - 1][..n] == changes[..n];
      MalformedStays(p, changes[..|changes| - 1], n);
    }
  }
}
