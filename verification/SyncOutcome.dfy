/** What a received batch does, told without the functions that judge it: who passes, what is recorded, what fails. */
module SyncOutcome {
  import opened Prelude
  import opened Numerals
  import opened SyncTypes
  import opened SyncApply
  import opened SyncReplay

  // ---------------------------------------------------------------- verification

  /** The peer the claim names has a key on file, and the signature verifies under it. */
  ghost predicate Signed(p: Primitives, st: State, c: Candidate) {
    KeyOnFile(st, c.claim.originPeerId) && p.verify(c.claim, c.signature, st.publicKeys[c.claim.originPeerId])
  }

  predicate KeyOnFile(st: State, peerId: string) {
    peerId in st.publicKeys && TrimSpace(st.publicKeys[peerId]) != ""
  }

  /** The memory's own changes fold to a claim, which is unsigned or properly signed. */
  ghost predicate Passes(p: Primitives, st: State, changes: seq<Change>, id: string) {
    match ClaimAfter(p, st.cells, changes, id)
    case None => false
    case Some(c) => c.signature == "" || Signed(p, st, c)
  }

  /** The status of a memory that passes. */
  ghost predicate StatusRight(p: Primitives, st: State, changes: seq<Change>, id: string, status: Status) {
    match ClaimAfter(p, st.cells, changes, id)
    case None => false
    case Some(c) =>
      (status == MissingSignature <==> c.signature == "") &&
      (status == Valid <==> c.signature != "" && Signed(p, st, c))
  }

  /** The error that names a memory which does not pass. */
  ghost predicate RefusalRight(p: Primitives, st: State, changes: seq<Change>, id: string, e: Error) {
    match ClaimAfter(p, st.cells, changes, id)
    case None => e == InvalidClaimValue
    case Some(c) =>
      c.signature != "" &&
      (e == UnknownPeerKey(c.claim.memoryId) <==> !KeyOnFile(st, c.claim.originPeerId)) &&
      (e == InvalidSignature(c.claim.memoryId) <==> KeyOnFile(st, c.claim.originPeerId) && !Signed(p, st, c))
  }

  /** The first of the touched memories that does not pass, where all claims can be folded. */
  ghost predicate FirstFailing(p: Primitives, st: State, changes: seq<Change>, i: nat) {
    i < |Touched(p, changes)| && !Passes(p, st, changes, Touched(p, changes)[i]) &&
    forall k :: 0 <= k < i ==> Passes(p, st, changes, Touched(p, changes)[k])
  }

  lemma JudgeMeans(p: Primitives, st: State, id: string, c: Candidate)
    ensures Judge(p, st, id, c).Ok? <==> c.signature == "" || Signed(p, st, c)
    ensures Judge(p, st, id, c).Ok? ==>
              Judge(p, st, id, c).value == Verdict(id, if c.signature == "" then MissingSignature else Valid)
    ensures Judge(p, st, id, c).Err? ==>
              Judge(p, st, id, c).error == (if KeyOnFile(st, c.claim.originPeerId) then InvalidSignature(c.claim.memoryId)
                                            else UnknownPeerKey(c.claim.memoryId))
  {
    assert |c.signature| == 0 <==> c.signature == "";
    assert TrimSpace("") == "";
  }

  lemma AcceptableMeans(p: Primitives, st: State, changes: seq<Change>, id: string)
    ensures Acceptable(p, st, changes, id) <==> Passes(p, st, changes, id)
  {
    if ClaimAfter(p, st.cells, changes, id).Some? {
      JudgeMeans(p, st, id, ClaimAfter(p, st.cells, changes, id).value);
    }
  }

  /**
    A batch verifies exactly when every memory it touches folds to a claim that is unsigned, or signed under a
    key that is on file for its origin peer.
   */
  lemma VerifiesIffAllPass(p: Primitives, st: State, changes: seq<Change>)
    ensures Verified(p, st, changes).Ok? <==> forall id :: id in Touched(p, changes) ==> Passes(p, st, changes, id)
  {
    VerifiedIff(p, st, changes);
    forall id
      ensures Acceptable(p, st, changes, id) <==> Passes(p, st, changes, id)
    {
      AcceptableMeans(p, st, changes, id);
    }
  }

  /** Then there is one verdict for each touched memory, in order of first appearance, with the right status. */
  lemma VerdictsRight(p: Primitives, st: State, changes: seq<Change>, i: nat)
    requires Verified(p, st, changes).Ok? && i < |Touched(p, changes)|
    ensures |Verified(p, st, changes).value| == |Touched(p, changes)|
    ensures Verified(p, st, changes).value[i].memoryId == Touched(p, changes)[i]
    ensures StatusRight(p, st, changes, Touched(p, changes)[i], Verified(p, st, changes).value[i].status)
  {
    VerifiedIff(p, st, changes);
    var id, verdict := Touched(p, changes)[i], Verified(p, st, changes).value[i];
    assert JudgedAt(p, st, changes, id, verdict);
    JudgeMeans(p, st, id, ClaimAfter(p, st.cells, changes, id).value);
  }

  lemma {:induction false} FirstRefusal(p: Primitives, st: State, changes: seq<Change>, ids: seq<string>) returns (i: nat)
    requires JudgeAll(p, st, changes, ids).Err? && forall id :: id in ids ==> ClaimAfter(p, st.cells, changes, id).Some?
    ensures i < |ids| && !Passes(p, st, changes, ids[i])
    ensures forall k :: 0 <= k < i ==> Passes(p, st, changes, ids[k])
    ensures RefusalRight(p, st, changes, ids[i], JudgeAll(p, st, changes, ids).error)
  {
    var before := ids[..|ids| - 1];
    if JudgeAll(p, st, changes, before).Err? {
      i := FirstRefusal(p, st, changes, before);
    } else {
      i := |ids| - 1;
      JudgeMeans(p, st, ids[i], ClaimAfter(p, st.cells, changes, ids[i]).value);
      AllBeforePass(p, st, changes, before);
      assert forall k :: 0 <= k < i ==> before[k] == ids[k];
    }
  }

  lemma AllBeforePass(p: Primitives, st: State, changes: seq<Change>, ids: seq<string>)
    requires JudgeAll(p, st, changes, ids).Ok?
    ensures forall k :: 0 <= k < |ids| ==> Passes(p, st, changes, ids[k])
  {
    JudgedOneByOne(p, st, changes, ids);
    forall k | 0 <= k < |ids|
      ensures Passes(p, st, changes, ids[k])
    {
      assert ids[k] in ids;
      AcceptableMeans(p, st, changes, ids[k]);
    }
  }

  /**
    When verification refuses: a value that no claim can take refuses the batch before any signature is looked
    at; otherwise the first touched memory that does not pass is named, with the reason.
   */
  lemma RefusalNames(p: Primitives, st: State, changes: seq<Change>) returns (i: nat)
    requires Verified(p, st, changes).Err?
    ensures if exists id :: id in Touched(p, changes) && ClaimAfter(p, st.cells, changes, id).None?
            then Verified(p, st, changes).error == InvalidClaimValue
            else FirstFailing(p, st, changes, i) &&
                 RefusalRight(p, st, changes, Touched(p, changes)[i], Verified(p, st, changes).error)
  {
    i := 0;
    if forall id :: id in Touched(p, changes) ==> ClaimAfter(p, st.cells, changes, id).Some? {
      i := FirstRefusal(p, st, changes, Touched(p, changes));
    }
  }

  // ---------------------------------------------------------------- values and keys

  /** A value that no cell can hold: a blob that is not base64, with nothing that comes before it. */
  predicate Undecodable(p: Primitives, v: Value) {
    !v.isNull && v.integer.None? && v.float.None? && v.text.None? && v.blobB64.Some? && p.b64(v.blobB64.value).None?
  }

  /** Scanning a cell as text gives back what the cell was made of. */
  ghost predicate ScansPlainly(p: Primitives) {
    p.cellText(NullCell) == "" && (forall t :: p.cellText(TextCell(t)) == t) && (forall b :: p.cellText(BlobCell(b)) == b) &&
    (forall n :: p.cellText(IntCell(n)) == IntText(n)) && (forall r :: p.cellText(RealCell(r)) == p.floatText(r))
  }

  /** The claim prefers the text of a value, the stored cell its number. */
  lemma Preferences(p: Primitives, v: Value)
    ensures v.isNull ==> ValueAsString(p, v) == "" && DecodeValue(p, v) == Some(NullCell)
    ensures !v.isNull && v.text.Some? ==> ValueAsString(p, v) == v.text.value
    ensures !v.isNull && v.integer.Some? ==> DecodeValue(p, v) == Some(IntCell(v.integer.value))
    ensures !v.isNull && v.integer.None? && v.float.Some? ==> DecodeValue(p, v) == Some(RealCell(v.float.value))
    ensures DecodeValue(p, v).None? <==> Undecodable(p, v)
  {}

  /** So what is verified of a text column is what is stored in it, unless the value sets a text and another number. */
  lemma StoredAsReadIff(p: Primitives, v: Value)
    requires ScansPlainly(p) && !Undecodable(p, v)
    ensures p.cellText(DecodeValue(p, v).value) == ValueAsString(p, v) <==>
            v.isNull || v.text.None? || (v.integer.None? && v.float.None?) ||
            v.text.value == (match v.integer case Some(n) => IntText(n) case None => p.floatText(v.float.value))
  {}

  /** Numbers are read from the integer, else from the digits of the text; bytes from the blob, else the text. */
  lemma OtherReadings(p: Primitives, v: Value)
    ensures v.isNull ==> ValueAsInt64(v) == Some(0) && ValueAsBytes(p, v) == Some("")
    ensures !v.isNull && v.integer.Some? ==> ValueAsInt64(v) == v.integer
    ensures !v.isNull && v.integer.None? ==>
              ValueAsInt64(v) == (match v.text case Some(t) => Atoi(t) case None => None)
    ensures !v.isNull && v.blobB64.Some? ==> ValueAsBytes(p, v) == p.b64(v.blobB64.value)
    ensures !v.isNull && v.blobB64.None? ==> ValueAsBytes(p, v) == v.text
  {}

  /** The row a primary key names: its text from the first letter or digit on, or all of it if there is none. */
  ghost predicate NamesRow(p: Primitives, encoded: string, id: string) {
    match p.b64(encoded)
    case None => id == ""
    case Some(decoded) =>
      |id| <= |decoded| && decoded[|decoded| - |id|..] == id &&
      (forall i :: 0 <= i < |decoded| - |id| ==> !Letter(decoded[i])) &&
      (if exists i :: 0 <= i < |decoded| && Letter(decoded[i]) then |id| > 0 && Letter(id[0]) else id == decoded)
  }

  predicate Letter(c: char) {
    '0' <= c <= '9' || 'A' <= c <= 'Z' || 'a' <= c <= 'z'
  }

  lemma {:induction false} SuffixFound(s: string)
    ensures match FromAlphaNumeric(s)
            case Some(t) =>
              0 < |t| <= |s| && s[|s| - |t|..] == t && Letter(t[0]) &&
              forall i :: 0 <= i < |s| - |t| ==> !Letter(s[i])
            case None => forall i :: 0 <= i < |s| ==> !Letter(s[i])
  {
    if |s| > 0 && !Letter(s[0]) {
      SuffixFound(s[1..]);
      assert forall i :: 0 < i < |s| ==> s[i] == s[1..][i - 1];
    }
  }

  /** The row and the cell a change addresses; only a row of the memory table with a non-blank id is a memory. */
  lemma RowNamed(p: Primitives, ch: Change) returns (id: string)
    ensures NamesRow(p, ch.pkB64, id)
    ensures Touches(p, ch) == if ch.table == "memory_nodes" && TrimSpace(id) != "" then Some(id) else None
    ensures ch.table == "memory_nodes" ==> KeyOf(p, ch) == (Memory(id), ch.cid)
    ensures ch.table != "memory_nodes" ==>
              KeyOf(p, ch) == (Other(ch.table, match p.b64(ch.pkB64) case Some(b) => b case None => ""), ch.cid)
  {
    id := PkText(p, ch.pkB64);
    match p.b64(ch.pkB64)
    case None =>
    case Some(decoded) =>
      SuffixFound(decoded);
      if FromAlphaNumeric(decoded).Some? {
        assert Letter(decoded[|decoded| - |id|]);
      }
  }

  // ---------------------------------------------------------------- the outcome of a batch

  /** Key, site and value of the change decode; the first that does not is the reason. */
  ghost predicate ReasonOf(p: Primitives, ch: Change, e: Error) {
    if p.b64(ch.pkB64).None? then e == InvalidPkEncoding
    else if p.b64(ch.siteIdB64).None? then e == InvalidSiteIdEncoding
    else Undecodable(p, ch.val) && e == InvalidValueEncoding
  }

  predicate WellFormed(p: Primitives, ch: Change) {
    p.b64(ch.pkB64).Some? && p.b64(ch.siteIdB64).Some? && !Undecodable(p, ch.val)
  }

  lemma {:induction false} MalformedMeans(p: Primitives, changes: seq<Change>)
    ensures FirstMalformed(p, changes).None? <==> forall ch :: ch in changes ==> WellFormed(p, ch)
    ensures FirstMalformed(p, changes).Some? ==>
              exists i :: 0 <= i < |changes| && ReasonOf(p, changes[i], FirstMalformed(p, changes).value) &&
                          forall k :: 0 <= k < i ==> WellFormed(p, changes[k])
  {
    if |changes| > 0 {
      var before, last := changes[..|changes| - 1], changes[|changes| - 1];
      MalformedMeans(p, before);
      Preferences(p, last.val);
      assert forall ch :: ch in changes <==> ch in before || ch == last;
      assert Malformed(p, last).None? <==> WellFormed(p, last);
      if FirstMalformed(p, before).Some? {
        var i :| 0 <= i < |before| && ReasonOf(p, before[i], FirstMalformed(p, before).value) &&
                 forall k :: 0 <= k < i ==> WellFormed(p, before[k]);
        assert ReasonOf(p, changes[i], FirstMalformed(p, changes).value);
        assert forall k :: 0 <= k < i ==> WellFormed(p, changes[k]) by {
          assert forall k :: 0 <= k < i ==> before[k] == changes[k];
        }
      } else if FirstMalformed(p, changes).Some? {
        assert ReasonOf(p, changes[|before|], FirstMalformed(p, changes).value);
        forall k | 0 <= k < |before|
          ensures WellFormed(p, changes[k])
        {
          assert before[k] in before;
        }
      }
    }
  }

  /** The batch is applied when its hashes match, every memory passes and every change is well formed. */
  ghost predicate Admissible(p: Primitives, st: State, meta: Meta, batch: Batch) {
    batch.schemaHash == meta.schemaHash && batch.crrManifestHash == meta.crrManifestHash &&
    (forall id :: id in Touched(p, batch.changes) ==> Passes(p, st, batch.changes, id)) &&
    forall ch :: ch in batch.changes ==> WellFormed(p, ch)
  }

  lemma AppliedIff(p: Primitives, st: State, meta: Meta, fromPeerId: string, batch: Batch)
    ensures Applied(p, st, meta, fromPeerId, batch).1 == None <==> Admissible(p, st, meta, batch)
  {
    VerifiesIffAllPass(p, st, batch.changes);
    MalformedMeans(p, batch.changes);
  }

  /** The newer of two states: the higher version, and on a tie the value that ranks higher. */
  predicate Beats(p: Primitives, a: CellState, b: CellState) {
    a.colVersion > b.colVersion || (a.colVersion == b.colVersion && p.rank(a.value) > p.rank(b.value))
  }

  /** The cell state a well-formed change brings. */
  predicate Brings(p: Primitives, ch: Change, cell: CellState) {
    cell.colVersion == ch.colVersion && DecodeValue(p, ch.val) == Some(cell.value)
  }

  /** A cell is as it was, or the state of a change of the batch that beats it; and no change of the batch beats it. */
  ghost predicate CellRight(p: Primitives, before: Option<CellState>, changes: seq<Change>, k: (RowKey, string),
                            after: Option<CellState>)
  {
    (after == before ||
     (after.Some? && (before.Some? ==> Beats(p, after.value, before.value)) &&
      exists ch :: ch in changes && KeyOf(p, ch) == k && Brings(p, ch, after.value))) &&
    forall ch, cell :: ch in changes && KeyOf(p, ch) == k && Brings(p, ch, cell) ==>
      after.Some? && !Beats(p, cell, after.value)
  }

  lemma {:induction false} CellsRight(p: Primitives, cells: Cells, changes: seq<Change>, k: (RowKey, string))
    requires forall ch :: ch in changes ==> WellFormed(p, ch)
    ensures CellRight(p, Lookup(cells, k), changes, k, Lookup(MergeAll(p, cells, changes), k))
  {
    if |changes| > 0 {
      var before, last := changes[..|changes| - 1], changes[|changes| - 1];
      assert changes == before + [last];
      CellsRight(p, cells, before, k);
      assert last in changes;
      Preferences(p, last.val);
      assert Brings(p, last, StateOf(p, last));
      CellNext(p, Lookup(cells, k), before, last, k, Lookup(MergeAll(p, cells, before), k),
               Lookup(MergeAll(p, cells, changes), k));
    }
  }

  lemma CellNext(p: Primitives, stored: Option<CellState>, before: seq<Change>, last: Change, k: (RowKey, string),
                 middle: Option<CellState>, after: Option<CellState>)
    requires CellRight(p, stored, before, k, middle) && Brings(p, last, StateOf(p, last))
    requires after == if KeyOf(p, last) != k || (middle.Some? && !Beats(p, StateOf(p, last), middle.value)) then middle
                      else Some(StateOf(p, last))
    ensures CellRight(p, stored, before + [last], k, after)
  {
    var changes := before + [last];
    assert forall ch :: ch in changes <==> ch in before || ch == last;
  }

  ghost predicate AllCellsRight(p: Primitives, before: Cells, changes: seq<Change>, after: Cells) {
    forall k :: CellRight(p, Lookup(before, k), changes, k, Lookup(after, k))
  }

  /** Touched memories have the right status, the others the one they had. */
  ghost predicate AllStatusesRight(p: Primitives, st: State, changes: seq<Change>, after: map<string, Status>) {
    (forall id :: id in Touched(p, changes) ==> id in after && StatusRight(p, st, changes, id, after[id])) &&
    forall id :: id !in Touched(p, changes) ==> Lookup(after, id) == Lookup(st.verification, id)
  }

  /** The cursor moves to the batch's max version if it has one, the peer's error is cleared, and no other entry changes. */
  ghost predicate HeaderRight(st: State, fromPeerId: string, batch: Batch, after: State) {
    after.publicKeys == st.publicKeys && after.quarantine == st.quarantine &&
    (forall key :: Lookup(after.cursors, key) ==
      if key == (fromPeerId, batch.namespace) && batch.maxVersion > 0 then Some(batch.maxVersion)
      else Lookup(st.cursors, key)) &&
    forall key :: Lookup(after.peerErrors, key) ==
      if key == (fromPeerId, batch.namespace) then Some(None) else Lookup(st.peerErrors, key)
  }

  lemma {:induction false} RecordedOnly(table: map<string, Status>, verdicts: seq<Verdict>, id: string)
    requires forall v :: v in verdicts ==> v.memoryId != id
    ensures Lookup(RecordVerdicts(table, verdicts), id) == Lookup(table, id)
  {
    if |verdicts| > 0 {
      assert verdicts[|verdicts| - 1] in verdicts;
      RecordedOnly(table, verdicts[..|verdicts| - 1], id);
    }
  }

  lemma RecordedRight(p: Primitives, st: State, changes: seq<Change>, id: string)
    requires Verified(p, st, changes).Ok?
    ensures var table := RecordVerdicts(st.verification, Verified(p, st, changes).value);
            if id in Touched(p, changes) then id in table && StatusRight(p, st, changes, id, table[id])
            else Lookup(table, id) == Lookup(st.verification, id)
  {
    var verdicts, ids := Verified(p, st, changes).value, Touched(p, changes);
    if id in ids {
      RecordedVerdict(p, st, changes, id);
      JudgeMeans(p, st, id, ClaimAfter(p, st.cells, changes, id).value);
    } else {
      forall v | v in verdicts
        ensures v.memoryId != id
      {
        var i :| 0 <= i < |verdicts| && verdicts[i] == v;
        VerifiedIff(p, st, changes);
        VerdictsRight(p, st, changes, i);
        assert ids[i] in ids;
      }
      RecordedOnly(st.verification, verdicts, id);
    }
  }

  /** What an applied batch leaves behind, told by its changes and its header. */
  lemma AppliedRight(p: Primitives, st: State, meta: Meta, fromPeerId: string, batch: Batch)
    requires Admissible(p, st, meta, batch)
    ensures var after := Applied(p, st, meta, fromPeerId, batch).0;
            AllCellsRight(p, st.cells, batch.changes, after.cells) &&
            AllStatusesRight(p, st, batch.changes, after.verification) && HeaderRight(st, fromPeerId, batch, after)
  {
    AppliedIff(p, st, meta, fromPeerId, batch);
    CellsAllRight(p, st.cells, batch.changes);
    StatusesAllRight(p, st, batch.changes);
    HeaderOfAccepted(p, st, fromPeerId, batch, Verified(p, st, batch.changes).value);
  }

  lemma HeaderOfAccepted(p: Primitives, st: State, fromPeerId: string, batch: Batch, verdicts: seq<Verdict>)
    ensures HeaderRight(st, fromPeerId, batch, Accepted(p, st, fromPeerId, batch, verdicts))
  {}

  lemma CellsAllRight(p: Primitives, cells: Cells, changes: seq<Change>)
    requires forall ch :: ch in changes ==> WellFormed(p, ch)
    ensures AllCellsRight(p, cells, changes, MergeAll(p, cells, changes))
  {
    forall k
      ensures CellRight(p, Lookup(cells, k), changes, k, Lookup(MergeAll(p, cells, changes), k))
    {
      CellsRight(p, cells, changes, k);
    }
  }

  lemma StatusesAllRight(p: Primitives, st: State, changes: seq<Change>)
    requires Verified(p, st, changes).Ok?
    ensures AllStatusesRight(p, st, changes, RecordVerdicts(st.verification, Verified(p, st, changes).value))
  {
    var table := RecordVerdicts(st.verification, Verified(p, st, changes).value);
    forall id
      ensures if id in Touched(p, changes) then id in table && StatusRight(p, st, changes, id, table[id])
              else Lookup(table, id) == Lookup(st.verification, id)
    {
      RecordedRight(p, st, changes, id);
    }
  }

  /** Why a batch that is not admissible is refused: the first of the three checks that it fails. */
  ghost predicate RefusedFor(p: Primitives, st: State, meta: Meta, batch: Batch, e: Error) {
    if batch.schemaHash != meta.schemaHash || batch.crrManifestHash != meta.crrManifestHash then e == IncompatibleMetadata
    else if exists id :: id in Touched(p, batch.changes) && ClaimAfter(p, st.cells, batch.changes, id).None?
    then e == InvalidClaimValue
    else if exists id :: id in Touched(p, batch.changes) && !Passes(p, st, batch.changes, id)
    then exists i: nat :: FirstFailing(p, st, batch.changes, i) &&
                     RefusalRight(p, st, batch.changes, Touched(p, batch.changes)[i], e)
    else exists i :: 0 <= i < |batch.changes| && ReasonOf(p, batch.changes[i], e) &&
                     forall k :: 0 <= k < i ==> WellFormed(p, batch.changes[k])
  }

  /** A refused batch is quarantined with its reason and recorded at the peer, unless its id is taken. */
  lemma RefusedRight(p: Primitives, st: State, meta: Meta, fromPeerId: string, batch: Batch)
    requires !Admissible(p, st, meta, batch)
    ensures var (after, failure) := Applied(p, st, meta, fromPeerId, batch);
            if batch.batchId in st.quarantine then after == st && failure == Some(BatchAlreadyQuarantined)
            else
              failure.Some? && RefusedFor(p, st, meta, batch, failure.value) &&
              after == st.(quarantine := st.quarantine[batch.batchId := failure.value],
                           peerErrors := st.peerErrors[(fromPeerId, batch.namespace) := failure])
  {
    AppliedIff(p, st, meta, fromPeerId, batch);
    VerifiesIffAllPass(p, st, batch.changes);
    MalformedMeans(p, batch.changes);
    if Verified(p, st, batch.changes).Err? {
      var i := RefusalNames(p, st, batch.changes);
    }
  }
}
