/** Rows of the tables that several components write. Clock columns that nothing reads back are left out. */
module Records {
  import opened Prelude

  /** A row of retrieval_units, keyed by unit id. */
  datatype UnitRow = UnitRow(sourceType: string, sourceId: string, memorySpace: string, namespace: string,
                             unitKind: string, title: string, body: string, authoredAtMS: int,
                             sensitivity: string, retentionClass: string, state: string, sourceUri: string,
                             projectKey: string, branchName: string)

  /** A unit the worker may embed and the lexical index may show. */
  predicate Exposed(u: UnitRow) {
    u.state == "active" && u.sensitivity != "secret"
  }

  /** A row of transcript_chunks, keyed by chunk id. */
  datatype ChunkRow = ChunkRow(sessionId: string, chunkSeq: nat, chunkKind: string, startSeq: int, endSeq: int,
                               text: string, authoredAtMS: int, sensitivity: string, retentionClass: string)

  datatype CandidateStatus = Pending | Approved | Rejected

  /** A row of memory_candidates, keyed by candidate id. */
  datatype CandidateRow = CandidateRow(namespace: string, candidateType: string, status: CandidateStatus,
                                       subject: string, body: string, sourceUri: string, authoredAtMS: int,
                                       authorAgentId: string, originPeerId: string, sensitivity: string,
                                       retentionClass: string, projectKey: string, branchName: string,
                                       approvedMemoryId: string, reviewNote: string)

  type Candidates = map<string, CandidateRow>

  /**
    Insert a pending candidate, or refresh the one already there if it is still pending.
    The ingest statement leaves the source uri of an existing row alone; the service's replaces it.
   */
  function UpsertCandidate(table: Candidates, id: string, incoming: CandidateRow, replaceSourceUri: bool): Candidates {
    if id !in table then table[id := incoming.(status := Pending, approvedMemoryId := "", reviewNote := "")]
    else if table[id].status != Pending then table
    else
      var stored := table[id];
      table[id := incoming.(status := Pending, approvedMemoryId := stored.approvedMemoryId, reviewNote := stored.reviewNote,
                            sourceUri := if replaceSourceUri then incoming.sourceUri else stored.sourceUri)]
  }

  /** The id under which ingest stores the candidate of a chunk. */
  function CandidateId(digest: string -> string, chunkId: string): string {
    "cand_" + digest(chunkId)
  }

  ghost predicate Injective(digest: string -> string) {
    forall a, b :: digest(a) == digest(b) ==> a == b
  }

  lemma CandidateIdInjective(digest: string -> string, a: string, b: string)
    requires Injective(digest) && CandidateId(digest, a) == CandidateId(digest, b)
    ensures a == b
  {
    assert CandidateId(digest, a)[5..] == digest(a) && CandidateId(digest, b)[5..] == digest(b);
  }

  /** Re-ingest never touches a reviewed candidate, nor any other row. */
  lemma UpsertCandidateKeeps(table: Candidates, id: string, incoming: CandidateRow, replaceSourceUri: bool, other: string)
    requires other in table && (other != id || table[other].status != Pending)
    ensures other in UpsertCandidate(table, id, incoming, replaceSourceUri)
    ensures UpsertCandidate(table, id, incoming, replaceSourceUri)[other] == table[other]
  {}
}
