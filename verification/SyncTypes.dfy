/** The wire format of a sync batch. */
module SyncTypes {
  import opened Prelude

  /** Optional fields, several of which a sender may set; each reader has its own order of preference. */
  datatype Value = Value(isNull: bool, integer: Option<int>, float: Option<real>, text: Option<string>,
                         blobB64: Option<string>)

  datatype Change = Change(table: string, pkB64: string, cid: string, val: Value, colVersion: int, dbVersion: int,
                           siteIdB64: string, cl: int, seqNo: int)

  datatype Batch = Batch(batchId: string, fromPeerId: string, namespace: string, schemaHash: string,
                         crrManifestHash: string, maxVersion: int, changes: seq<Change>)

  datatype Meta = Meta(schemaHash: string, crrManifestHash: string)
}
