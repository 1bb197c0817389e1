/**
 * The records the store keeps and the peers exchange
 * (server/internal/store/models/credential.go, and the activity-log record
 * scanned and serialised by the store).
 */
module Models {
  import opened Base
  import opened Ids

  /** Who created a credential and when (Unix seconds). */
  datatype Metadata = Metadata(createdBy: string, createdAt: Int64, updatedAt: Int64, deletedAt: Int64)

  /** A stored secret. */
  datatype Credential = Credential(
    id: ID,
    username: string,
    password: string,
    hosts: seq<string>,
    extra: map<string, string>,
    tags: seq<string>,
    namespace: string,
    meta: Metadata)

  /** One replication record on the wire: the original timestamp and the statement text. */
  datatype ActivityLog = ActivityLog(timestamp: Int64, sqlQuery: string)
}
