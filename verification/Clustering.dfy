/** The election record and its comparisons (`clustering/dao.go`). */
module Clustering {
  import opened Common

  /** Times are microseconds, the resolution of a PostgreSQL timestamp. */
  const SECOND := 1_000_000

  datatype NodeInfo = NodeInfo(ip: string, swimPort: nat, busPort: nat, httpPort: nat)

  const ZERO_NODE_INFO := NodeInfo("", 0, 0, 0)

  /** What makes a record "the same node": its name and its NodeInfo. */
  datatype Identity = Identity(name: string, nodeInfo: NodeInfo)

  const NO_IDENTITY := Identity("", ZERO_NODE_INFO)

  /** The record a node carries. It is an object because the elector's own record and
      the life cycle manager's current master may be the same one. */
  class MasterMetadata {
    var id: int
    var owner: Identity
    var namespace: string

    constructor (id: int, owner: Identity, namespace: string)
      ensures this.id == id && this.owner == owner && this.namespace == namespace
    {
      this.id, this.owner, this.namespace := id, owner, namespace;
    }
  }

  /** `(*MasterMetadata).Equals`: false as soon as one side is nil. */
  predicate Equals(i: MasterMetadata?, record: MasterMetadata?)
    reads i, record
  {
    i != null && record != null && i.id == record.id && i.owner == record.owner
  }
}
