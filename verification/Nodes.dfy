// Node identity: ids, ports, types and states as they travel on the wire.

module Nodes {
  import opened Bytes

  type NodeId = Word16
  type Port = Word16

  /** node_status_t: any byte, three of them named. */
  type Status = Byte
  const ALIVE: Status := 0
  const SUSPECT: Status := 1
  const DEAD: Status := 2

  const NODE_TYPE_UNKNOWN: Byte := 0
  const NODE_TYPE_ROUTER: Byte := 1
  const NODE_TYPE_WORKER: Byte := 2

  const MAX_IP_LEN: nat := 16
}
