// Value types shared by the whole server: graph edges, route responses and the
// failure values of the edge store.
module Model {

  /** Node identifiers are opaque 64-bit ids in the source; here unbounded. */
  type NodeId = int

  /** A directed, open (non-closed) edge as handed to the search. */
  datatype Edge = Edge(src: NodeId, dst: NodeId, distM: int, speed: int)

  /** The answer to a route query. An empty path with total 0 means unreachable. */
  datatype RouteResponse = RouteResponse(path: seq<NodeId>, total: int, exploredNodes: nat, cacheHit: bool)

  /** Why a call into the relational store failed. */
  datatype StoreError =
    | ConnectionFailed   // the query or the transaction could not be started
    | ScanFailed         // a result row could not be converted into Go values
    | NoRows             // the locking SELECT found no row with that edge id

  datatype Option<+T> = None | Some(value: T)

  datatype Result<+T> = Ok(value: T) | Err(error: StoreError)
}
