// The search's view of the graph: the read-through neighbour lookup over the adjacency
// cache and the edge store, and the road graph that a coherent cache presents.
module Graph {
  import opened Model
  import opened Adj
  import opened Store

  /** The search context: the store and the shared adjacency cache. */
  datatype GraphCtx = GraphCtx(store: EdgeStore, adj: AdjCache)

  /** The open edges leaving u in the table; none when u's rows cannot be scanned. */
  function Succ(rows: seq<Row>, u: NodeId): (es: seq<Edge>)
    ensures forall e :: e in es ==> e.src == u
  {
    match OutgoingSpec(rows, true, u)
    case Ok(es) => es
    case Err(_) => []
  }

  /** Every cached list is exactly what the store gives for its key. */
  ghost predicate CacheAgrees(ctx: GraphCtx)
    reads ctx.store, ctx.adj
  {
    forall k :: k in ctx.adj.m ==> OutgoingSpec(ctx.store.rows, true, k) == Ok(ctx.adj.m[k])
  }

  /** GraphCtx.Neighbors: the cached list on a hit; on a miss the store's answer, which is
      put into the cache only when the store succeeded. */
  method Neighbors(ctx: GraphCtx, n: NodeId) returns (r: Result<seq<Edge>>)
    requires ctx.adj.Valid()
    modifies ctx.adj
    ensures ctx.adj.Valid()
    ensures n in old(ctx.adj.m) ==>
      r == Ok(old(ctx.adj.m)[n]) && ctx.adj.State() == AfterGet(old(ctx.adj.State()), n)
    ensures n !in old(ctx.adj.m) ==>
      && r == OutgoingSpec(ctx.store.rows, ctx.store.online, n)
      && ctx.adj.State() == if r.Ok? then AfterPut(AfterGet(old(ctx.adj.State()), n), n, r.value)
                            else AfterGet(old(ctx.adj.State()), n)
    ensures forall k :: k in ctx.adj.m ==>
      (k in old(ctx.adj.m) && ctx.adj.m[k] == old(ctx.adj.m)[k]) || (k == n && r.Ok? && ctx.adj.m[k] == r.value)
    ensures old(CacheAgrees(ctx)) ==> CacheAgrees(ctx) && (r.Ok? ==> r.value == Succ(ctx.store.rows, n))
  {
    var v, found := ctx.adj.Get(n);
    if found {
      return Ok(v);
    }
    r := ctx.store.Outgoing(n);
    if r.Err? {
      return;
    }
    ctx.adj.Put(n, r.value);
  }

  /** The fill on a successful miss: n is cached with the store's list, most recent, and
      the call counted one get and one put. */
  lemma MissFill(s: AdjState, n: NodeId, v: seq<Edge>)
    requires Inv(s) && n !in s.entries
    ensures var t := AfterPut(AfterGet(s, n), n, v);
            && n in t.entries && t.entries[n] == v && t.order[0] == n
            && t.gets == s.gets + 1 && t.hits == s.hits && t.puts == s.puts + 1
  {
    GetKeepsInv(s, n);
    PutKeepsInv(AfterGet(s, n), n, v);
  }

  /** A hit or a failed miss counts one get and no put, and leaves the cached lists alone. */
  lemma HitOrFailedMiss(s: AdjState, n: NodeId)
    requires Inv(s)
    ensures var t := AfterGet(s, n);
            && t.entries == s.entries && t.gets == s.gets + 1 && t.puts == s.puts
            && t.hits == (if n in s.entries then s.hits + 1 else s.hits)
            && (n in s.entries ==> t.order[0] == n)
  {
  }

  /** The road graph the table describes: u's successors are its open edges. */
  function Road(rows: seq<Row>): NodeId -> seq<Edge>
  {
    u => Succ(rows, u)
  }

  /** Every successor edge of u starts at u. */
  ghost predicate Outward(succ: NodeId -> seq<Edge>)
  {
    forall u, e :: e in succ(u) ==> e.src == u
  }

  lemma RoadOutward(rows: seq<Row>)
    ensures Outward(Road(rows))
  {
    forall u, e | e in Road(rows)(u)
      ensures e.src == u
    {
      assert e in Succ(rows, u);
    }
  }

  /** A walk from a to b: a sequence of edges of the graph, each starting where the
      previous one ended. */
  ghost predicate IsWalk(succ: NodeId -> seq<Edge>, w: seq<Edge>, a: NodeId, b: NodeId)
  {
    if w == [] then a == b
    else
      var e := w[|w| - 1];
      e in succ(e.src) && e.dst == b && IsWalk(succ, w[..|w| - 1], a, e.src)
  }

  /** The cost of a walk under the search's cost function. */
  function WalkCost(w: seq<Edge>, cost: (int, int) -> int): int
  {
    if w == [] then 0 else WalkCost(w[..|w| - 1], cost) + cost(w[|w| - 1].distM, w[|w| - 1].speed)
  }

  /** The nodes a walk visits, starting at a. */
  function Nodes(a: NodeId, w: seq<Edge>): (p: seq<NodeId>)
    ensures |p| == |w| + 1 && p[0] == a
    ensures forall i :: 0 < i < |p| ==> p[i] == w[i - 1].dst
  {
    if w == [] then [a] else Nodes(a, w[..|w| - 1]) + [w[|w| - 1].dst]
  }

  /** An edge in front of a walk: a walk from the edge's start, one edge longer and dearer. */
  lemma {:induction false} WalkPrepend(succ: NodeId -> seq<Edge>, e: Edge, w: seq<Edge>, b: NodeId,
                                       cost: (int, int) -> int)
    requires IsWalk(succ, w, e.dst, b) && e in succ(e.src)
    ensures IsWalk(succ, [e] + w, e.src, b)
    ensures WalkCost([e] + w, cost) == cost(e.distM, e.speed) + WalkCost(w, cost)
  {
    if w == [] {
      assert ([e] + w)[..0] == [];
    } else {
      var front, last := w[..|w| - 1], w[|w| - 1];
      WalkPrepend(succ, e, front, last.src, cost);
      assert ([e] + w)[..|[e] + w| - 1] == [e] + front;
    }
  }

  /** The nodes of a walk with an edge in front: the edge's start, then the rest. */
  lemma NodesPrepend(e: Edge, w: seq<Edge>)
    ensures Nodes(e.src, [e] + w) == [e.src] + Nodes(e.dst, w)
  {
  }
}
