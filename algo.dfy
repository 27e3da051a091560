// The shortest-path search of the algo package: lazy-deletion Dijkstra over the
// read-through graph context, followed by the walk back along predecessor links and an
// in-place reversal of the collected path.
module Algo {
  import opened Model
  import opened Seqs
  import opened Adj
  import opened Store
  import opened Graph
  import opened Search

  /** The target of every edge of es. */
  function EdgeDsts(es: seq<Edge>): (r: seq<NodeId>)
    ensures forall e :: e in es ==> e.dst in r
  {
    if es == [] then [] else EdgeDsts(es[..|es| - 1]) + [es[|es| - 1].dst]
  }

  /** The target of every row of the table. */
  function RowDsts(rows: seq<Row>): (r: seq<NodeId>)
    ensures forall x :: x in rows ==> x.dst in r
  {
    if rows == [] then [] else RowDsts(rows[..|rows| - 1]) + [rows[|rows| - 1].dst]
  }

  /** The targets of the cached lists of the keys ks. */
  function CacheDsts(ks: seq<NodeId>, m: map<NodeId, seq<Edge>>): (r: seq<NodeId>)
    ensures forall k, e :: k in ks && k in m && e in m[k] ==> e.dst in r
  {
    if ks == [] then []
    else
      var k := ks[|ks| - 1];
      CacheDsts(ks[..|ks| - 1], m) + (if k in m then EdgeDsts(m[k]) else [])
  }

  /** Every cached edge ends in ns and has a non-negative weight. */
  ghost predicate CacheWithin(m: map<NodeId, seq<Edge>>, ns: seq<NodeId>, cost: (int, int) -> int)
  {
    forall k, e :: k in m && e in m[k] ==> e.dst in ns && Weight(cost, e) >= 0
  }

  /** Every row ends in ns and has a non-negative weight. */
  ghost predicate RowsWithin(rows: seq<Row>, ns: seq<NodeId>, cost: (int, int) -> int)
  {
    forall r :: r in rows ==> r.dst in ns && cost(r.distM, r.speed) >= 0
  }

  /** The search's node list covers every row and every cached edge. */
  lemma UniverseCovers(src: NodeId, rows: seq<Row>, ks: seq<NodeId>, m: map<NodeId, seq<Edge>>,
                       cost: (int, int) -> int)
    requires forall k :: k in m ==> k in ks
    requires forall r :: r in rows ==> cost(r.distM, r.speed) >= 0
    requires forall k, e :: k in m && e in m[k] ==> cost(e.distM, e.speed) >= 0
    ensures var ns := [src] + RowDsts(rows) + CacheDsts(ks, m);
            RowsWithin(rows, ns, cost) && CacheWithin(m, ns, cost)
  {
    var ns := [src] + RowDsts(rows) + CacheDsts(ks, m);
    forall k, e | k in m && e in m[k]
      ensures e.dst in ns
    {
      assert e.dst in CacheDsts(ks, m);
    }
    forall r | r in rows
      ensures r.dst in ns
    {
      assert r.dst in RowDsts(rows);
    }
  }

  /** Replacing or adding one cached list that lies within ns keeps the cache within ns. */
  lemma CacheWithinKept(m0: map<NodeId, seq<Edge>>, m: map<NodeId, seq<Edge>>, u: NodeId, v: seq<Edge>,
                        ns: seq<NodeId>, cost: (int, int) -> int)
    requires CacheWithin(m0, ns, cost) && EdgesWithin(v, ns, cost)
    requires forall k :: k in m ==> (k in m0 && m[k] == m0[k]) || (k == u && m[k] == v)
    ensures CacheWithin(m, ns, cost)
  {
    forall k, e | k in m && e in m[k]
      ensures e.dst in ns && Weight(cost, e) >= 0
    {
      if !(k in m0 && m[k] == m0[k]) {
        assert e in v;
      }
    }
  }

  /** Every cached list is one of m0 or the store's answer for its key. */
  ghost predicate FromStore(m: map<NodeId, seq<Edge>>, m0: map<NodeId, seq<Edge>>, rows: seq<Row>, online: bool)
  {
    forall k :: k in m ==> (k in m0 && m[k] == m0[k]) || OutgoingSpec(rows, online, k) == Ok(m[k])
  }

  /** A lookup that keeps the old lists and at most fills u with the store's answer keeps
      every list one of m0 or the store's. */
  lemma FromStoreKept(m0: map<NodeId, seq<Edge>>, m1: map<NodeId, seq<Edge>>, m: map<NodeId, seq<Edge>>,
                      u: NodeId, v: seq<Edge>, rows: seq<Row>, online: bool)
    requires FromStore(m1, m0, rows, online)
    requires forall k :: k in m ==> (k in m1 && m[k] == m1[k]) || (k == u && m[k] == v)
    requires u !in m1 ==> OutgoingSpec(rows, online, u) == Ok(v)
    requires u in m1 ==> v == m1[u]
    ensures FromStore(m, m0, rows, online)
  {
  }

  /** What the store answers for a node lies within the rows' bounds. */
  lemma StoreWithin(rows: seq<Row>, online: bool, n: NodeId, ns: seq<NodeId>, cost: (int, int) -> int)
    requires RowsWithin(rows, ns, cost) && OutgoingSpec(rows, online, n).Ok?
    ensures EdgesWithin(OutgoingSpec(rows, online, n).value, ns, cost)
  {
    OutgoingFromRows(rows, online, n);
  }

  /** With non-negative rows the road graph has non-negative weights. */
  lemma RoadNonNegative(rows: seq<Row>, cost: (int, int) -> int)
    requires forall r :: r in rows ==> cost(r.distM, r.speed) >= 0
    ensures NonNegative(Road(rows), cost)
  {
    forall u, e | e in Road(rows)(u)
      ensures Weight(cost, e) >= 0
    {
      assert OutgoingSpec(rows, true, u).Ok?;
      OutgoingFromRows(rows, true, u);
    }
  }

  /** The cache side of the search loop's invariant: a valid cache whose lists, like the
      rows, stay within ns; every entry is one of m0 or the store's answer for its key; and
      the cache still agrees with the store when it did at the start. */
  ghost predicate CacheOk(ctx: GraphCtx, m0: map<NodeId, seq<Edge>>, ns: seq<NodeId>, cost: (int, int) -> int,
                          coh: bool)
    reads ctx.adj, ctx.store
  {
    && ctx.adj.Valid() && CacheWithin(ctx.adj.m, ns, cost) && RowsWithin(ctx.store.rows, ns, cost)
    && FromStore(ctx.adj.m, m0, ctx.store.rows, ctx.store.online)
    && (coh ==> CacheAgrees(ctx))
  }

  /** One pass of the search loop after the pop of cur: fetch the neighbours of cur's node
      and relax them. A store error is passed on; otherwise the new frontier keeps the loop
      invariant, one node more settled, and the termination measure dropped. */
  method Expand(ctx: GraphCtx, cur: Item, cost: (int, int) -> int,
                dist: map<NodeId, int>, prev: map<NodeId, NodeId>, pq: multiset<Item>,
                ghost f: Frontier, ghost settled: set<NodeId>, ghost last: int, ghost ns: seq<NodeId>,
                ghost src: NodeId, ghost dst: NodeId, ghost m0: map<NodeId, seq<Edge>>, ghost coh: bool)
    returns (err: Option<StoreError>, dist2: map<NodeId, int>, prev2: map<NodeId, NodeId>,
             pq2: multiset<Item>, ghost g: Frontier)
    requires CacheOk(ctx, m0, ns, cost, coh)
    requires Searching(f, settled, last, Road(ctx.store.rows), cost, src, dst, ns, coh)
    requires IsMin(cur, f.pq) && cur.node != dst
    requires dist == f.dist && prev == f.prev && pq == f.pq - multiset{cur}
    modifies ctx.adj
    ensures CacheOk(ctx, m0, ns, cost, coh)
    ensures err.None? ==>
      && dist2 == g.dist && prev2 == g.prev && pq2 == g.pq
      && Searching(g, settled + {cur.node}, cur.d, Road(ctx.store.rows), cost, src, dst, ns, coh)
      && Progress(f, g, ns)
  {
    var u := cur.node;
    ghost var m1 := ctx.adj.m;
    var r := Neighbors(ctx, u);
    if r.Err? {
      return Some(r.error), dist, prev, pq, f;
    }
    var es := r.value;
    assert EdgesWithin(es, ns, cost) by {
      if u !in m1 {
        StoreWithin(ctx.store.rows, ctx.store.online, u, ns, cost);
      }
    }
    CacheWithinKept(m1, ctx.adj.m, u, es, ns, cost);
    FromStoreKept(m0, m1, ctx.adj.m, u, es, ctx.store.rows, ctx.store.online);
    ghost var via2, stamp2, clock2;
    dist2, prev2, pq2, via2, stamp2, clock2 := Relax(u, es, cost, dist, prev, pq, f.via, f.stamp, f.clock);
    g := Frontier(dist2, prev2, via2, stamp2, clock2, pq2);
    StepKeeps(f, settled, last, cur, es, Road(ctx.store.rows), cost, src, dst, ns, coh);
    err := None;
  }

  /** The reconstruction: walk back from dst along the predecessor links collecting nodes,
      add src, and reverse the collected slice in place. The result runs from src to dst;
      when the links form a tree of graph edges it is the node sequence of the tree's walk,
      whose cost is dst's distance. */
  method Reconstruct(src: NodeId, dst: NodeId, dist: map<NodeId, int>, prev: map<NodeId, NodeId>,
                     ghost f: Frontier, ghost settled: set<NodeId>, ghost succ: NodeId -> seq<Edge>,
                     ghost cost: (int, int) -> int, ghost coh: bool)
    returns (path: seq<NodeId>, ghost walk: seq<Edge>)
    requires dist == f.dist && prev == f.prev && src in dist && dst in dist && dist[src] == 0
    requires LinksOk(f, src) && RanksOk(f) && forall v :: v in dist ==> dist[v] >= 0
    requires coh ==> Tree(f, settled, succ, cost) && Outward(succ)
    ensures |path| > 0 && path[0] == src && path[|path| - 1] == dst
    ensures src == dst ==> path == [src]
    ensures coh ==> IsWalk(succ, walk, src, dst)
    ensures coh ==> Nodes(src, walk) == path
    ensures coh ==> WalkCost(walk, cost) == dist[dst]
  {
    var back: seq<NodeId> := [];
    var node := dst;
    walk := [];
    while node != src
      invariant node in dist && (back == [] ==> node == dst) && (back != [] ==> back[0] == dst && src != dst)
      invariant coh ==> && IsWalk(succ, walk, node, dst) && Nodes(node, walk) == [node] + Reverse(back)
                        && WalkCost(walk, cost) == dist[dst] - dist[node]
      decreases dist[node], f.stamp[node]
    {
      if coh {
        TraceStep(f, settled, succ, cost, src, dst, node, back, walk);
      }
      assert node in f.prev && RankLess(f, prev[node], node);
      back := back + [node];
      walk := if coh then [f.via[node]] + walk else walk;
      node := prev[node];
    }
    ghost var collected := back;
    back := back + [src];
    var a := new NodeId[|back|](i requires 0 <= i < |back| => back[i]);
    assert a[..] == back;
    ReverseInPlace(a);
    path := a[..];
    ReverseSnoc(collected, src, []);
    assert path == [src] + Reverse(collected) by {
      assert Reverse(collected + [src]) + [] == Reverse(collected + [src]);
      assert Reverse(collected) + [] == Reverse(collected);
    }
  }

  /** The search loop: pop a least heap item, stop at dst, otherwise expand its node; a
      store error stops the search. Without error the maps hold a frontier with the loop
      invariant, and when the cache agreed with the store on entry, dst either has the least
      walk cost as its distance or no walk reaches it. */
  method Explore(ctx: GraphCtx, src: NodeId, dst: NodeId, cost: (int, int) -> int)
    returns (dist: map<NodeId, int>, prev: map<NodeId, NodeId>, explored: nat, err: Option<StoreError>,
             ghost f: Frontier, ghost settled: set<NodeId>)
    requires ctx.adj.Valid()
    requires forall r :: r in ctx.store.rows ==> cost(r.distM, r.speed) >= 0
    requires forall k, e :: k in ctx.adj.m && e in ctx.adj.m[k] ==> cost(e.distM, e.speed) >= 0
    modifies ctx.adj
    ensures ctx.adj.Valid()
    ensures forall k :: k in ctx.adj.m ==>
      (k in old(ctx.adj.m) && ctx.adj.m[k] == old(ctx.adj.m)[k])
      || OutgoingSpec(ctx.store.rows, ctx.store.online, k) == Ok(ctx.adj.m[k])
    ensures old(CacheAgrees(ctx)) ==> CacheAgrees(ctx)
    ensures src == dst ==> explored == 0 && err == None
    ensures err.Some? ==> explored >= 1
    ensures err.None? ==>
      && dist == f.dist && prev == f.prev && src in dist && dist[src] == 0
      && LinksOk(f, src) && RanksOk(f) && (forall v :: v in dist ==> dist[v] >= 0)
      && (src == dst ==> dst in dist)
    ensures err.None? && old(CacheAgrees(ctx)) ==>
      Tree(f, settled, Road(ctx.store.rows), cost) && Settles(dist, Road(ctx.store.rows), cost, src, dst)
  {
    ghost var rows := ctx.store.rows;
    ghost var coh := CacheAgrees(ctx);
    ghost var ns := [src] + RowDsts(rows) + CacheDsts(ctx.adj.ll, ctx.adj.m);
    UniverseCovers(src, rows, ctx.adj.ll, ctx.adj.m, cost);
    RoadNonNegative(rows, cost);

    dist := map[src := 0];
    prev := map[];
    var pq: multiset<Item> := multiset{Item(src, 0)};
    f := Start(src);
    StartSearching(Road(rows), cost, src, dst, ns, coh);
    settled := {};
    ghost var last := 0;
    ghost var reached := false;
    explored := 0;

    while |pq| > 0
      invariant ctx.store.rows == rows && CacheOk(ctx, old(ctx.adj.m), ns, cost, coh)
      invariant dist == f.dist && prev == f.prev && pq == f.pq
      invariant Searching(f, settled, last, Road(rows), cost, src, dst, ns, coh)
      invariant src == dst ==> explored == 0 && pq == multiset{Item(src, 0)}
      invariant !reached
      decreases Missing(ns, dist), Potential(dist, ns), |pq|
    {
      MinExists(pq);
      var cur :| IsMin(cur, pq);
      pq := pq - multiset{cur};
      if cur.node == dst {
        if coh {
          ReachedOptimal(f, settled, last, cur, Road(rows), cost, src, dst, ns);
        }
        reached := true;
        break;
      }
      explored := explored + 1;
      var e;
      ghost var g;
      e, dist, prev, pq, g := Expand(ctx, cur, cost, dist, prev, pq, f, settled, last, ns, src, dst, old(ctx.adj.m), coh);
      if e.Some? {
        return dist, prev, explored, e, f, settled;
      }
      f, settled, last := g, settled + {cur.node}, cur.d;
    }
    if coh && !reached {
      ExhaustedUnreachable(f, settled, last, Road(rows), cost, src, dst, ns);
    }
    err := None;
  }

  /** Dijkstra: the cheapest path from src to dst under cost, with its total and the number
      of nodes expanded; a store error ends the search with no path. When the adjacency
      cache agrees with the store on entry, the path is the node sequence of a cheapest walk
      of the road graph, and an empty path without error means dst is unreachable. */
  method Dijkstra(ctx: GraphCtx, src: NodeId, dst: NodeId, cost: (int, int) -> int)
    returns (path: seq<NodeId>, total: int, explored: nat, err: Option<StoreError>, ghost walk: seq<Edge>)
    requires ctx.adj.Valid()
    requires forall r :: r in ctx.store.rows ==> cost(r.distM, r.speed) >= 0
    requires forall k, e :: k in ctx.adj.m && e in ctx.adj.m[k] ==> cost(e.distM, e.speed) >= 0
    modifies ctx.adj
    ensures ctx.adj.Valid()
    ensures forall k :: k in ctx.adj.m ==>
      (k in old(ctx.adj.m) && ctx.adj.m[k] == old(ctx.adj.m)[k])
      || OutgoingSpec(ctx.store.rows, ctx.store.online, k) == Ok(ctx.adj.m[k])
    ensures err.Some? ==> path == [] && total == 0 && explored >= 1
    ensures src == dst ==> path == [src] && total == 0 && explored == 0 && err == None
    ensures err.None? && path == [] ==> total == 0
    ensures path != [] ==> path[0] == src && path[|path| - 1] == dst && err == None
    ensures old(CacheAgrees(ctx)) ==> CacheAgrees(ctx)
    ensures old(CacheAgrees(ctx)) && path != [] ==>
      && IsWalk(Road(ctx.store.rows), walk, src, dst) && Nodes(src, walk) == path
      && WalkCost(walk, cost) == total
      && forall w :: IsWalk(Road(ctx.store.rows), w, src, dst) ==> total <= WalkCost(w, cost)
    ensures old(CacheAgrees(ctx)) && path == [] && err == None ==>
      forall w :: !IsWalk(Road(ctx.store.rows), w, src, dst)
  {
    ghost var coh := CacheAgrees(ctx);
    var dist, prev, e;
    ghost var f, settled;
    dist, prev, explored, e, f, settled := Explore(ctx, src, dst, cost);
    if e.Some? {
      return [], 0, explored, e, [];
    }
    if dst !in dist {
      return [], 0, explored, None, [];
    }
    if coh {
      RoadOutward(ctx.store.rows);
    }
    path, walk := Reconstruct(src, dst, dist, prev, f, settled, Road(ctx.store.rows), cost, coh);
    total, err := dist[dst], None;
  }
}
