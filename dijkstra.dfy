// Lazy-deletion Dijkstra over the read-through graph context. The binary heap is an
// abstract multiset of (node, tentative distance) items with extract-min; stale items
// are not removed when a node improves, they are popped and expanded again later.
module Search {
  import opened Model
  import opened Seqs
  import opened Adj
  import opened Store
  import opened Graph

  /** A heap entry: a node and the tentative distance it was pushed with. */
  datatype Item = Item(node: NodeId, d: int)

  /** The weight the search gives an edge. */
  function Weight(cost: (int, int) -> int, e: Edge): int
  {
    cost(e.distM, e.speed)
  }

  /** The search's maps and heap, with the ghost bookkeeping of the proof: the edge that
      set each predecessor, and the time stamp of each node's last improvement. */
  datatype Frontier = Frontier(
    dist: map<NodeId, int>,
    prev: map<NodeId, NodeId>,
    via: map<NodeId, Edge>,
    stamp: map<NodeId, nat>,
    clock: nat,
    pq: multiset<Item>)

  /** v got a new or a strictly smaller tentative distance between d and d2. */
  ghost predicate Changed(d: map<NodeId, int>, d2: map<NodeId, int>, v: NodeId)
  {
    v in d2 && (v !in d || d2[v] < d[v])
  }

  /** The frontier after relaxing one edge e of u, where u's distance is du: the target
      is set when it has no distance yet or the new one is strictly smaller. */
  function RelaxEdge(u: NodeId, du: int, e: Edge, cost: (int, int) -> int, g: Frontier): Frontier
  {
    var nd := du + Weight(cost, e);
    if e.dst !in g.dist || nd < g.dist[e.dst] then
      Frontier(g.dist[e.dst := nd], g.prev[e.dst := u], g.via[e.dst := e],
               g.stamp[e.dst := g.clock], g.clock + 1, g.pq + multiset{Item(e.dst, nd)})
    else g
  }

  /** The frontier after relaxing the edges es of u in order. */
  function RelaxAll(u: NodeId, du: int, es: seq<Edge>, cost: (int, int) -> int, f: Frontier): Frontier
  {
    if es == [] then f else RelaxEdge(u, du, es[|es| - 1], cost, RelaxAll(u, du, es[..|es| - 1], cost, f))
  }

  /** The heap items that relaxing es pushes. */
  function Pushed(u: NodeId, du: int, es: seq<Edge>, cost: (int, int) -> int, f: Frontier): multiset<Item>
  {
    if es == [] then multiset{}
    else
      var g, e := RelaxAll(u, du, es[..|es| - 1], cost, f), es[|es| - 1];
      var nd := du + Weight(cost, e);
      Pushed(u, du, es[..|es| - 1], cost, f)
        + (if e.dst !in g.dist || nd < g.dist[e.dst] then multiset{Item(e.dst, nd)} else multiset{})
  }

  /** The targets of a list of edges. */
  function Targets(es: seq<Edge>): (t: set<NodeId>)
    ensures forall e :: e in es ==> e.dst in t
    ensures forall v :: v in t ==> exists e :: e in es && e.dst == v
  {
    set e | e in es :: e.dst
  }

  /** Relaxation adds exactly the edge targets as keys, and never raises a distance. */
  lemma {:induction false} RelaxKeys(u: NodeId, du: int, es: seq<Edge>, cost: (int, int) -> int, f: Frontier)
    ensures var g := RelaxAll(u, du, es, cost, f);
            && g.dist.Keys == f.dist.Keys + Targets(es)
            && (forall v :: v in f.dist ==> g.dist[v] <= f.dist[v])
  {
    if es != [] {
      var front := es[..|es| - 1];
      RelaxKeys(u, du, front, cost, f);
      assert Targets(es) == Targets(front) + {es[|es| - 1].dst} by {
        assert es == front + [es[|es| - 1]];
      }
    }
  }

  /** After relaxation every edge target's distance is at most du plus the edge's weight. */
  lemma {:induction false} RelaxBound(u: NodeId, du: int, es: seq<Edge>, cost: (int, int) -> int, f: Frontier)
    ensures var g := RelaxAll(u, du, es, cost, f);
            forall e :: e in es ==> e.dst in g.dist && g.dist[e.dst] <= du + Weight(cost, e)
  {
    if es != [] {
      var front := es[..|es| - 1];
      RelaxBound(u, du, front, cost, f);
      assert es == front + [es[|es| - 1]];
    }
  }

  /** The heap grows by the pushed items, each at least du, at least its node's distance, and
      each for a node whose distance improved. */
  lemma {:induction false} RelaxPushes(u: NodeId, du: int, es: seq<Edge>, cost: (int, int) -> int, f: Frontier)
    requires forall e :: e in es ==> Weight(cost, e) >= 0
    ensures var g, pushed := RelaxAll(u, du, es, cost, f), Pushed(u, du, es, cost, f);
            && g.pq == f.pq + pushed
            && forall it :: it in pushed ==>
                 it.d >= du && Changed(f.dist, g.dist, it.node) && g.dist[it.node] <= it.d
  {
    if es != [] {
      var front := es[..|es| - 1];
      RelaxPushes(u, du, front, cost, f);
      RelaxKeys(u, du, front, cost, f);
    }
  }

  /** What a node v that improved from f to g records: u as predecessor, one of es as via
      edge, du plus that edge's weight as distance, a stamp taken after f, a pushed item. */
  ghost predicate ImprovedBy(u: NodeId, du: int, es: seq<Edge>, cost: (int, int) -> int,
                             f: Frontier, g: Frontier, pushed: multiset<Item>, v: NodeId)
  {
    && v in g.dist && v in g.prev && g.prev[v] == u
    && v in g.via && g.via[v] in es && g.via[v].dst == v
    && g.dist[v] == du + Weight(cost, g.via[v])
    && v in g.stamp && f.clock <= g.stamp[v] < g.clock
    && Item(v, g.dist[v]) in pushed
  }

  /** Relaxing one more edge e after front keeps what every improved node records. */
  lemma ChangedStep(u: NodeId, du: int, front: seq<Edge>, e: Edge, cost: (int, int) -> int,
                    f: Frontier, g0: Frontier, p0: multiset<Item>)
    requires g0.clock >= f.clock
    requires forall v :: Changed(f.dist, g0.dist, v) ==> ImprovedBy(u, du, front, cost, f, g0, p0, v)
    ensures var g, nd := RelaxEdge(u, du, e, cost, g0), du + Weight(cost, e);
            var p := p0 + (if e.dst !in g0.dist || nd < g0.dist[e.dst] then multiset{Item(e.dst, nd)} else multiset{});
            && g.clock >= f.clock
            && forall v :: Changed(f.dist, g.dist, v) ==> ImprovedBy(u, du, front + [e], cost, f, g, p, v)
  {
    var g, nd := RelaxEdge(u, du, e, cost, g0), du + Weight(cost, e);
    var p := p0 + (if e.dst !in g0.dist || nd < g0.dist[e.dst] then multiset{Item(e.dst, nd)} else multiset{});
    forall v | Changed(f.dist, g.dist, v)
      ensures ImprovedBy(u, du, front + [e], cost, f, g, p, v)
    {
      if g == g0 || v != e.dst {
        assert Changed(f.dist, g0.dist, v);
        assert ImprovedBy(u, du, front, cost, f, g0, p0, v);
      }
    }
  }

  /** A node that improved took u as predecessor and the relaxed edge as its via edge, got a
      fresh stamp and was pushed with its new distance. */
  lemma {:induction false} RelaxChanged(u: NodeId, du: int, es: seq<Edge>, cost: (int, int) -> int, f: Frontier)
    ensures var g, pushed := RelaxAll(u, du, es, cost, f), Pushed(u, du, es, cost, f);
            && g.clock >= f.clock
            && forall v :: Changed(f.dist, g.dist, v) ==> ImprovedBy(u, du, es, cost, f, g, pushed, v)
  {
    if es != [] {
      var front, e := es[..|es| - 1], es[|es| - 1];
      RelaxChanged(u, du, front, cost, f);
      ChangedStep(u, du, front, e, cost, f, RelaxAll(u, du, front, cost, f), Pushed(u, du, front, cost, f));
      assert es == front + [e];
    }
  }

  /** A node that did not improve keeps its predecessor, via edge and stamp. */
  lemma {:induction false} RelaxUnchanged(u: NodeId, du: int, es: seq<Edge>, cost: (int, int) -> int, f: Frontier)
    ensures var g := RelaxAll(u, du, es, cost, f);
            forall v :: !Changed(f.dist, g.dist, v) ==>
              && (v in g.prev <==> v in f.prev) && (v in f.prev ==> g.prev[v] == f.prev[v])
              && (v in g.via <==> v in f.via) && (v in f.via ==> g.via[v] == f.via[v])
              && (v in g.stamp <==> v in f.stamp) && (v in f.stamp ==> g.stamp[v] == f.stamp[v])
  {
    if es != [] {
      var front := es[..|es| - 1];
      RelaxUnchanged(u, du, front, cost, f);
      RelaxKeys(u, du, front, cost, f);
    }
  }

  /** With non-negative weights u's own distance survives relaxation of its edges. */
  lemma RelaxKeepsSource(u: NodeId, es: seq<Edge>, cost: (int, int) -> int, f: Frontier)
    requires u in f.dist && forall e :: e in es ==> Weight(cost, e) >= 0
    ensures var g := RelaxAll(u, f.dist[u], es, cost, f);
            u in g.dist && g.dist[u] == f.dist[u]
  {
    RelaxKeys(u, f.dist[u], es, cost, f);
    RelaxChanged(u, f.dist[u], es, cost, f);
  }

  /** Relaxing one edge more extends the fold by that edge. */
  lemma RelaxAllNext(u: NodeId, du: int, es: seq<Edge>, i: nat, cost: (int, int) -> int, f: Frontier)
    requires i < |es|
    ensures RelaxAll(u, du, es[..i + 1], cost, f) == RelaxEdge(u, du, es[i], cost, RelaxAll(u, du, es[..i], cost, f))
  {
    assert es[..i + 1][..i] == es[..i];
  }

  /** One pass of the inner loop: relax the edge e of u with the strict `<` test. */
  method RelaxOne(u: NodeId, e: Edge, cost: (int, int) -> int,
                  dist: map<NodeId, int>, prev: map<NodeId, NodeId>, pq: multiset<Item>,
                  ghost via: map<NodeId, Edge>, ghost stamp: map<NodeId, nat>, ghost clock: nat)
    returns (dist2: map<NodeId, int>, prev2: map<NodeId, NodeId>, pq2: multiset<Item>,
             ghost via2: map<NodeId, Edge>, ghost stamp2: map<NodeId, nat>, ghost clock2: nat)
    requires u in dist && Weight(cost, e) >= 0
    ensures Frontier(dist2, prev2, via2, stamp2, clock2, pq2)
              == RelaxEdge(u, dist[u], e, cost, Frontier(dist, prev, via, stamp, clock, pq))
    ensures u in dist2 && dist2[u] == dist[u]
  {
    dist2, prev2, pq2, via2, stamp2, clock2 := dist, prev, pq, via, stamp, clock;
    var w := Weight(cost, e);
    var nd := dist[u] + w;
    if e.dst !in dist || nd < dist[e.dst] {
      dist2 := dist[e.dst := nd];
      prev2 := prev[e.dst := u];
      pq2 := pq + multiset{Item(e.dst, nd)};
      via2 := via[e.dst := e];
      stamp2 := stamp[e.dst := clock];
      clock2 := clock + 1;
    }
  }

  /** The inner loop of the search: relax every edge of u in order. */
  method Relax(u: NodeId, es: seq<Edge>, cost: (int, int) -> int,
               dist: map<NodeId, int>, prev: map<NodeId, NodeId>, pq: multiset<Item>,
               ghost via: map<NodeId, Edge>, ghost stamp: map<NodeId, nat>, ghost clock: nat)
    returns (dist2: map<NodeId, int>, prev2: map<NodeId, NodeId>, pq2: multiset<Item>,
             ghost via2: map<NodeId, Edge>, ghost stamp2: map<NodeId, nat>, ghost clock2: nat)
    requires u in dist
    requires forall e :: e in es ==> Weight(cost, e) >= 0
    ensures Frontier(dist2, prev2, via2, stamp2, clock2, pq2)
              == RelaxAll(u, dist[u], es, cost, Frontier(dist, prev, via, stamp, clock, pq))
    ensures forall e :: e in es ==> e.dst in dist2 && dist2[e.dst] <= dist[u] + Weight(cost, e)
  {
    dist2, prev2, pq2, via2, stamp2, clock2 := dist, prev, pq, via, stamp, clock;
    ghost var f := Frontier(dist, prev, via, stamp, clock, pq);
    var i := 0;
    while i < |es|
      invariant 0 <= i <= |es|
      invariant Frontier(dist2, prev2, via2, stamp2, clock2, pq2) == RelaxAll(u, dist[u], es[..i], cost, f)
      invariant u in dist2 && dist2[u] == dist[u]
    {
      assert es[i] in es;
      RelaxAllNext(u, dist[u], es, i, cost, f);
      dist2, prev2, pq2, via2, stamp2, clock2 := RelaxOne(u, es[i], cost, dist2, prev2, pq2, via2, stamp2, clock2);
      i := i + 1;
    }
    assert es[..i] == es;
    RelaxBound(u, dist[u], es, cost, f);
  }

  /** Relaxing edges whose targets already satisfy the bound changes nothing. */
  lemma {:induction false} RelaxNoop(u: NodeId, du: int, es: seq<Edge>, cost: (int, int) -> int, f: Frontier)
    requires forall e :: e in es ==> e.dst in f.dist && f.dist[e.dst] <= du + Weight(cost, e)
    ensures RelaxAll(u, du, es, cost, f) == f && Pushed(u, du, es, cost, f) == multiset{}
  {
    if es != [] {
      RelaxNoop(u, du, es[..|es| - 1], cost, f);
      assert es[|es| - 1] in es;
    }
  }

  /** a ranks below b: a smaller distance, or the same distance set earlier. Each predecessor
      ranks below its node, so predecessor chains end. */
  ghost predicate RankLess(f: Frontier, a: NodeId, b: NodeId)
  {
    && a in f.dist && b in f.dist && a in f.stamp && b in f.stamp
    && (f.dist[a] < f.dist[b] || (f.dist[a] == f.dist[b] && f.stamp[a] < f.stamp[b]))
  }

  /** Distances: src at 0, none negative, all inside the finite node list N, every heap
      item for a node with a distance. */
  ghost predicate DistOk(f: Frontier, src: NodeId, N: seq<NodeId>)
  {
    && src in f.dist && f.dist[src] == 0
    && (forall v :: v in f.dist ==> f.dist[v] >= 0)
    && (forall v :: v in f.dist ==> v in N)
    && (forall it :: it in f.pq ==> it.node in f.dist)
  }

  /** Every node but src has a predecessor, a via edge into it and a stamp; every
      predecessor ranks below its node. */
  ghost predicate LinksOk(f: Frontier, src: NodeId)
  {
    && (forall v :: v in f.prev <==> v in f.dist && v != src)
    && (forall v :: v in f.via <==> v in f.prev)
    && (forall v :: v in f.stamp <==> v in f.dist)
    && (forall v :: v in f.stamp ==> f.stamp[v] < f.clock)
    && (forall v :: v in f.via ==> f.via[v].dst == v)
  }

  /** Every predecessor ranks below its node. */
  ghost predicate RanksOk(f: Frontier)
  {
    forall v :: v in f.prev ==> RankLess(f, f.prev[v], v)
  }

  /** Every edge of es ends in N and has a non-negative weight. */
  ghost predicate EdgesWithin(es: seq<Edge>, N: seq<NodeId>, cost: (int, int) -> int)
  {
    forall e :: e in es ==> e.dst in N && Weight(cost, e) >= 0
  }

  /** The frontier after popping cur and relaxing es from cur's node. */
  function Step(f: Frontier, cur: Item, es: seq<Edge>, cost: (int, int) -> int): Frontier
    requires cur.node in f.dist
  {
    RelaxAll(cur.node, f.dist[cur.node], es, cost, f.(pq := f.pq - multiset{cur}))
  }

  lemma StepDistOk(f: Frontier, cur: Item, es: seq<Edge>, cost: (int, int) -> int, src: NodeId, N: seq<NodeId>)
    requires DistOk(f, src, N) && cur in f.pq && EdgesWithin(es, N, cost)
    ensures DistOk(Step(f, cur, es, cost), src, N)
  {
    var u, fm := cur.node, f.(pq := f.pq - multiset{cur});
    var du := fm.dist[u];
    RelaxKeys(u, du, es, cost, fm);
    RelaxChanged(u, du, es, cost, fm);
    RelaxPushes(u, du, es, cost, fm);
    var g := Step(f, cur, es, cost);
    forall v | v in g.dist
      ensures g.dist[v] >= 0
    {
      if Changed(fm.dist, g.dist, v) {
        assert ImprovedBy(u, du, es, cost, fm, g, Pushed(u, du, es, cost, fm), v);
      }
    }
  }

  lemma StepLinksOk(f: Frontier, cur: Item, es: seq<Edge>, cost: (int, int) -> int, src: NodeId, N: seq<NodeId>)
    requires DistOk(f, src, N) && LinksOk(f, src) && cur in f.pq && EdgesWithin(es, N, cost)
    ensures LinksOk(Step(f, cur, es, cost), src)
  {
    var u, fm := cur.node, f.(pq := f.pq - multiset{cur});
    var du := fm.dist[u];
    RelaxKeys(u, du, es, cost, fm);
    RelaxChanged(u, du, es, cost, fm);
    RelaxUnchanged(u, du, es, cost, fm);
    var g, pushed := Step(f, cur, es, cost), Pushed(u, du, es, cost, fm);
    forall v | Changed(fm.dist, g.dist, v)
      ensures v != src
    {
      assert ImprovedBy(u, du, es, cost, fm, g, pushed, v);
    }
  }

  lemma StepRanksOk(f: Frontier, cur: Item, es: seq<Edge>, cost: (int, int) -> int, src: NodeId, N: seq<NodeId>)
    requires DistOk(f, src, N) && LinksOk(f, src) && RanksOk(f) && cur in f.pq && EdgesWithin(es, N, cost)
    ensures RanksOk(Step(f, cur, es, cost))
  {
    var u, fm := cur.node, f.(pq := f.pq - multiset{cur});
    var du := fm.dist[u];
    RelaxKeys(u, du, es, cost, fm);
    RelaxChanged(u, du, es, cost, fm);
    RelaxUnchanged(u, du, es, cost, fm);
    RelaxKeepsSource(u, es, cost, fm);
    var g, pushed := Step(f, cur, es, cost), Pushed(u, du, es, cost, fm);
    forall v | v in g.prev
      ensures RankLess(g, g.prev[v], v)
    {
      if Changed(fm.dist, g.dist, v) {
        assert ImprovedBy(u, du, es, cost, fm, g, pushed, v);
        assert !Changed(fm.dist, g.dist, u);
      } else {
        var p := fm.prev[v];
        assert RankLess(fm, p, v);
        if !Changed(fm.dist, g.dist, p) {
          assert g.dist[p] == fm.dist[p];
        }
      }
    }
  }
  /** cur is a least item of the heap: what heap.Pop returns. */
  predicate IsMin(cur: Item, pq: multiset<Item>)
  {
    cur in pq && forall it :: it in pq ==> cur.d <= it.d
  }

  /** Heap items are no smaller than the last pop and no smaller than their node's
      distance; settled nodes are no farther than the last pop; dst is never settled. */
  ghost predicate Ordered(f: Frontier, settled: set<NodeId>, last: int, dst: NodeId)
  {
    && dst !in settled && settled <= f.dist.Keys
    && (forall it :: it in f.pq ==> it.d >= last && it.node in f.dist && f.dist[it.node] <= it.d)
    && (forall v :: v in settled ==> f.dist[v] <= last)
  }

  /** Every edge out of a settled node has been relaxed. */
  ghost predicate Closed(f: Frontier, settled: set<NodeId>, succ: NodeId -> seq<Edge>, cost: (int, int) -> int)
  {
    forall v, e :: v in settled && v in f.dist && e in succ(v) ==>
      e.dst in f.dist && f.dist[e.dst] <= f.dist[v] + Weight(cost, e)
  }

  /** Every unsettled node with a distance waits in the heap with that distance. */
  ghost predicate Queued(f: Frontier, settled: set<NodeId>)
  {
    forall v :: v in f.dist && v !in settled ==> Item(v, f.dist[v]) in f.pq
  }

  /** Each predecessor is settled, and a node's distance is its predecessor's plus the weight
      of the graph edge that joined them. */
  ghost predicate Tree(f: Frontier, settled: set<NodeId>, succ: NodeId -> seq<Edge>, cost: (int, int) -> int)
  {
    forall v :: v in f.prev ==>
      && f.prev[v] in settled && f.prev[v] in f.dist && v in f.dist
      && v in f.via && f.via[v] in succ(f.prev[v])
      && f.dist[v] == f.dist[f.prev[v]] + Weight(cost, f.via[v])
  }

  ghost predicate Sound(f: Frontier, settled: set<NodeId>, last: int, succ: NodeId -> seq<Edge>,
                        cost: (int, int) -> int, dst: NodeId)
  {
    Ordered(f, settled, last, dst) && Closed(f, settled, succ, cost) && Queued(f, settled)
    && Tree(f, settled, succ, cost)
  }

  /** What the pop of a least item tells: it is no smaller than the last pop, and when its
      node is not settled yet it carries the node's current distance. */
  lemma PopFacts(f: Frontier, settled: set<NodeId>, last: int, cur: Item, dst: NodeId)
    requires Ordered(f, settled, last, dst) && Queued(f, settled) && IsMin(cur, f.pq)
    ensures cur.d >= last && cur.node in f.dist
    ensures cur.node !in settled ==> f.dist[cur.node] == cur.d
  {
    if cur.node !in settled {
      assert Item(cur.node, f.dist[cur.node]) in f.pq;
    }
  }

  /** Expanding a settled node again changes nothing but the heap. */
  lemma StepSettled(f: Frontier, settled: set<NodeId>, cur: Item, succ: NodeId -> seq<Edge>,
                    cost: (int, int) -> int)
    requires cur.node in f.dist && cur.node in settled && Closed(f, settled, succ, cost)
    ensures Step(f, cur, succ(cur.node), cost) == f.(pq := f.pq - multiset{cur})
    ensures Pushed(cur.node, f.dist[cur.node], succ(cur.node), cost, f.(pq := f.pq - multiset{cur})) == multiset{}
  {
    RelaxNoop(cur.node, f.dist[cur.node], succ(cur.node), cost, f.(pq := f.pq - multiset{cur}));
  }

  /** Expanding an unsettled node at the distance of the last pop leaves every settled node
      alone. */
  lemma StepKeepsSettled(f: Frontier, settled: set<NodeId>, last: int, cur: Item, es: seq<Edge>,
                         cost: (int, int) -> int, dst: NodeId)
    requires Ordered(f, settled, last, dst) && cur.node in f.dist && f.dist[cur.node] >= last
    requires forall e :: e in es ==> Weight(cost, e) >= 0
    ensures var g := Step(f, cur, es, cost);
            forall v :: v in settled ==> !Changed(f.dist, g.dist, v) && v in g.dist && g.dist[v] == f.dist[v]
  {
    var u, fm := cur.node, f.(pq := f.pq - multiset{cur});
    var du := fm.dist[u];
    RelaxKeys(u, du, es, cost, fm);
    RelaxChanged(u, du, es, cost, fm);
    var g := Step(f, cur, es, cost);
  }
  /** Expanding an unsettled node at the least heap distance keeps the heap order. */
  lemma StepOrderedFresh(f: Frontier, settled: set<NodeId>, last: int, cur: Item, es: seq<Edge>,
                         cost: (int, int) -> int, dst: NodeId)
    requires Ordered(f, settled, last, dst) && IsMin(cur, f.pq) && cur.node != dst
    requires cur.node !in settled && cur.d >= last && cur.node in f.dist && f.dist[cur.node] == cur.d
    requires forall e :: e in es ==> Weight(cost, e) >= 0
    ensures Ordered(Step(f, cur, es, cost), settled + {cur.node}, cur.d, dst)
  {
    var u, fm := cur.node, f.(pq := f.pq - multiset{cur});
    var du := fm.dist[u];
    var g, pushed := Step(f, cur, es, cost), Pushed(u, du, es, cost, fm);
    RelaxKeys(u, du, es, cost, fm);
    RelaxPushes(u, du, es, cost, fm);
    RelaxKeepsSource(u, es, cost, fm);
    forall it | it in g.pq
      ensures it.d >= cur.d && it.node in g.dist && g.dist[it.node] <= it.d
    {
      if it !in pushed {
        assert it in f.pq;
      }
    }
    forall v | v in settled + {u}
      ensures g.dist[v] <= cur.d
    {
      if v != u {
        assert g.dist[v] <= f.dist[v];
      }
    }
  }

  lemma StepOrdered(f: Frontier, settled: set<NodeId>, last: int, cur: Item, succ: NodeId -> seq<Edge>,
                      cost: (int, int) -> int, src: NodeId, dst: NodeId, N: seq<NodeId>)
    requires DistOk(f, src, N) && Sound(f, settled, last, succ, cost, dst)
    requires IsMin(cur, f.pq) && cur.node != dst && EdgesWithin(succ(cur.node), N, cost)
    ensures Ordered(Step(f, cur, succ(cur.node), cost), settled + {cur.node}, cur.d, dst)
  {
    PopFacts(f, settled, last, cur, dst);
    if cur.node in settled {
      StepSettled(f, settled, cur, succ, cost);
      var g := Step(f, cur, succ(cur.node), cost);
      assert forall it :: it in g.pq ==> it in f.pq;
    } else {
      StepOrderedFresh(f, settled, last, cur, succ(cur.node), cost, dst);
    }
  }

  lemma StepClosed(f: Frontier, settled: set<NodeId>, last: int, cur: Item, succ: NodeId -> seq<Edge>,
                      cost: (int, int) -> int, src: NodeId, dst: NodeId, N: seq<NodeId>)
    requires DistOk(f, src, N) && Sound(f, settled, last, succ, cost, dst)
    requires IsMin(cur, f.pq) && cur.node != dst && EdgesWithin(succ(cur.node), N, cost)
    ensures Closed(Step(f, cur, succ(cur.node), cost), settled + {cur.node}, succ, cost)
  {
    var u, es, fm := cur.node, succ(cur.node), f.(pq := f.pq - multiset{cur});
    PopFacts(f, settled, last, cur, dst);
    var du := fm.dist[u];
    var g := Step(f, cur, es, cost);
    RelaxKeys(u, du, es, cost, fm);
    if u in settled {
      StepSettled(f, settled, cur, succ, cost);
    } else {
      StepKeepsSettled(f, settled, last, cur, es, cost, dst);
      RelaxKeepsSource(u, es, cost, fm);
      RelaxBound(u, du, es, cost, fm);
    }
  }

  lemma StepQueued(f: Frontier, settled: set<NodeId>, last: int, cur: Item, succ: NodeId -> seq<Edge>,
                      cost: (int, int) -> int, src: NodeId, dst: NodeId, N: seq<NodeId>)
    requires DistOk(f, src, N) && Sound(f, settled, last, succ, cost, dst)
    requires IsMin(cur, f.pq) && cur.node != dst && EdgesWithin(succ(cur.node), N, cost)
    ensures Queued(Step(f, cur, succ(cur.node), cost), settled + {cur.node})
  {
    var u, es, fm := cur.node, succ(cur.node), f.(pq := f.pq - multiset{cur});
    PopFacts(f, settled, last, cur, dst);
    var du := fm.dist[u];
    var g := Step(f, cur, es, cost);
    RelaxKeys(u, du, es, cost, fm);
    var pushed := Pushed(u, du, es, cost, fm);
    if u in settled {
      StepSettled(f, settled, cur, succ, cost);
    } else {
      RelaxPushes(u, du, es, cost, fm);
      RelaxChanged(u, du, es, cost, fm);
    }
    assert g.pq == fm.pq + pushed;
    forall v | v in g.dist && v !in settled + {u}
      ensures Item(v, g.dist[v]) in g.pq
    {
      if Changed(fm.dist, g.dist, v) {
        assert ImprovedBy(u, du, es, cost, fm, g, pushed, v);
      } else {
        QueuedSurvives(f, settled, cur, g, pushed, v);
      }
    }
  }

  lemma QueuedSurvives(f: Frontier, settled: set<NodeId>, cur: Item, g: Frontier, pushed: multiset<Item>, v: NodeId)
    requires Queued(f, settled) && v in f.dist && v !in settled && v != cur.node
    requires g.pq == f.pq - multiset{cur} + pushed && v in g.dist && g.dist[v] == f.dist[v]
    ensures Item(v, g.dist[v]) in g.pq
  {
    assert Item(v, f.dist[v]) in f.pq;
  }

  lemma StepTree(f: Frontier, settled: set<NodeId>, last: int, cur: Item, succ: NodeId -> seq<Edge>,
                      cost: (int, int) -> int, src: NodeId, dst: NodeId, N: seq<NodeId>)
    requires DistOk(f, src, N) && Sound(f, settled, last, succ, cost, dst)
    requires IsMin(cur, f.pq) && cur.node != dst && EdgesWithin(succ(cur.node), N, cost)
    ensures Tree(Step(f, cur, succ(cur.node), cost), settled + {cur.node}, succ, cost)
  {
    var u, es, fm := cur.node, succ(cur.node), f.(pq := f.pq - multiset{cur});
    PopFacts(f, settled, last, cur, dst);
    var du := fm.dist[u];
    var g := Step(f, cur, es, cost);
    RelaxKeys(u, du, es, cost, fm);
    if u in settled {
      StepSettled(f, settled, cur, succ, cost);
    } else {
      StepKeepsSettled(f, settled, last, cur, es, cost, dst);
      RelaxKeepsSource(u, es, cost, fm);
      RelaxChanged(u, du, es, cost, fm);
      RelaxUnchanged(u, du, es, cost, fm);
      var pushed := Pushed(u, du, es, cost, fm);
      forall v | v in g.prev
        ensures g.prev[v] in settled + {u} && g.prev[v] in g.dist && v in g.dist
        ensures v in g.via && g.via[v] in succ(g.prev[v])
        ensures g.dist[v] == g.dist[g.prev[v]] + Weight(cost, g.via[v])
      {
        if Changed(fm.dist, g.dist, v) {
          assert ImprovedBy(u, du, es, cost, fm, g, pushed, v);
        }
      }
    }
  }
  /** Some least item exists in a non-empty heap. */
  lemma {:induction false} MinExists(pq: multiset<Item>)
    requires |pq| > 0
    ensures exists cur :: IsMin(cur, pq)
  {
    var x :| x in pq;
    var rest := pq - multiset{x};
    if |rest| == 0 {
      assert pq == multiset{x};
      assert IsMin(x, pq);
    } else {
      MinExists(rest);
      var m :| IsMin(m, rest);
      if x.d < m.d {
        assert IsMin(x, pq);
      } else {
        assert IsMin(m, pq);
      }
    }
  }

  /** How many entries of ns have no distance in d. */
  ghost function Missing(ns: seq<NodeId>, d: map<NodeId, int>): nat
  {
    if ns == [] then 0 else Missing(ns[..|ns| - 1], d) + (if ns[|ns| - 1] in d then 0 else 1)
  }

  /** Adding keys lowers the count of missing nodes, strictly when a listed node is added;
      an unchanged count means no listed node was added. */
  lemma {:induction false} MissingDrops(ns: seq<NodeId>, d: map<NodeId, int>, d2: map<NodeId, int>, v: NodeId)
    requires forall x :: x in d ==> x in d2
    ensures Missing(ns, d2) <= Missing(ns, d)
    ensures v in ns && v in d2 && v !in d ==> Missing(ns, d2) < Missing(ns, d)
    ensures Missing(ns, d2) == Missing(ns, d) ==> forall x :: x in ns && x in d2 ==> x in d
  {
    if ns != [] {
      var front := ns[..|ns| - 1];
      MissingDrops(front, d, d2, v);
      assert ns == front + [ns[|ns| - 1]];
    }
  }

  /** The sum of the distances of the nodes listed in ns. */
  ghost function Potential(dist: map<NodeId, int>, ns: seq<NodeId>): int
  {
    if ns == [] then 0
    else Potential(dist, ns[..|ns| - 1]) + (if ns[|ns| - 1] in dist then dist[ns[|ns| - 1]] else 0)
  }

  /** Lowering distances without adding nodes lowers the potential, strictly when a listed
      node got lower; with no negative distance the potential is never negative. */
  lemma {:induction false} PotentialDrops(d: map<NodeId, int>, d2: map<NodeId, int>, ns: seq<NodeId>, v: NodeId)
    requires forall x :: x in d2 <==> x in d
    requires forall x :: x in d ==> 0 <= d2[x] <= d[x]
    ensures 0 <= Potential(d2, ns) <= Potential(d, ns)
    ensures v in ns && v in d && d2[v] < d[v] ==> Potential(d2, ns) < Potential(d, ns)
  {
    if ns != [] {
      var front := ns[..|ns| - 1];
      PotentialDrops(d, d2, front, v);
      assert ns == front + [ns[|ns| - 1]];
    }
  }

  /** The search's termination measure drops with every expansion: either a listed node got
      its first distance, or no node did and the potential or else the heap shrank. */
  lemma StepMeasure(f: Frontier, cur: Item, es: seq<Edge>, cost: (int, int) -> int, src: NodeId,
                    ns: seq<NodeId>)
    requires DistOk(f, src, ns) && cur in f.pq && EdgesWithin(es, ns, cost)
    ensures Progress(f, Step(f, cur, es, cost), ns)
  {
    var u, fm := cur.node, f.(pq := f.pq - multiset{cur});
    var du := fm.dist[u];
    var g, pushed := Step(f, cur, es, cost), Pushed(u, du, es, cost, fm);
    StepDistOk(f, cur, es, cost, src, ns);
    RelaxKeys(u, du, es, cost, fm);
    RelaxPushes(u, du, es, cost, fm);
    MissingDrops(ns, f.dist, g.dist, u);
    if Missing(ns, g.dist) == Missing(ns, f.dist) {
      assert forall x :: x in g.dist <==> x in f.dist;
      if pushed == multiset{} {
        PotentialDrops(f.dist, g.dist, ns, u);
      } else {
        var it :| it in pushed;
        PotentialDrops(f.dist, g.dist, ns, it.node);
      }
    }
  }

  /** Every edge of the graph has a non-negative weight. */
  ghost predicate NonNegative(succ: NodeId -> seq<Edge>, cost: (int, int) -> int)
  {
    forall u, e :: e in succ(u) ==> Weight(cost, e) >= 0
  }

  /** The invariant's lower bound on walks: when every heap item is at least lo, a walk
      from src to b either costs at least lo or ends in a settled node whose distance is no
      more than the walk's cost. */
  lemma {:induction false} WalkBound(f: Frontier, settled: set<NodeId>, succ: NodeId -> seq<Edge>,
                                     cost: (int, int) -> int, src: NodeId, lo: int, w: seq<Edge>, b: NodeId)
    requires src in f.dist && f.dist[src] == 0 && settled <= f.dist.Keys
    requires Closed(f, settled, succ, cost) && Queued(f, settled) && NonNegative(succ, cost)
    requires forall it :: it in f.pq ==> it.d >= lo
    requires IsWalk(succ, w, src, b)
    ensures WalkCost(w, cost) >= lo || (b in settled && f.dist[b] <= WalkCost(w, cost))
  {
    if w == [] {
      if src !in settled {
        assert Item(src, f.dist[src]) in f.pq;
      }
    } else {
      var front, e := w[..|w| - 1], w[|w| - 1];
      WalkBound(f, settled, succ, cost, src, lo, front, e.src);
      assert e in succ(e.src) && e.dst == b && Weight(cost, e) >= 0;
      if WalkCost(front, cost) < lo && b !in settled {
        assert Item(b, f.dist[b]) in f.pq;
      }
    }
  }

  /** The search loop's invariant over the frontier: the unconditional parts, and the sound
      parts when the neighbour lists agree with the graph succ. */
  ghost predicate Searching(f: Frontier, settled: set<NodeId>, last: int, succ: NodeId -> seq<Edge>,
                            cost: (int, int) -> int, src: NodeId, dst: NodeId, ns: seq<NodeId>, coh: bool)
  {
    DistOk(f, src, ns) && LinksOk(f, src) && RanksOk(f) && (coh ==> Sound(f, settled, last, succ, cost, dst))
  }

  /** The search starts with src at distance 0, alone in the heap, and nothing settled. */
  function Start(src: NodeId): (f: Frontier)
    ensures f.dist == map[src := 0] && f.prev == map[] && f.pq == multiset{Item(src, 0)}
  {
    Frontier(map[src := 0], map[], map[], map[src := 0], 1, multiset{Item(src, 0)})
  }

  /** The starting frontier meets the loop invariant. */
  lemma StartSearching(succ: NodeId -> seq<Edge>, cost: (int, int) -> int, src: NodeId, dst: NodeId,
                       ns: seq<NodeId>, coh: bool)
    requires src in ns
    ensures Searching(Start(src), {}, 0, succ, cost, src, dst, ns, coh)
  {
  }

  /** The termination measure dropped from f to g: fewer listed nodes without a distance,
      or as many and a smaller potential, or the same potential and a smaller heap. */
  ghost predicate Progress(f: Frontier, g: Frontier, ns: seq<NodeId>)
  {
    || Missing(ns, g.dist) < Missing(ns, f.dist)
    || (&& Missing(ns, g.dist) == Missing(ns, f.dist)
        && 0 <= Potential(g.dist, ns)
        && (|| Potential(g.dist, ns) < Potential(f.dist, ns)
            || (Potential(g.dist, ns) == Potential(f.dist, ns) && |g.pq| < |f.pq|)))
  }

  /** One expansion keeps the loop invariant and makes progress. */
  lemma StepKeeps(f: Frontier, settled: set<NodeId>, last: int, cur: Item, es: seq<Edge>,
                  succ: NodeId -> seq<Edge>, cost: (int, int) -> int, src: NodeId, dst: NodeId,
                  ns: seq<NodeId>, coh: bool)
    requires Searching(f, settled, last, succ, cost, src, dst, ns, coh)
    requires IsMin(cur, f.pq) && cur.node != dst && EdgesWithin(es, ns, cost)
    requires coh ==> es == succ(cur.node)
    ensures var g := Step(f, cur, es, cost);
            Searching(g, settled + {cur.node}, cur.d, succ, cost, src, dst, ns, coh) && Progress(f, g, ns)
  {
    StepDistOk(f, cur, es, cost, src, ns);
    StepLinksOk(f, cur, es, cost, src, ns);
    StepRanksOk(f, cur, es, cost, src, ns);
    StepMeasure(f, cur, es, cost, src, ns);
    if coh {
      StepOrdered(f, settled, last, cur, succ, cost, src, dst, ns);
      StepClosed(f, settled, last, cur, succ, cost, src, dst, ns);
      StepQueued(f, settled, last, cur, succ, cost, src, dst, ns);
      StepTree(f, settled, last, cur, succ, cost, src, dst, ns);
    }
  }

  /** What the search concludes about dst: if it has a distance, no walk from src to dst
      is cheaper; if not, there is no walk from src to dst. */
  ghost predicate Settles(dist: map<NodeId, int>, succ: NodeId -> seq<Edge>, cost: (int, int) -> int,
                          src: NodeId, dst: NodeId)
  {
    && (dst in dist ==> forall w :: IsWalk(succ, w, src, dst) ==> dist[dst] <= WalkCost(w, cost))
    && (dst !in dist ==> forall w :: !IsWalk(succ, w, src, dst))
  }

  /** Popping dst ends the search with dst's distance at the popped value, and no walk from
      src to dst is cheaper. */
  lemma ReachedOptimal(f: Frontier, settled: set<NodeId>, last: int, cur: Item, succ: NodeId -> seq<Edge>,
                       cost: (int, int) -> int, src: NodeId, dst: NodeId, ns: seq<NodeId>)
    requires Searching(f, settled, last, succ, cost, src, dst, ns, true) && NonNegative(succ, cost)
    requires IsMin(cur, f.pq) && cur.node == dst
    ensures dst in f.dist && f.dist[dst] == cur.d
    ensures Settles(f.dist, succ, cost, src, dst)
  {
    PopFacts(f, settled, last, cur, dst);
    forall w | IsWalk(succ, w, src, dst)
      ensures f.dist[dst] <= WalkCost(w, cost)
    {
      WalkBound(f, settled, succ, cost, src, cur.d, w, dst);
    }
  }

  /** An exhausted heap means dst was never reached, and there is no walk to it. */
  lemma ExhaustedUnreachable(f: Frontier, settled: set<NodeId>, last: int, succ: NodeId -> seq<Edge>,
                             cost: (int, int) -> int, src: NodeId, dst: NodeId, ns: seq<NodeId>)
    requires Searching(f, settled, last, succ, cost, src, dst, ns, true) && NonNegative(succ, cost)
    requires f.pq == multiset{}
    ensures dst !in f.dist
    ensures Settles(f.dist, succ, cost, src, dst)
  {
    forall w | IsWalk(succ, w, src, dst)
      ensures false
    {
      WalkBound(f, settled, succ, cost, src, WalkCost(w, cost) + 1, w, dst);
    }
  }

  /** One step of the path reconstruction: following node's predecessor link extends the
      walk to dst by the via edge, in front. */
  lemma TraceStep(f: Frontier, settled: set<NodeId>, succ: NodeId -> seq<Edge>, cost: (int, int) -> int,
                  src: NodeId, dst: NodeId, node: NodeId, back: seq<NodeId>, tail: seq<Edge>)
    requires LinksOk(f, src) && Tree(f, settled, succ, cost) && Outward(succ)
    requires node in f.dist && node != src && dst in f.dist
    requires IsWalk(succ, tail, node, dst) && Nodes(node, tail) == [node] + Reverse(back)
    requires WalkCost(tail, cost) == f.dist[dst] - f.dist[node]
    ensures node in f.prev && node in f.via && f.prev[node] in f.dist
    ensures var p, e := f.prev[node], f.via[node];
            && IsWalk(succ, [e] + tail, p, dst)
            && Nodes(p, [e] + tail) == [p] + Reverse(back + [node])
            && WalkCost([e] + tail, cost) == f.dist[dst] - f.dist[p]
  {
    var p, e := f.prev[node], f.via[node];
    assert e in succ(p) && e.dst == node;
    WalkPrepend(succ, e, tail, dst, cost);
    NodesPrepend(e, tail);
    assert (back + [node])[..|back|] == back;
  }
}
