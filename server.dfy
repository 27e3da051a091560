// The request handlers as state transitions of the server: the route lookup
// (route cache, then search, then fill), the edge update (store writes, adjacency
// invalidation, epoch bump), the cache reset and the adjacency statistics. HTTP,
// JSON and query-string parsing are outside the model; the handlers take parsed
// arguments and return what the response carries.
module Server {
  import opened Model
  import opened Adj
  import opened Store
  import opened Route
  import opened Graph
  import opened Algo

  /** The capacity the server gives its adjacency cache. */
  const AdjCap: int := 128

  /** The algorithm tag of every route key. */
  const AlgoTag: string := "dijkstra"

  /** The route handler's cost: the edge's distance; the speed is ignored. */
  function DistanceCost(distM: int, speed: int): int
  {
    distM
  }

  /** A parsed update request; each optional field is None when the body leaves it out. */
  datatype UpdateRequest = UpdateRequest(edgeId: int, closed: Option<bool>, speed: Option<int>,
                                         src: Option<NodeId>)

  /** What a route request answers: a response body, or a server-side failure. */
  datatype RouteReply = Served(resp: RouteResponse) | Failed(error: StoreError)

  /** Whether each transaction of an update request reaches the database: the connection
      can fail between the closed transaction and the speed transaction. */
  datatype Links = Links(closedUp: bool, speedUp: bool)

  /** The store writes of an update request: the closed write, then the speed write, each
      its own transaction; the first failure ends the request, and a committed closed write
      stays. Yields the table afterwards and the error, if any. */
  function ApplyUpdate(rows: seq<Row>, links: Links, req: UpdateRequest): (seq<Row>, Option<StoreError>)
  {
    var e1 := if req.closed.Some? then UpdateError(rows, links.closedUp, req.edgeId, ClosedColumn) else None;
    if e1.Some? then (rows, e1)
    else
      var rows1 := if req.closed.Some? then SetClosed(rows, req.edgeId, req.closed.value) else rows;
      var e2 := if req.speed.Some? then UpdateError(rows1, links.speedUp, req.edgeId, SpeedColumn) else None;
      if e2.Some? then (rows1, e2)
      else (if req.speed.Some? then SetSpeed(rows1, req.edgeId, req.speed.value) else rows1, None)
  }

  /** The table with every write the request names applied, closed first. */
  function AllWrites(rows: seq<Row>, req: UpdateRequest): seq<Row>
  {
    var rows1 := if req.closed.Some? then SetClosed(rows, req.edgeId, req.closed.value) else rows;
    if req.speed.Some? then SetSpeed(rows1, req.edgeId, req.speed.value) else rows1
  }

  /** The closed write of the request is attempted and commits. */
  predicate ClosedCommits(rows: seq<Row>, links: Links, req: UpdateRequest)
  {
    req.closed.Some? && UpdateError(rows, links.closedUp, req.edgeId, ClosedColumn).None?
  }

  /** The outcome of an update request, judged on the table it starts from: the error is
      the closed write's if that fails, and otherwise the speed write's; on success every
      write is applied; when the closed write fails nothing is; when only the speed write
      fails, the committed closed write stays in the table. */
  lemma UpdateOutcome(rows: seq<Row>, links: Links, req: UpdateRequest)
    ensures var (t, err) := ApplyUpdate(rows, links, req);
            var ec := if req.closed.Some? then UpdateError(rows, links.closedUp, req.edgeId, ClosedColumn) else None;
            var es := if req.speed.Some? then UpdateError(rows, links.speedUp, req.edgeId, SpeedColumn) else None;
            && err == (if ec.Some? then ec else es)
            && (err.None? ==> t == AllWrites(rows, req))
            && (ec.Some? ==> t == rows)
            && (ec.None? && es.Some? ==> t == if req.closed.Some? then SetClosed(rows, req.edgeId, req.closed.value) else rows)
  {
    if req.closed.Some? {
      UpdateErrorKept(rows, SetClosed(rows, req.edgeId, req.closed.value), links.speedUp, req.edgeId, SpeedColumn);
    }
  }

  /** The run that shows the partial update: the closed transaction commits, the speed
      transaction cannot reach the database, and the request fails. The table has changed
      for node 1, and a cached list for node 1 that agreed with the table before no longer
      does. */
  lemma PartialUpdateLeavesStaleEntry()
    ensures var rows := [Row(7, 1, 2, 100, 50, false, true, true, true)];
            var req := UpdateRequest(7, Some(true), Some(30), Some(1));
            var (t, err) := ApplyUpdate(rows, Links(true, false), req);
            && err == Some(ConnectionFailed) && SourceNamed(rows, req)
            && OutgoingSpec(rows, true, 1) == Ok([Edge(1, 2, 100, 50)])
            && OutgoingSpec(t, true, 1) == Ok([])
  {
    var r := Row(7, 1, 2, 100, 50, false, true, true, true);
    ClosedCommitsSpeedFails(r);
    SingleRowAnswer(r);
    SingleRowAnswer(r.(closed := true));
  }

  /** On a one-row table holding edge 7, closing it commits and a speed write that cannot
      reach the database then fails, leaving the closed write in place. */
  lemma ClosedCommitsSpeedFails(r: Row)
    requires r.edgeId == 7 && r.closedOk
    ensures ApplyUpdate([r], Links(true, false), UpdateRequest(7, Some(true), Some(30), Some(r.src)))
            == ([r.(closed := true)], Some(ConnectionFailed))
  {
    assert FirstWithId([r], 7) == Some(0);
    var t := SetClosed([r], 7, true);
    assert t == [r.(closed := true)];
  }

  /** Outgoing of a one-row table answers that row's edge when it is open and scannable,
      and nothing when it is closed. */
  lemma SingleRowAnswer(r: Row)
    requires Scannable(r)
    ensures OutgoingSpec([r], true, r.src) == Ok(if r.closed then [] else [EdgeOf(r, r.src)])
  {
    assert [r][..0] == [];
    assert OpenRows([r], r.src) == if r.closed then [] else [r];
    assert !HasUnreadable([r], r.src);
    var o := OutgoingSpec([r], true, r.src);
    if !r.closed {
      assert |o.value| == 1 && o.value[0] == EdgeOf(r, r.src);
      assert o.value == [EdgeOf(r, r.src)];
    } else {
      assert |o.value| == 0;
    }
  }

  /** Every row that a write of the request can touch leaves the named source node. */
  ghost predicate SourceNamed(rows: seq<Row>, req: UpdateRequest)
  {
    (req.closed.Some? || req.speed.Some?) ==>
      req.src.Some? && forall r :: r in rows && r.edgeId == req.edgeId ==> r.src == req.src.value
  }

  /** The writes of a request, whether they all commit or not, leave every node other than
      the named source with the same Outgoing answer. */
  lemma UpdateKeepsOthers(rows: seq<Row>, links: Links, req: UpdateRequest, k: NodeId)
    requires SourceNamed(rows, req) && (req.src.Some? ==> k != req.src.value)
    ensures OutgoingSpec(ApplyUpdate(rows, links, req).0, true, k) == OutgoingSpec(rows, true, k)
  {
    var t := ApplyUpdate(rows, links, req).0;
    UpdateOutcome(rows, links, req);
    if req.closed.Some? || req.speed.Some? {
      var id := req.edgeId;
      var rows1 := if req.closed.Some? then SetClosed(rows, id, req.closed.value) else rows;
      WritesKeepOthers(rows, id, 0, if req.closed.Some? then req.closed.value else false, k);
      assert SameRowsOf(rows, rows1, k);
      forall r | r in rows1 && r.edgeId == id
        ensures r.src != k
      {
        var i :| 0 <= i < |rows1| && rows1[i] == r;
        assert rows[i] in rows;
      }
      WritesKeepOthers(rows1, id, if req.speed.Some? then req.speed.value else 0, false, k);
      var w := AllWrites(rows, req);
      assert SameRowsOf(rows1, w, k);
      assert SameRowsOf(rows, w, k);
      assert t == rows || t == rows1 || t == w;
      assert SameRowsOf(rows, t, k);
      OutgoingOwnRows(rows, t, true, k);
    }
  }

  /** Every edge the store hands out has a distance of some row, so non-negative distances
      in the table mean non-negative distances in every answer. */
  lemma AnswersNonNegative(rows: seq<Row>, online: bool, k: NodeId)
    requires forall r :: r in rows ==> r.distM >= 0
    requires OutgoingSpec(rows, online, k).Ok?
    ensures forall e :: e in OutgoingSpec(rows, online, k).value ==> e.distM >= 0
  {
    OutgoingFromRows(rows, online, k);
  }

  /** Cached lists that the store still gives for their keys stay so after a request whose
      writes touch only the named source, once that source's entry is gone, whether or not
      all of its writes commit. */
  lemma UpdateKeepsAgreement(rows: seq<Row>, links: Links, req: UpdateRequest,
                             m0: map<NodeId, seq<Edge>>, m1: map<NodeId, seq<Edge>>)
    requires forall k :: k in m0 ==> OutgoingSpec(rows, true, k) == Ok(m0[k])
    requires SourceNamed(rows, req)
    requires forall k :: k in m1 ==> k in m0 && m1[k] == m0[k] && (req.src.Some? ==> k != req.src.value)
    ensures forall k :: k in m1 ==> OutgoingSpec(ApplyUpdate(rows, links, req).0, true, k) == Ok(m1[k])
  {
    forall k | k in m1
      ensures OutgoingSpec(ApplyUpdate(rows, links, req).0, true, k) == Ok(m1[k])
    {
      UpdateKeepsOthers(rows, links, req, k);
    }
  }

  /** Writes change speeds and closed flags only, so distances stay non-negative. */
  lemma UpdateKeepsDistances(rows: seq<Row>, links: Links, req: UpdateRequest)
    requires forall r :: r in rows ==> r.distM >= 0
    ensures forall r :: r in ApplyUpdate(rows, links, req).0 ==> r.distM >= 0
  {
    var id := req.edgeId;
    var rows1 := if req.closed.Some? then SetClosed(rows, id, req.closed.value) else rows;
    assert forall i :: 0 <= i < |rows1| ==> rows1[i].distM == rows[i].distM;
    var w := if req.speed.Some? then SetSpeed(rows1, id, req.speed.value) else rows1;
    assert forall i :: 0 <= i < |w| ==> w[i].distM == rows1[i].distM;
    UpdateOutcome(rows, links, req);
    var t := ApplyUpdate(rows, links, req).0;
    assert t == rows || t == rows1 || t == w;
  }

  class Server {
    const store: EdgeStore
    var gctx: GraphCtx
    var rc: RouteCache

    /** The search context shares the server's store; the adjacency cache keeps its
        invariant; every distance in the table and the cache is non-negative (the importer
        writes rounded great-circle distances); and no route is stored under an epoch that
        has not started yet. */
    ghost predicate Valid()
      reads this, store, gctx.adj, rc
    {
      && gctx.store == store
      && gctx.adj.Valid()
      && (forall r :: r in store.rows ==> r.distM >= 0)
      && (forall k, e :: k in gctx.adj.m && e in gctx.adj.m[k] ==> e.distM >= 0)
      && EpochsAtMost(rc.m, rc.epoch)
    }

    /** New: a route cache at epoch 0 and an empty adjacency cache of capacity AdjCap over
        the given store. */
    constructor (s: EdgeStore)
      requires forall r :: r in s.rows ==> r.distM >= 0
      ensures Valid() && store == s && fresh(gctx.adj) && fresh(rc)
      ensures gctx.adj.State() == Empty(AdjCap) && rc.epoch == 0 && rc.m == map[]
    {
      store := s;
      rc := new RouteCache();
      var adj := new AdjCache(AdjCap);
      gctx := GraphCtx(s, adj);
    }

    /** handleRoute: look up (src, dst, "dijkstra", epoch) with the epoch read once; on a
        hit answer the stored path; on a miss search by distance, store a non-empty path
        under the key of the lookup, and answer the search's result. */
    method HandleRoute(src: NodeId, dst: NodeId) returns (reply: RouteReply, ghost walk: seq<Edge>)
      requires Valid()
      modifies gctx.adj, rc
      ensures Valid() && rc.epoch == old(rc.epoch)
      ensures var key := RouteKey(src, dst, AlgoTag, old(rc.epoch));
              key in old(rc.m) ==>
                && reply == Served(RouteResponse(old(rc.m)[key], 0, 0, true))
                && rc.m == old(rc.m) && gctx.adj.State() == old(gctx.adj.State())
      ensures var key := RouteKey(src, dst, AlgoTag, old(rc.epoch));
              key !in old(rc.m) ==>
                && (reply.Failed? ==> rc.m == old(rc.m))
                && (reply.Served? ==>
                      && !reply.resp.cacheHit
                      && rc.m == if reply.resp.path != [] then old(rc.m)[key := reply.resp.path] else old(rc.m))
                && (src == dst ==> reply == Served(RouteResponse([src], 0, 0, false)))
      ensures reply.Served? && !reply.resp.cacheHit && reply.resp.path != [] ==>
                reply.resp.path[0] == src && reply.resp.path[|reply.resp.path| - 1] == dst
      ensures old(CacheAgrees(gctx)) ==> CacheAgrees(gctx)
      ensures old(CacheAgrees(gctx)) && reply.Served? && !reply.resp.cacheHit ==>
                var resp := reply.resp;
                && (resp.path != [] ==>
                      && IsWalk(Road(store.rows), walk, src, dst) && Nodes(src, walk) == resp.path
                      && WalkCost(walk, DistanceCost) == resp.total
                      && forall w :: IsWalk(Road(store.rows), w, src, dst) ==> resp.total <= WalkCost(w, DistanceCost))
                && (resp.path == [] ==> forall w :: !IsWalk(Road(store.rows), w, src, dst))
      ensures reply.Served? && reply.resp.path == [] ==> reply.resp.total == 0
    {
      var epoch := rc.Epoch();
      var key := RouteKey(src, dst, AlgoTag, epoch);
      var cached, hit := rc.Get(key);
      if hit {
        return Served(RouteResponse(cached, 0, 0, true)), [];
      }
      var path, total, explored, err;
      path, total, explored, err, walk := Dijkstra(gctx, src, dst, DistanceCost);
      if err.Some? {
        return Failed(err.value), walk;
      }
      forall k, e | k in gctx.adj.m && e in gctx.adj.m[k]
        ensures e.distM >= 0
      {
        if !(k in old(gctx.adj.m) && gctx.adj.m[k] == old(gctx.adj.m)[k]) {
          AnswersNonNegative(store.rows, store.online, k);
        }
      }
      if |path| > 0 {
        rc.Put(key, path);
        PutKeepsEpochs(old(rc.m), epoch, key, path);
      }
      reply := Served(RouteResponse(path, total, explored, false));
    }

    /** handleUpdate: the closed write, then the speed write, stopping at the first store
        error (a committed closed write stays); then, when the request names a source node,
        drop its adjacency entry and read its edges from the store (the entry stays absent);
        then start a new epoch. */
    method HandleUpdate(req: UpdateRequest, links: Links) returns (err: Option<StoreError>)
      requires Valid()
      modifies store, gctx.adj, rc
      ensures Valid() && rc.m == old(rc.m) && store.online == old(store.online)
      ensures (store.rows, err) == ApplyUpdate(old(store.rows), links, req)
      ensures err.Some? ==> rc.epoch == old(rc.epoch) && gctx.adj.State() == old(gctx.adj.State())
      ensures err.None? ==>
                && rc.epoch == old(rc.epoch) + 1
                && gctx.adj.State() == if req.src.Some? then AfterInvalidate(old(gctx.adj.State()), req.src.value)
                                       else old(gctx.adj.State())
      ensures err.None? && req.src.Some? ==> req.src.value !in gctx.adj.m
      ensures err.None? ==> forall s, d :: RouteKey(s, d, AlgoTag, rc.epoch) !in rc.m
      ensures (old(CacheAgrees(gctx)) && SourceNamed(old(store.rows), req)
               && (err.None? || store.rows == old(store.rows))) ==> CacheAgrees(gctx)
    {
      ghost var rows0, m0 := store.rows, gctx.adj.m;
      UpdateOutcome(rows0, links, req);
      var closedDone;
      err, closedDone := WriteFields(req, links);
      if err.Some? {
        return;
      }
      Refresh(req, rows0, m0, links);
    }

    /** handleUpdate with the partial write handled: when the closed write has committed and
        the speed write then fails, the adjacency entry is still dropped and the epoch still
        bumped before the error is returned. */
    method HandleUpdateInvalidating(req: UpdateRequest, links: Links) returns (err: Option<StoreError>)
      requires Valid()
      modifies store, gctx.adj, rc
      ensures Valid() && rc.m == old(rc.m) && store.online == old(store.online)
      ensures (store.rows, err) == ApplyUpdate(old(store.rows), links, req)
      ensures err.Some? && !ClosedCommits(old(store.rows), links, req) ==>
                rc.epoch == old(rc.epoch) && gctx.adj.State() == old(gctx.adj.State())
      ensures err.None? || ClosedCommits(old(store.rows), links, req) ==>
                && rc.epoch == old(rc.epoch) + 1
                && gctx.adj.State() == if req.src.Some? then AfterInvalidate(old(gctx.adj.State()), req.src.value)
                                       else old(gctx.adj.State())
      ensures store.rows != old(store.rows) ==> forall s, d :: RouteKey(s, d, AlgoTag, rc.epoch) !in rc.m
      ensures old(CacheAgrees(gctx)) && SourceNamed(old(store.rows), req) ==> CacheAgrees(gctx)
    {
      ghost var rows0, m0 := store.rows, gctx.adj.m;
      UpdateOutcome(rows0, links, req);
      var closedDone;
      err, closedDone := WriteFields(req, links);
      if err.Some? && !closedDone {
        return;
      }
      Refresh(req, rows0, m0, links);
    }

    /** The tail of an update after its writes: drop the named source's adjacency entry,
        read its edges from the store, and start a new epoch. */
    method Refresh(req: UpdateRequest, ghost rows0: seq<Row>, ghost m0: map<NodeId, seq<Edge>>, ghost links: Links)
      requires gctx.store == store && gctx.adj.Valid() && EpochsAtMost(rc.m, rc.epoch)
      requires store.rows == ApplyUpdate(rows0, links, req).0 && m0 == gctx.adj.m
      requires (forall r :: r in rows0 ==> r.distM >= 0)
      requires forall k, e :: k in gctx.adj.m && e in gctx.adj.m[k] ==> e.distM >= 0
      modifies gctx.adj, rc
      ensures Valid() && rc.m == old(rc.m) && rc.epoch == old(rc.epoch) + 1
      ensures gctx.adj.State() == if req.src.Some? then AfterInvalidate(old(gctx.adj.State()), req.src.value)
                                  else old(gctx.adj.State())
      ensures req.src.Some? ==> req.src.value !in gctx.adj.m
      ensures forall s, d :: RouteKey(s, d, AlgoTag, rc.epoch) !in rc.m
      ensures (forall k :: k in m0 ==> OutgoingSpec(rows0, true, k) == Ok(m0[k])) && SourceNamed(rows0, req)
              ==> CacheAgrees(gctx)
    {
      if req.src.Some? {
        gctx.adj.Invalidate(req.src.value);
        var refill := gctx.store.Outgoing(req.src.value);
      }
      rc.BumpEpoch();
      forall s, d
        ensures RouteKey(s, d, AlgoTag, rc.epoch) !in rc.m
      {
        BumpOrphans(rc.m, rc.epoch - 1, s, d, AlgoTag);
      }
      UpdateKeepsDistances(rows0, links, req);
      if (forall k :: k in m0 ==> OutgoingSpec(rows0, true, k) == Ok(m0[k])) && SourceNamed(rows0, req) {
        UpdateKeepsAgreement(rows0, links, req, m0, gctx.adj.m);
        assert CacheAgrees(gctx);
      }
    }

    /** The store writes of handleUpdate: closed, then speed, returning the first error and
        whether the closed write committed. */
    method WriteFields(req: UpdateRequest, links: Links) returns (err: Option<StoreError>, closedDone: bool)
      modifies store
      ensures (store.rows, err) == ApplyUpdate(old(store.rows), links, req)
      ensures closedDone == ClosedCommits(old(store.rows), links, req)
      ensures store.online == old(store.online)
    {
      closedDone := false;
      if req.closed.Some? {
        err := store.UpdateEdgeClosed(req.edgeId, req.closed.value, links.closedUp);
        if err.Some? {
          return;
        }
        closedDone := true;
      }
      err := None;
      if req.speed.Some? {
        err := store.UpdateEdgeSpeed(req.edgeId, req.speed.value, links.speedUp);
      }
    }

    /** /debug/clear_cache: install a fresh adjacency cache of capacity AdjCap and a fresh
        route cache. */
    method ClearCache()
      requires Valid()
      modifies this
      ensures Valid() && fresh(gctx.adj) && fresh(rc) && gctx.store == old(gctx.store)
      ensures gctx.adj.State() == Empty(AdjCap) && rc.epoch == 0 && rc.m == map[]
    {
      var adj := new AdjCache(AdjCap);
      gctx := gctx.(adj := adj);
      rc := new RouteCache();
    }

    /** /debug/adjcache_stats: the adjacency cache's four counters; changes nothing. */
    method AdjStats() returns (gets: nat, hits: nat, puts: nat, evictions: nat)
      requires Valid()
      ensures gets == gctx.adj.gets && hits == gctx.adj.hits && puts == gctx.adj.puts
      ensures evictions == gctx.adj.evictions && hits <= gets
    {
      gets, hits, puts, evictions := gctx.adj.Stats();
    }
  }
}
