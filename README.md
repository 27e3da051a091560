# graphion query core, modelled in Dafny

graphion answers shortest-path queries over a road network kept in a relational `edges`
table, and accepts point updates to single edges. This project models the query-serving
core and proves properties of the model:

- the bounded LRU adjacency cache (node id to outgoing edges, with get/hit/put/eviction
  counters);
- the epoch-keyed route cache;
- the edge store's `Outgoing` row loop and its speed and closed updates, each a
  transaction of its own, over an abstract table of rows;
- the read-through neighbour lookup `GraphCtx.Neighbors`;
- the lazy-deletion Dijkstra search;
- the `/route`, `/road/update`, `/debug/clear_cache` and `/debug/adjcache_stats`
  handlers, as methods on a `Server` object;
- the shaping logic of the OpenStreetMap importer: `speed_from_tags`, and the node and
  way callbacks that collect node locations and expand ways into edges.

Files and modules:

| file | module | models |
|---|---|---|
| `model.dfy` | `Model` | `Edge`, `RouteResponse`, store errors, `Option`/`Result` |
| `seqs.dfy` | `Seqs` | sequence reversal, and the in-place swap loop that reverses the path |
| `adj.dfy` | `Adj` | `AdjCache`: an abstract state, its transition functions, the class and the LRU lemmas |
| `route.dfy` | `Route` | `RouteKey`, `RouteCache` and the epoch lemmas |
| `store.dfy` | `Store` | the table rows, `Outgoing`, `UpdateEdgeSpeed`, `UpdateEdgeClosed` |
| `graph.dfy` | `Graph` | `GraphCtx.Neighbors`; the road graph a coherent cache presents; walks and their costs |
| `dijkstra.dfy` | `Search` | relaxation, the frontier invariants, termination and optimality lemmas |
| `algo.dfy` | `Algo` | `Dijkstra` as a method: the search loop, one expansion, path reconstruction |
| `server.dfy` | `Server` | the handlers |
| `import_osm.dfy` | `OsmImport` | `speed_from_tags`, `OSMHandler.node`, `OSMHandler.way` |

How the model is shaped:

- **Imperative code becomes classes.** The caches, the store, the server and the
  importer's handler are classes whose methods update fields. Each method's `ensures`
  ties the new state to a transition function of the old state, such as
  `State() == AfterPut(old(State()), key, v)`. The lemmas then prove what those
  functions promise.
- **The search is a set of methods with loops.**
  - `Algo.Explore` is the heap loop.
  - `Algo.Expand` is one pass of that loop.
  - `Search.Relax` and `Search.RelaxOne` are the edge loop.
  - `Algo.Reconstruct` walks the predecessor chain.
  - `Seqs.ReverseInPlace` reverses the path on an array.
- **The proofs run over the `Search.Frontier` value,** which holds the search's maps and
  heap. The heap is a multiset of (node, distance) items, and a pop takes any least item.
  Ghost bookkeeping adds, for every node, the edge that last improved it and a time stamp.
  This makes predecessor chains provably finite.
- **Optimality is proved against the road graph that the table describes,**
  `Graph.Road(rows)`. Every path the search returns is the node sequence of a walk in
  that graph, and the walk's cost equals the returned total. No walk from src to dst is
  cheaper. When the search ends with neither a path nor a store error, no walk exists,
  and the total is 0. All of this holds whenever the
  adjacency cache agrees with the store at the start of the search, and edge costs are
  non-negative.

Where the code and its comments differ, the model follows the code:

- After an update that names `src_node`, the handler says it refills the cache. In fact
  it reads the store directly (`internal/api/server.go:181`), so the adjacency entry
  stays absent. `Server.Server.HandleUpdate` ensures exactly that.
- A store error during an update returns before the invalidation and before the epoch
  bump (`internal/api/server.go:162-174`), even when the closed write has already
  committed. The two writes are separate transactions, so an update can apply only
  its closed write. "## Findings" records this.

## Model

| member | source | states |
|---|---|---|
| Seqs.Reverse | internal/algo/dijkstra.go:78-80 | the reversal of a sequence has its length, with element i taken from position len-1-i |
| Seqs.ReverseInPlace | internal/algo/dijkstra.go:78-80 | the two-index swap loop leaves the array holding the reversal of its old contents |
| Adj.Remove | internal/cache/adj.go:102-104 | removing a key from the recency list keeps every other key, keeps the list duplicate-free, and shortens it by one exactly when the key was there |
| Adj.AdjCache.constructor | internal/cache/adj.go:40-48 | a new cache is empty with all four counters at 0; a capacity of 0 or less becomes 2048 |
| Adj.AdjCache.Get | internal/cache/adj.go:53-64 | gets grows by 1; on a hit, hits grows by 1, the stored list is returned and the key moves to most recent; on a miss, nothing is found and entries and order stay unchanged |
| Adj.AdjCache.Put | internal/cache/adj.go:68-96 | an existing key gets the new list and moves to most recent; a new key is inserted at most recent; puts grows by 1; when the size exceeds capacity exactly the least recently used key is evicted and evictions grows by 1; the invariant is kept |
| Adj.AdjCache.Invalidate | internal/cache/adj.go:99-107 | the key's entry and recency position are dropped if present, otherwise nothing changes; no counter changes |
| Adj.AdjCache.Clear | internal/cache/adj.go:110-119 | entries, recency list and all four counters are reset; the capacity stays |
| Adj.AdjCache.Stats | internal/cache/adj.go:122-126 | returns (gets, hits, puts, evictions) without changing anything, and hits <= gets |
| Adj.GetKeepsInv | internal/cache/adj.go:57-63 | Get keeps the invariant: map and recency list hold the same keys, without duplicates, within capacity, with hits <= gets |
| Adj.PutKeepsInv | internal/cache/adj.go:73-95 | Put keeps the same invariant, including size <= capacity after the eviction |
| Adj.InvalidateKeepsInv | internal/cache/adj.go:102-106 | Invalidate keeps the invariant |
| Adj.EntryCount | internal/cache/adj.go:21-31 | in any valid cache the number of entries equals the length of the recency list and is at most the capacity |
| Adj.FreshPuts | internal/cache/adj.go:82-95 | putting distinct new keys leaves the recency list equal to the newest keys first, cut at capacity; puts grows by the number of keys, and evictions by the number of keys pushed out |
| Adj.FillFromEmpty | internal/cache/adj.go:40-95 | filling a new cache with n distinct keys keeps exactly the last min(n, capacity) of them, with their lists, and counts max(0, n - capacity) evictions |
| Adj.TouchedOutlivesOthers | internal/cache/adj.go:58-95 | after a hit on a key and then a run of fresh puts, if that key was evicted then so was every key that was cached before |
| Route.RouteCache.constructor | internal/cache/route.go:13-15 | a new route cache has epoch 0 and no entries |
| Route.RouteCache.Get | internal/cache/route.go:17-22 | found iff the key is stored, and then the stored path is returned; nothing changes |
| Route.RouteCache.Put | internal/cache/route.go:24-28 | the map gets p under k, with no other change, and the epoch stays |
| Route.RouteCache.Epoch | internal/cache/route.go:30-35 | returns the epoch and changes nothing |
| Route.RouteCache.BumpEpoch | internal/cache/route.go:37-41 | the epoch grows by exactly 1 and the map is unchanged |
| Route.GetAfterPut | internal/cache/route.go:17-28 | reading k right after storing p under k gives p; every other key keeps its entry or its absence; no key is removed |
| Route.BumpOrphans | internal/cache/route.go:37-41 | if every stored key has an epoch at most e, a key under epoch e + 1 is absent, whatever its src, dst and algorithm |
| Route.PutKeepsEpochs | internal/cache/route.go:24-41 | storing under the current epoch, and bumping, keep every stored key's epoch at most the current one |
| Store.OpenRows | internal/db/store.go:25-43 | the kept rows are exactly the selected rows that are not closed |
| Store.OutgoingSpec | internal/db/store.go:12-46 | offline gives the connection error; an unscannable selected row gives the scan error; otherwise one edge per open row, in table order |
| Store.ScanPrefixMeetsSpec | internal/db/store.go:25-45 | the row loop, stopping at the first unscannable row and skipping closed rows, gives the same answer as that specification |
| Store.EdgeStore.Outgoing | internal/db/store.go:12-46 | the row loop over the table returns the specified answer |
| Store.FirstWithId | internal/db/store.go:67 | the row the locking SELECT finds: the first row with the edge id, or none when no row has it |
| Store.UpdateError | internal/db/store.go:60-70 | an update of a column fails iff its transaction does not reach the database, no row has the edge id, or that column of the first such row cannot be scanned |
| Store.EdgeStore.UpdateEdgeSpeed | internal/db/store.go:60-76 | the error is that of locking and scanning the speed column; on success every row of the edge id gets the speed, which then scans; on any error the table is unchanged |
| Store.EdgeStore.UpdateEdgeClosed | internal/db/store.go:79-94 | the same for the closed column and flag |
| Store.ScanFailedPersists | internal/db/store.go:30-32 | an unscannable selected row among the first n rows makes the scan of the whole table fail |
| Store.CloseAndReopen | internal/db/store.go:33-89 | after closing an edge id, no open row of any node has that id; after reopening, every row of the id is open again |
| Store.WritesNeverBreakScans | internal/db/store.go:71-89 | a speed or closed write never makes a node's Outgoing scan fail |
| Store.WriteRepairsColumn | internal/db/store.go:67-89 | once a speed (closed) write has been applied, a later speed (closed) update of that edge id that reaches the database succeeds |
| Store.MissingIdFails | internal/db/store.go:67-70 | updating an edge id that no row has fails with NoRows whenever the transaction reaches the database |
| Store.OutgoingFromRows | internal/db/store.go:37-42 | every edge Outgoing returns comes from an open table row leaving src |
| Store.OutgoingOwnRows | internal/db/store.go:13-17 | Outgoing(k) depends only on the rows of k |
| Store.UpdateErrorKept | internal/db/store.go:67 | a write that keeps edge ids and the scannability of a column leaves the outcome of every later update of that column unchanged |
| Store.WritesKeepOthers | internal/db/store.go:71-89 | writes to an edge id whose rows do not leave k leave k's rows unchanged |
| Graph.Neighbors | internal/algo/graphctx.go:14-26 | a hit returns the cached list and counts a get; a miss returns the store's answer and caches it only on success; no other cached list changes; a coherent cache stays coherent and yields the road graph's successors |
| Graph.MissFill | internal/algo/graphctx.go:19-24 | after a successful miss the node is cached with the store's list at most recent, with one get and one put counted |
| Graph.HitOrFailedMiss | internal/algo/graphctx.go:15-22 | a hit or a failed miss counts one get and no put and leaves the cached lists alone; only a hit counts a hit |
| Graph.RoadOutward | internal/db/store.go:37-42 | every successor edge of u in the road graph starts at u |
| Graph.WalkPrepend | internal/algo/dijkstra.go:72-76 | putting a graph edge in front of a walk gives a walk from the edge's start, dearer by that edge's cost |
| Search.RelaxOne | internal/algo/dijkstra.go:51-60 | relaxing one edge with the strict < test gives the specified frontier, and u's own distance is unchanged |
| Search.Relax | internal/algo/dijkstra.go:50-61 | the edge loop gives the relaxation of all edges in order, and afterwards every target's distance is at most dist[u] plus the edge's cost |
| Search.RelaxKeys | internal/algo/dijkstra.go:50-61 | relaxation adds exactly the edge targets as keys and never raises a distance |
| Search.RelaxBound | internal/algo/dijkstra.go:50-61 | after relaxation every target is at most du plus the edge's cost |
| Search.RelaxPushes | internal/algo/dijkstra.go:56-59 | the heap grows by exactly the pushed items, each at least du and each for a node whose distance improved |
| Search.ChangedStep | internal/algo/dijkstra.go:56-59 | one more relaxed edge keeps, for every improved node, its predecessor u, its via edge, its fresh stamp and its pushed item |
| Search.RelaxChanged | internal/algo/dijkstra.go:56-59 | every node that improved now has u as predecessor, an edge of u into it as via edge, du plus that edge's cost as distance, and a pushed heap item |
| Search.RelaxUnchanged | internal/algo/dijkstra.go:54-60 | a node that did not improve keeps its predecessor, via edge and stamp |
| Search.RelaxKeepsSource | internal/algo/dijkstra.go:50-61 | with non-negative costs, relaxing u's edges leaves u's own distance unchanged |
| Search.RelaxNoop | internal/algo/dijkstra.go:50-61 | when every target already meets the bound, relaxation changes nothing and pushes nothing; this covers a stale pop of an already expanded node |
| Search.MinExists | internal/algo/dijkstra.go:13-36 | a non-empty heap has an item no larger than any other, which is what heap.Pop returns |
| Search.PopFacts | internal/algo/dijkstra.go:36 | the popped item is no smaller than the previous pop, and for an unexpanded node it carries the node's current distance |
| Search.StepDistOk | internal/algo/dijkstra.go:43-61 | after an expansion src is still at 0, no distance is negative, and every heap item has a distance |
| Search.StepLinksOk | internal/algo/dijkstra.go:56-59 | after an expansion every node but src has a predecessor and a via edge into it |
| Search.StepRanksOk | internal/algo/dijkstra.go:56-59 | after an expansion every predecessor still ranks below its node |
| Search.StepSettled | internal/algo/dijkstra.go:50-61 | expanding an already expanded node again changes only the heap |
| Search.StepKeepsSettled | internal/algo/dijkstra.go:50-61 | an expansion at the least heap distance leaves every expanded node's distance alone |
| Search.StepOrderedFresh | internal/algo/dijkstra.go:36-61 | expanding a new node keeps every heap item at or above the popped distance and above its node's distance |
| Search.StepOrdered | internal/algo/dijkstra.go:36-61 | every expansion keeps the heap ordered with respect to the expanded nodes |
| Search.StepClosed | internal/algo/dijkstra.go:50-61 | every edge of every expanded node has been relaxed |
| Search.StepQueued | internal/algo/dijkstra.go:56-59 | every unexpanded node with a distance waits in the heap at that distance |
| Search.QueuedSurvives | internal/algo/dijkstra.go:36-59 | a queued item of an unchanged node survives the pop of another item |
| Search.StepTree | internal/algo/dijkstra.go:56-59 | every predecessor is expanded, and a node's distance is its predecessor's plus the cost of a graph edge between them |
| Search.MissingDrops | internal/algo/dijkstra.go:35-62 | adding keys never raises the count of nodes without a distance, and adding a listed node lowers it |
| Search.PotentialDrops | internal/algo/dijkstra.go:35-62 | lowering distances without adding nodes lowers the sum of distances, strictly when one drops |
| Search.StepMeasure | internal/algo/dijkstra.go:35-62 | every expansion lowers the loop's measure: fewer missing nodes, or a lower distance sum, or a smaller heap |
| Search.WalkBound | internal/algo/dijkstra.go:35-62 | under the invariant, every walk from src to b either costs at least the least heap item, or ends at an expanded b whose distance is at most its cost |
| Search.StartSearching | internal/algo/dijkstra.go:29-33 | the starting frontier meets the loop invariant |
| Search.StepKeeps | internal/algo/dijkstra.go:35-62 | one expansion keeps the loop invariant and lowers the measure |
| Search.ReachedOptimal | internal/algo/dijkstra.go:39-41 | popping dst ends the search with dst's distance equal to the popped value, and no walk to dst is cheaper |
| Search.ExhaustedUnreachable | internal/algo/dijkstra.go:64-66 | when the heap runs empty, dst has no distance and no walk from src reaches it |
| Search.TraceStep | internal/algo/dijkstra.go:72-75 | one step back along the predecessor map extends the walk by the via edge, and the walk's cost stays equal to the distance |
| Algo.Expand | internal/algo/dijkstra.go:43-61 | one pass of the loop keeps the adjacency cache valid, its costs non-negative and its agreement with the store; without a store error, the frontier after relaxing the node's neighbours keeps the loop invariant and lowers the measure |
| Algo.Reconstruct | internal/algo/dijkstra.go:68-80 | following predecessors back from dst and reversing gives a non-empty path from src to dst, just [src] when src = dst, which is the node sequence of a graph walk costing dist[dst] |
| Algo.Explore | internal/algo/dijkstra.go:29-62 | the heap loop ends; on a store error, explored is at least 1; with src = dst nothing is explored; with a coherent cache the final distances settle dst optimally, or show that dst is unreachable |
| Algo.Dijkstra | internal/algo/dijkstra.go:28-83 | on an error there is no path and total 0; no path without an error also has total 0; src = dst gives [src], total 0 and nothing explored; any path runs from src to dst; with a coherent cache the path is the node sequence of a cheapest walk whose cost is the total, and no path without an error means no walk exists |
| Server.UpdateOutcome | internal/api/server.go:161-174 | judged on the starting table, the request's error is the closed write's if that fails and otherwise the speed write's; on success every write applies; a failed closed write applies nothing; when only the speed write fails, the committed closed write stays |
| Server.PartialUpdateLeavesStaleEntry | internal/api/server.go:161-174 | a request closing edge 7 and setting its speed, whose speed transaction cannot reach the database, fails with the edge already closed, so node 1's list changes from one edge to none |
| Server.UpdateKeepsOthers | internal/api/server.go:161-182 | when every row of the edge id leaves the named source, the writes, whether all, some or none commit, leave every other node's Outgoing answer unchanged |
| Server.UpdateKeepsAgreement | internal/api/server.go:161-182 | cached lists other than the invalidated source still agree with the store after the writes, whether all, some or none of them commit |
| Server.Server.constructor | internal/api/server.go:24-39 | a new server has a route cache at epoch 0 with no entries, and an empty adjacency cache of capacity 128 over the store |
| Server.Server.HandleRoute | internal/api/server.go:76-112 | the key is read once under the current epoch; a hit answers the stored path with CacheHit, total 0 and explored 0, and changes nothing; a miss runs the distance-cost search; an error caches nothing; a non-empty path is stored under the lookup key; an empty served path has total 0; src = dst answers [src]; with a coherent cache the answer is a cheapest path, and no path without an error means dst is unreachable |
| Server.Server.HandleUpdate | internal/api/server.go:148-188 | the writes are those of the request; the first store error returns with the caches and epoch untouched, even after a committed closed write; on success a named source's adjacency entry is dropped and stays absent, and the epoch grows by exactly 1, so no route is found under the new epoch; when the request names the edge's source, a coherent cache stays coherent if the request succeeds or the table is unchanged |
| Server.Server.HandleUpdateInvalidating | internal/api/server.go:148-188 | the same writes; the named source's entry is dropped and the epoch bumped whenever a write committed, even if the speed write then fails; so whenever the table changed no earlier route is found, and when the request names the edge's source a coherent cache stays coherent on every outcome |
| Server.Server.Refresh | internal/api/server.go:176-185 | drops the named source's entry, reads it from the store without caching it, and starts a new epoch; cached lists of other nodes still agree with the written table |
| Server.Server.WriteFields | internal/api/server.go:161-174 | the closed write, then the speed write, stopping at the first error; reports whether the closed write committed |
| Server.Server.ClearCache | internal/api/server.go:49-55 | the server gets a fresh adjacency cache of capacity 128 and a fresh route cache at epoch 0 with no entries |
| Server.Server.AdjStats | internal/api/server.go:57-67 | returns the adjacency cache's four counters, with hits <= gets |
| OsmImport.Digits | tools/import_osm.py:20 | the collected characters are digits, no more than the input's, and all of them when every character is a digit; none when none is |
| OsmImport.DecimalRoundTrip | tools/import_osm.py:20 | reading back the decimal rendering of n gives n |
| OsmImport.DigitsAppend | tools/import_osm.py:20 | collecting the digits of a concatenation concatenates the collected digits |
| OsmImport.ClassSpeed | tools/import_osm.py:23-26 | 90 exactly for motorway and trunk, 60 exactly for primary, secondary and tertiary, 40 otherwise |
| OsmImport.MaxspeedRoundTrip | tools/import_osm.py:17-22 | a maxspeed of a number followed by digit-free text yields that number |
| OsmImport.DigitsRunTogether | tools/import_osm.py:18-20 | "50;30" yields 5030, and "30 mph" yields 30 even on a motorway |
| OsmImport.SpeedFromTags | tools/import_osm.py:17-26 | the speed is one of the class speeds 40, 60, 90 unless maxspeed holds digits, and is at least 40 when it does not |
| OsmImport.SpeedSources | tools/import_osm.py:17-26 | without digits in maxspeed the class rule applies; any speed other than 40, 60 or 90 came from maxspeed's digits |
| OsmImport.PairEdgesMembers | tools/import_osm.py:48-61 | an edge is produced iff it is one of the edges of some consecutive pair of refs; a pair with an unknown node gives none, and the loop goes on past it |
| OsmImport.PairEdgesCount | tools/import_osm.py:48-61 | a way of n refs yields at most n - 1 edges when one-way and at most 2(n - 1) when two-way, exactly that many when every ref is known |
| OsmImport.TwoWayPairs | tools/import_osm.py:56-61 | on a two-way road every forward edge is immediately followed by its backward edge |
| OsmImport.OneWayForward | tools/import_osm.py:56-61 | on a one-way road every edge runs from a ref to the next ref |
| OsmImport.WayEdgesShape | tools/import_osm.py:46-57 | every edge of a way carries the way's speed, joins two known nodes, and has the distance between their locations |
| OsmImport.OSMHandler.constructor | tools/import_osm.py:30-33 | no nodes, no edges |
| OsmImport.OSMHandler.Node | tools/import_osm.py:35-36 | the id maps to the location, overwriting an earlier one; the edges are unchanged |
| OsmImport.OSMHandler.Way | tools/import_osm.py:38-61 | appends exactly the way's edges after the existing ones, which are none without a highway tag or with fewer than two refs; nodes are unchanged |
| OsmImport.OSMHandler.AddPairs | tools/import_osm.py:48-61 | the pair loop appends, for each consecutive pair of known refs in order, the forward edge and, when oneway is absent or "no", the backward edge |

## Left out

- Concurrency: the cache mutexes, parallel requests, and the window between an update's invalidation and its epoch bump. Every operation is atomic and sequential.
- HTTP and JSON: mux registration, `/healthz`, status codes, encoding and decoding. `strconv.ParseInt` ignores errors, so a malformed src or dst becomes 0 in the source. The handlers here take already-parsed integers.
- Machine integers: Go `int` overflow in distance sums, and the `uint64` epoch wrap. The model uses unbounded integers.
- SQL: transactions, `FOR UPDATE` locks and the row order. The table is a sequence of rows, and a query returns rows in table order. Each row records whether its dst and distance columns, its speed column and its closed column scan.
- Store.Row: the closed column is one flag. `UpdateEdgeClosed` scans it into an int, and `Outgoing` into a bool, so a value that converts to one but not the other is not distinguished.
- Store.OutgoingSpec: `rows.Err()` is never checked after the row loop. An error in the middle of the iteration therefore ends the loop and returns the edges read so far with no error, and `Neighbors` caches that truncated list. The model's answer is always every open row or an error, so it does not capture this. The coherence clause of Graph.Neighbors assumes a complete answer.
- Store.EdgeStore.online: the read connection's state is fixed for the duration of a request. Whether each update transaction reaches the database is a separate input, one per transaction.
- Server.Server.HandleUpdate: a coherent cache is promised to stay coherent only when the request succeeds or leaves the table unchanged. After a committed closed write and a failed speed write, node src's cached list can be stale. "## Findings" records this, and Server.Server.HandleUpdateInvalidating keeps the cache coherent on every outcome.
- Store.EdgeStore.UpdateEdgeSpeed: the UPDATE statement and the commit never fail here. Only Begin, the locking SELECT and its scan can fail, and that is enough to cover the early-return paths. The same holds for Store.EdgeStore.UpdateEdgeClosed.
- Linked structures: the adjacency cache's map of list elements and the `container/list` recency list become a map of values and a sequence of keys. Returned slices are values, so aliasing between a cached slice and its caller is not modelled.
- Heap internals: `container/heap` is a multiset with extract-min. A pop may take any least item, so no lemma says which of several equal-cost paths wins.
- Algo.Dijkstra: optimality, and unreachability when no path is returned, are proved only when the adjacency cache agrees with the store on entry. A stale cache can make the search answer for a graph other than the table's. Server.Server.HandleRoute inherits the same condition.
- Algo.Dijkstra: the explored count is pinned down only to 0 when src = dst and to at least 1 after a store error. Algo.Explore states the same.
- Algo.Dijkstra requires non-negative edge costs: the optimality argument and the termination measure depend on them. With a negative cycle the Go loop need not end. Server.Server.Valid keeps every distance non-negative, as the importer writes rounded great-circle distances.
- OpenStreetMap input: osmium parsing, the `haversine` float trigonometry (here an arbitrary distance function), the MySQL batch inserts in `import_to_mysql`, and the command line.
- OsmImport.Digits: only ASCII digits count. Python's `isdigit` also accepts other Unicode digits, some of which `int` then rejects.
- Startup and configuration, and the load generators: these are outside the query core.

## Findings

| source | as written | input that shows it | evidently intended | confidence | as-written member | corrected member |
|---|---|---|---|---|---|---|
| internal/api/server.go:161-185 | the closed write and the speed write are separate transactions. When the closed write commits and the speed write fails, the handler returns the error before dropping the source's adjacency entry and before bumping the epoch | {edge_id 7, closed true, speed_kmph 30, src_node 1}, where edge 7 is the only row of node 1 and the speed transaction cannot reach the database (or its speed value is NULL) | once the table has changed, neither cache keeps serving the old edge: the entry is dropped and the epoch bumped whenever a write committed | medium; not executed | Server.PartialUpdateLeavesStaleEntry | Server.Server.HandleUpdateInvalidating |
