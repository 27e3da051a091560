// The epoch-keyed route cache: an unbounded map from (src, dst, algorithm, epoch)
// to a node path, and an epoch counter that only ever grows.
module Route {
  import opened Model

  /** A route cache key; two keys differing only in the epoch are different keys. */
  datatype RouteKey = RouteKey(src: NodeId, dst: NodeId, algo: string, epoch: nat)

  class RouteCache {
    var epoch: nat
    var m: map<RouteKey, seq<NodeId>>

    /** NewRouteCache: epoch 0, no entries. */
    constructor ()
      ensures epoch == 0 && m == map[]
    {
      epoch := 0;
      m := map[];
    }

    /** The stored path of k, if any; changes nothing. */
    method Get(k: RouteKey) returns (p: seq<NodeId>, found: bool)
      ensures found == (k in m)
      ensures p == if found then m[k] else []
    {
      if k in m {
        p, found := m[k], true;
      } else {
        p, found := [], false;
      }
    }

    /** Stores p under k, overwriting only k. */
    method Put(k: RouteKey, p: seq<NodeId>)
      modifies this
      ensures m == old(m)[k := p] && epoch == old(epoch)
    {
      m := m[k := p];
    }

    /** The current epoch; changes nothing. */
    method Epoch() returns (e: nat)
      ensures e == epoch
    {
      e := epoch;
    }

    /** Advances the epoch by one; entries stay where they are. */
    method BumpEpoch()
      modifies this
      ensures epoch == old(epoch) + 1 && m == old(m)
    {
      epoch := epoch + 1;
    }
  }

  /** The map after storing p under k. */
  function Stored(m: map<RouteKey, seq<NodeId>>, k: RouteKey, p: seq<NodeId>): map<RouteKey, seq<NodeId>>
  {
    m[k := p]
  }

  /** Reading a key right after storing under it gives back what was stored; every other
      key keeps its entry, or its absence. */
  lemma GetAfterPut(m: map<RouteKey, seq<NodeId>>, k: RouteKey, p: seq<NodeId>, k2: RouteKey)
    ensures var m' := Stored(m, k, p);
            && k in m' && m'[k] == p
            && (k2 != k ==> (k2 in m' <==> k2 in m) && (k2 in m ==> m'[k2] == m[k2]))
            && m.Keys <= m'.Keys
  {
  }

  /** Keys whose epoch is at most e: all that a cache which has seen epochs up to e holds. */
  ghost predicate EpochsAtMost(m: map<RouteKey, seq<NodeId>>, e: nat)
  {
    forall k :: k in m ==> k.epoch <= e
  }

  /** After a bump, nothing stored before it is visible under the new epoch: a lookup with
      the new epoch misses until something is stored under it. */
  lemma BumpOrphans(m: map<RouteKey, seq<NodeId>>, e: nat, src: NodeId, dst: NodeId, algo: string)
    requires EpochsAtMost(m, e)
    ensures RouteKey(src, dst, algo, e + 1) !in m
  {
  }

  /** Storing under the current epoch keeps every key's epoch at most the current one. */
  lemma PutKeepsEpochs(m: map<RouteKey, seq<NodeId>>, e: nat, k: RouteKey, p: seq<NodeId>)
    requires EpochsAtMost(m, e) && k.epoch <= e
    ensures EpochsAtMost(Stored(m, k, p), e) && EpochsAtMost(m, e + 1)
  {
  }
}
