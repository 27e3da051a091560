// The bounded least-recently-used adjacency cache (node id -> outgoing edges).
// The Go cache keeps a map from key to list element and a doubly linked recency
// list; here the map holds the values directly and the recency list is a
// sequence of keys, most recently used first.
module Adj {
  import opened Model
  import opened Seqs

  /** Capacity used when the requested one is not positive. */
  const DefaultAdjCapacity: int := 2048

  /** Everything an adjacency cache holds: entries, recency order, capacity, counters. */
  datatype AdjState = AdjState(
    entries: map<NodeId, seq<Edge>>,
    order: seq<NodeId>,
    capacity: int,
    gets: nat,
    hits: nat,
    puts: nat,
    evictions: nat)

  predicate NoDups(s: seq<NodeId>)
  {
    forall i, j :: 0 <= i < j < |s| ==> s[i] != s[j]
  }

  /** The cache invariant: entries and recency list agree, no duplicates, within capacity. */
  ghost predicate Inv(s: AdjState)
  {
    && s.capacity > 0
    && NoDups(s.order)
    && (forall k :: k in s.entries <==> k in s.order)
    && |s.order| <= s.capacity
    && s.hits <= s.gets
  }

  /** The recency list without key k (list.Remove of k's element). */
  function Remove(order: seq<NodeId>, k: NodeId): (r: seq<NodeId>)
    ensures forall x :: x in r <==> x in order && x != k
    ensures NoDups(order) ==> NoDups(r)
    ensures NoDups(order) && k in order ==> |r| == |order| - 1
    ensures k !in order ==> r == order
  {
    if order == [] then []
    else if order[0] == k then Remove(order[1..], k)
    else
      NoDupsTail(order);
      [order[0]] + Remove(order[1..], k)
  }

  lemma NoDupsTail(s: seq<NodeId>)
    requires |s| > 0
    ensures NoDups(s) ==> NoDups(s[1..]) && s[0] !in s[1..]
  {
  }

  /** A fresh cache: a non-positive capacity is replaced by the default. */
  function Empty(capacity: int): AdjState
  {
    AdjState(map[], [], if capacity <= 0 then DefaultAdjCapacity else capacity, 0, 0, 0, 0)
  }

  /** The state after Get(key). */
  function AfterGet(s: AdjState, key: NodeId): AdjState
  {
    if key in s.entries then
      s.(order := [key] + Remove(s.order, key), gets := s.gets + 1, hits := s.hits + 1)
    else
      s.(gets := s.gets + 1)
  }

  /** Drops the least recently used key (the back of the recency list). */
  function EvictLru(s: AdjState): AdjState
    requires |s.order| > 0
  {
    var lru := s.order[|s.order| - 1];
    s.(entries := s.entries - {lru}, order := s.order[..|s.order| - 1], evictions := s.evictions + 1)
  }

  /** The state after Put(key, v). */
  function AfterPut(s: AdjState, key: NodeId, v: seq<Edge>): AdjState
  {
    if key in s.entries then
      s.(entries := s.entries[key := v], order := [key] + Remove(s.order, key), puts := s.puts + 1)
    else
      var grown := s.(entries := s.entries[key := v], order := [key] + s.order, puts := s.puts + 1);
      if |grown.order| > grown.capacity then EvictLru(grown) else grown
  }

  /** The state after Invalidate(key). */
  function AfterInvalidate(s: AdjState, key: NodeId): AdjState
  {
    if key in s.entries then s.(entries := s.entries - {key}, order := Remove(s.order, key)) else s
  }

  /** The state after Clear(): no entries, all counters zero, same capacity. */
  function Cleared(s: AdjState): AdjState
  {
    AdjState(map[], [], s.capacity, 0, 0, 0, 0)
  }

  class AdjCache {
    var m: map<NodeId, seq<Edge>>
    var ll: seq<NodeId>
    var capacity: int
    var puts: nat
    var gets: nat
    var hits: nat
    var evictions: nat

    function State(): AdjState
      reads this
    {
      AdjState(m, ll, capacity, gets, hits, puts, evictions)
    }

    ghost predicate Valid()
      reads this
    {
      Inv(State())
    }

    /** NewAdjCacheWithCap. */
    constructor (cap: int)
      ensures Valid() && State() == Empty(cap)
    {
      m := map[];
      ll := [];
      capacity := if cap <= 0 then DefaultAdjCapacity else cap;
      puts, gets, hits, evictions := 0, 0, 0, 0;
    }

    method Get(key: NodeId) returns (v: seq<Edge>, found: bool)
      requires Valid()
      modifies this
      ensures Valid() && State() == AfterGet(old(State()), key)
      ensures found == (key in old(m))
      ensures v == if found then old(m)[key] else []
    {
      gets := gets + 1;
      if key in m {
        hits := hits + 1;
        ll := [key] + Remove(ll, key);
        v, found := m[key], true;
      } else {
        v, found := [], false;
      }
      GetKeepsInv(old(State()), key);
    }

    method Put(key: NodeId, v: seq<Edge>)
      requires Valid()
      modifies this
      ensures Valid() && State() == AfterPut(old(State()), key, v)
    {
      PutKeepsInv(State(), key, v);
      if key in m {
        m := m[key := v];
        ll := [key] + Remove(ll, key);
        puts := puts + 1;
        return;
      }
      ll := [key] + ll;
      m := m[key := v];
      puts := puts + 1;
      if |ll| > capacity {
        var tail := ll[|ll| - 1];
        m := m - {tail};
        ll := ll[..|ll| - 1];
        evictions := evictions + 1;
      }
    }

    method Invalidate(key: NodeId)
      requires Valid()
      modifies this
      ensures Valid() && State() == AfterInvalidate(old(State()), key)
    {
      InvalidateKeepsInv(State(), key);
      if key in m {
        m := m - {key};
        ll := Remove(ll, key);
      }
    }

    method Clear()
      requires Valid()
      modifies this
      ensures Valid() && State() == Cleared(old(State()))
    {
      m := map[];
      ll := [];
      puts, gets, hits, evictions := 0, 0, 0, 0;
    }

    /** A snapshot of the four counters; changes nothing. */
    method Stats() returns (g: nat, h: nat, p: nat, e: nat)
      requires Valid()
      ensures g == gets && h == hits && p == puts && e == evictions
      ensures h <= g
    {
      g, h, p, e := gets, hits, puts, evictions;
    }
  }

  lemma GetKeepsInv(s: AdjState, key: NodeId)
    requires Inv(s)
    ensures Inv(AfterGet(s, key))
  {
  }

  lemma PutKeepsInv(s: AdjState, key: NodeId, v: seq<Edge>)
    requires Inv(s)
    ensures Inv(AfterPut(s, key, v))
  {
    if key !in s.entries {
      var order := [key] + s.order;
      assert NoDups(order);
      if |order| > s.capacity {
        var lru := order[|order| - 1];
        var kept := order[..|order| - 1];
        assert NoDups(kept);
        assert |kept| <= s.capacity;
        forall x ensures x in order[..|order| - 1] <==> x in order && x != lru {
          if x in order[..|order| - 1] {
            var i :| 0 <= i < |order| - 1 && order[i] == x;
            assert order[i] != order[|order| - 1];
          }
          if x in order && x != lru {
            var i :| 0 <= i < |order| && order[i] == x;
            assert order[..|order| - 1][i] == x;
          }
        }
        var r := AfterPut(s, key, v);
        assert r.order == kept;
        assert r.entries.Keys == s.entries.Keys + {key} - {lru};
        forall x ensures x in r.entries <==> x in r.order {
          assert x in order <==> x == key || x in s.order;
        }
      }
    }
  }

  lemma InvalidateKeepsInv(s: AdjState, key: NodeId)
    requires Inv(s)
    ensures Inv(AfterInvalidate(s, key))
  {
  }

  /** A list without duplicates has as many distinct members as elements. */
  lemma {:induction false} DistinctCount(xs: seq<NodeId>)
    requires NoDups(xs)
    ensures |set x | x in xs| == |xs|
  {
    if xs != [] {
      NoDupsTail(xs);
      DistinctCount(xs[1..]);
      assert (set x | x in xs) == {xs[0]} + (set x | x in xs[1..]);
    }
  }

  /** The number of cached entries is the length of the recency list, so at most the capacity. */
  lemma EntryCount(s: AdjState)
    requires Inv(s)
    ensures |s.entries| == |s.order| <= s.capacity
  {
    DistinctCount(s.order);
    assert s.entries.Keys == set x | x in s.order;
  }

  /** Put of every key of ks in turn, key k with value vals(k). */
  function PutAll(s: AdjState, ks: seq<NodeId>, vals: NodeId -> seq<Edge>): AdjState
  {
    if ks == [] then s
    else AfterPut(PutAll(s, ks[..|ks| - 1], vals), ks[|ks| - 1], vals(ks[|ks| - 1]))
  }

  /** Every entry of t holds vals of its key when the key is in ks, and s's value otherwise. */
  ghost predicate EntriesFrom(t: AdjState, ks: seq<NodeId>, s: AdjState, vals: NodeId -> seq<Edge>)
  {
    forall j :: j in t.entries ==>
      if j in ks then t.entries[j] == vals(j) else j in s.entries && t.entries[j] == s.entries[j]
  }

  /** One insertion of a key that is not cached, when the recency list is a prefix of x. */
  lemma PutFreshStep(t: AdjState, k: NodeId, v: seq<Edge>, x: seq<NodeId>)
    requires Inv(t) && k !in t.entries && t.order == Take(x, t.capacity)
    ensures var r := AfterPut(t, k, v);
            && Inv(r)
            && r.order == Take([k] + x, t.capacity)
            && r.capacity == t.capacity
            && r.puts == t.puts + 1
            && r.evictions == t.evictions + |t.order| + 1 - |r.order|
            && (forall j :: j in r.entries ==> r.entries[j] == if j == k then v else t.entries[j])
  {
    PutKeepsInv(t, k, v);
    var r := AfterPut(t, k, v);
    if |x| <= t.capacity {
      assert t.order == x;
      if |x| + 1 > t.capacity {
        assert r.order == ([k] + x)[..t.capacity];
      } else {
        assert r.order == [k] + x;
      }
    } else {
      assert t.order == x[..t.capacity];
      assert r.order == ([k] + x[..t.capacity])[..t.capacity];
      assert ([k] + x[..t.capacity])[..t.capacity] == ([k] + x)[..t.capacity];
    }
  }

  /** The inductive step of FreshPuts: one more key k, not cached, after the keys of
      front; x is the recency list before the cut at the capacity. */
  lemma FreshPutsStep(s: AdjState, front: seq<NodeId>, k: NodeId, vals: NodeId -> seq<Edge>,
                      t: AdjState, x: seq<NodeId>)
    requires Inv(t) && t.capacity == s.capacity && t.order == Take(x, s.capacity) && k !in x
    requires t.puts == s.puts + |front|
    requires t.evictions == s.evictions + |s.order| + |front| - |t.order|
    requires EntriesFrom(t, front, s, vals)
    ensures var r := AfterPut(t, k, vals(k));
            && Inv(r)
            && r.order == Take([k] + x, s.capacity)
            && r.capacity == s.capacity
            && r.puts == s.puts + |front| + 1
            && r.evictions == s.evictions + |s.order| + |front| + 1 - |r.order|
            && EntriesFrom(r, front + [k], s, vals)
  {
    PutFreshStep(t, k, vals(k), x);
  }

  /** Inserting keys that are not cached: the recency list becomes the new keys, newest
      first, in front of the old list, cut at the capacity; each overflow is one eviction. */
  lemma {:induction false} FreshPuts(s: AdjState, ks: seq<NodeId>, vals: NodeId -> seq<Edge>)
    requires Inv(s) && NoDups(ks)
    requires forall k :: k in ks ==> k !in s.entries
    ensures var t := PutAll(s, ks, vals);
            && Inv(t)
            && t.order == Take(Reverse(ks) + s.order, s.capacity)
            && t.capacity == s.capacity
            && t.puts == s.puts + |ks|
            && t.evictions == s.evictions + |s.order| + |ks| - |t.order|
            && EntriesFrom(t, ks, s, vals)
  {
    if ks != [] {
      var front, k := ks[..|ks| - 1], ks[|ks| - 1];
      assert ks == front + [k];
      assert NoDups(front) && k !in front;
      FreshPuts(s, front, vals);
      var t := PutAll(s, front, vals);
      var x := Reverse(front) + s.order;
      assert k !in x by {
        ReverseMembers(front);
      }
      FreshPutsStep(s, front, k, vals, t, x);
      assert PutAll(s, ks, vals) == AfterPut(t, k, vals(k));
      ReverseSnoc(front, k, s.order);
    }
  }

  /** Starting empty, after inserting distinct keys exactly the last `capacity` of them
      are cached, with their values, and every other insertion cost one eviction. */
  lemma FillFromEmpty(cap: int, ks: seq<NodeId>, vals: NodeId -> seq<Edge>)
    requires NoDups(ks)
    ensures var c := Empty(cap).capacity;
            var t := PutAll(Empty(cap), ks, vals);
            && (forall i :: 0 <= i < |ks| ==> (ks[i] in t.entries <==> i >= |ks| - c))
            && (forall i :: 0 <= i < |ks| && ks[i] in t.entries ==> t.entries[ks[i]] == vals(ks[i]))
            && t.evictions == if |ks| <= c then 0 else |ks| - c
  {
    var e := Empty(cap);
    var c := e.capacity;
    FreshPuts(e, ks, vals);
    var t := PutAll(e, ks, vals);
    assert Reverse(ks) + [] == Reverse(ks);
    NewestKept(ks, c);
  }

  /** The newest `n` of distinct keys, newest first, hold exactly the keys at positions
      `|ks| - n` and later. */
  lemma NewestKept(ks: seq<NodeId>, n: nat)
    requires NoDups(ks)
    ensures forall i :: 0 <= i < |ks| ==> (ks[i] in Take(Reverse(ks), n) <==> i >= |ks| - n)
  {
    var rk := Reverse(ks);
    var o := Take(rk, n);
    forall i | 0 <= i < |ks|
      ensures ks[i] in o <==> i >= |ks| - n
    {
      assert rk[|ks| - 1 - i] == ks[i];
      if i >= |ks| - n {
        assert o[|ks| - 1 - i] == ks[i];
      }
      if ks[i] in o {
        var j :| 0 <= j < |o| && o[j] == ks[i];
        assert rk[j] == ks[|ks| - 1 - j];
      }
    }
  }

  /** A Get hit protects its key: later insertions of new keys evict it only after every
      entry that was cached at the time of the Get. */
  lemma TouchedOutlivesOthers(s: AdjState, key: NodeId, ks: seq<NodeId>, vals: NodeId -> seq<Edge>)
    requires Inv(s) && key in s.entries && NoDups(ks)
    requires forall k :: k in ks ==> k !in s.entries
    ensures var t := PutAll(AfterGet(s, key), ks, vals);
            key !in t.entries ==> forall o :: o in s.entries ==> o !in t.entries
  {
    var u := AfterGet(s, key);
    GetKeepsInv(s, key);
    FreshPuts(u, ks, vals);
    var t := PutAll(u, ks, vals);
    var y := Reverse(ks) + u.order;
    assert y[|ks|] == key;
    if key !in t.entries {
      assert key !in t.order;
      assert |y| > s.capacity;
      assert s.capacity <= |ks|;
      ReverseMembers(ks);
      assert forall j :: 0 <= j < |t.order| ==> t.order[j] == Reverse(ks)[j];
    }
  }
}
