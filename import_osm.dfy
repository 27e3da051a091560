// The shaping logic of the OpenStreetMap importer: the speed rule over a way's tags,
// and the handler that records node locations and expands each highway way into road
// edges. Parsing the map file, the great-circle distance and the database inserts are
// outside the model; the distance is a function parameter.
module OsmImport {
  import opened Model

  /** A way's tags, key to value. */
  type Tags = map<string, string>

  /** A node's recorded location. */
  datatype Location = Location(lat: real, lon: real)

  /** `str.isdigit`, restricted to ASCII. */
  predicate IsDigit(c: char)
  {
    '0' <= c <= '9'
  }

  /** The digits of s, in order: what `"".join(c for c in s if c.isdigit())` builds. */
  function Digits(s: string): (r: string)
    ensures |r| <= |s|
    ensures forall i :: 0 <= i < |r| ==> IsDigit(r[i])
    ensures (forall i :: 0 <= i < |s| ==> IsDigit(s[i])) ==> r == s
    ensures (forall i :: 0 <= i < |s| ==> !IsDigit(s[i])) ==> r == []
  {
    if s == [] then []
    else if IsDigit(s[|s| - 1]) then Digits(s[..|s| - 1]) + [s[|s| - 1]]
    else Digits(s[..|s| - 1])
  }

  /** The value of one decimal digit. */
  function DigitValue(c: char): (v: nat)
    requires IsDigit(c)
    ensures v < 10
  {
    c as int - '0' as int
  }

  /** What `int(ds)` gives for a non-empty string of digits, read left to right. */
  function DecimalValue(ds: string): nat
    requires forall i :: 0 <= i < |ds| ==> IsDigit(ds[i])
  {
    if ds == [] then 0 else DecimalValue(ds[..|ds| - 1]) * 10 + DigitValue(ds[|ds| - 1])
  }

  /** The usual decimal rendering of n, without leading zeros. */
  function Decimal(n: nat): (s: string)
    ensures s != [] && forall i :: 0 <= i < |s| ==> IsDigit(s[i])
  {
    if n < 10 then ['0' + n as char] else Decimal(n / 10) + ['0' + (n % 10) as char]
  }

  /** The value of the digits of a rendering is the number rendered. */
  lemma {:induction false} DecimalRoundTrip(n: nat)
    ensures DecimalValue(Decimal(n)) == n
  {
    var s := Decimal(n);
    if n >= 10 {
      DecimalRoundTrip(n / 10);
      assert s[..|s| - 1] == Decimal(n / 10);
    }
  }

  /** Collecting digits distributes over concatenation. */
  lemma {:induction false} DigitsAppend(a: string, b: string)
    ensures Digits(a + b) == Digits(a) + Digits(b)
  {
    if b != [] {
      DigitsAppend(a, b[..|b| - 1]);
      assert (a + b)[..|a + b| - 1] == a + b[..|b| - 1];
    } else {
      assert a + b == a;
    }
  }

  /** The fallback by highway class: motorway and trunk 90, primary, secondary and tertiary
      60, anything else (including no highway tag) 40. */
  function ClassSpeed(highway: string): (r: nat)
    ensures r == 90 <==> highway == "motorway" || highway == "trunk"
    ensures r == 60 <==> highway == "primary" || highway == "secondary" || highway == "tertiary"
    ensures r == 40 || r == 60 || r == 90
  {
    if highway == "motorway" || highway == "trunk" then 90
    else if highway == "primary" || highway == "secondary" || highway == "tertiary" then 60
    else 40
  }

  /** `tags.get(key, default)`. */
  function Get(tags: Tags, key: string, default: string): string
  {
    if key in tags then tags[key] else default
  }

  /** speed_from_tags: the digits of maxspeed read as one number when there are any;
      otherwise (no maxspeed, or one without digits, where `int("")` raises) the
      highway-class fallback. */
  function SpeedFromTags(tags: Tags): (r: nat)
    ensures r == 40 || r == 60 || r == 90 || ("maxspeed" in tags && Digits(tags["maxspeed"]) != [])
    ensures ("maxspeed" !in tags || Digits(tags["maxspeed"]) == []) ==> r >= 40
  {
    if "maxspeed" in tags && Digits(tags["maxspeed"]) != [] then DecimalValue(Digits(tags["maxspeed"]))
    else ClassSpeed(Get(tags, "highway", ""))
  }

  /** A maxspeed written as a number followed by a unit or other text without digits
      ("50", "50 mph", "70km/h" with the unit digit-free) yields that number. */
  lemma MaxspeedRoundTrip(tags: Tags, n: nat, unit: string)
    requires "maxspeed" in tags && tags["maxspeed"] == Decimal(n) + unit
    requires forall i :: 0 <= i < |unit| ==> !IsDigit(unit[i])
    ensures SpeedFromTags(tags) == n
  {
    DigitsAppend(Decimal(n), unit);
    assert Digits(Decimal(n)) == Decimal(n) && Digits(unit) == [];
    var ds := Digits(tags["maxspeed"]);
    assert ds == Decimal(n) + [] == Decimal(n);
    DecimalRoundTrip(n);
    assert SpeedFromTags(tags) == DecimalValue(ds);
  }

  /** Digits are collected across separators: a maxspeed listing two limits reads as
      their concatenation, and one in mph keeps its number unconverted. */
  lemma DigitsRunTogether()
    ensures SpeedFromTags(map["maxspeed" := "50;30"]) == 5030
    ensures SpeedFromTags(map["maxspeed" := "30 mph", "highway" := "motorway"]) == 30
  {
    var s := "50;30";
    assert Digits(s[..1]) == "5";
    assert Digits(s[..2]) == "50" by { assert s[..2][..1] == s[..1]; }
    assert Digits(s[..3]) == "50" by { assert s[..3][..2] == s[..2]; }
    assert Digits(s[..4]) == "503" by { assert s[..4][..3] == s[..3]; }
    assert Digits(s) == "5030" by { assert s[..4] == s[..|s| - 1]; }
    assert DecimalValue("5030") == 5030 by {
      assert "5030"[..3] == "503" && "503"[..2] == "50" && "50"[..1] == "5" && "5"[..0] == "";
    }
    MaxspeedRoundTrip(map["maxspeed" := "30 mph", "highway" := "motorway"], 30, " mph");
  }

  /** Without digits in maxspeed the speed is the class fallback, one of 40, 60 and 90; and
      any speed other than those three came from maxspeed's digits. */
  lemma SpeedSources(tags: Tags)
    ensures ("maxspeed" !in tags || Digits(tags["maxspeed"]) == []) ==>
              SpeedFromTags(tags) == ClassSpeed(Get(tags, "highway", ""))
    ensures SpeedFromTags(tags) !in {40, 60, 90} ==>
              "maxspeed" in tags && Digits(tags["maxspeed"]) != []
              && SpeedFromTags(tags) == DecimalValue(Digits(tags["maxspeed"]))
  {
  }

  /** A way is two-way when its oneway tag is absent or exactly "no". */
  predicate TwoWay(tags: Tags)
  {
    Get(tags, "oneway", "no") == "no"
  }

  /** An edge turned around: same distance and speed, ends swapped. */
  function Flip(e: Edge): (r: Edge)
    ensures r.src == e.dst && r.dst == e.src && r.distM == e.distM && r.speed == e.speed
  {
    Edge(e.dst, e.src, e.distM, e.speed)
  }

  /** The edges one consecutive ref pair (a, b) adds: none when either node is unknown,
      else the forward edge, followed by its flip on a two-way road. */
  function SegmentEdges(nodes: map<NodeId, Location>, a: NodeId, b: NodeId, speed: int, twoWay: bool,
                        dist: (Location, Location) -> int): seq<Edge>
  {
    if a in nodes && b in nodes then
      var fwd := Edge(a, b, dist(nodes[a], nodes[b]), speed);
      if twoWay then [fwd, Flip(fwd)] else [fwd]
    else []
  }

  /** The edges of the consecutive ref pairs of refs, pair by pair in ref order. */
  function PairEdges(nodes: map<NodeId, Location>, refs: seq<NodeId>, speed: int, twoWay: bool,
                     dist: (Location, Location) -> int): seq<Edge>
  {
    if |refs| < 2 then []
    else PairEdges(nodes, refs[..|refs| - 1], speed, twoWay, dist)
         + SegmentEdges(nodes, refs[|refs| - 2], refs[|refs| - 1], speed, twoWay, dist)
  }

  /** Taking one ref more adds the edges of the pair it closes. */
  lemma PairEdgesNext(nodes: map<NodeId, Location>, refs: seq<NodeId>, i: nat, speed: int, twoWay: bool,
                      dist: (Location, Location) -> int)
    requires i + 1 < |refs|
    ensures PairEdges(nodes, refs[..i + 2], speed, twoWay, dist)
         == PairEdges(nodes, refs[..i + 1], speed, twoWay, dist) + SegmentEdges(nodes, refs[i], refs[i + 1], speed, twoWay, dist)
  {
    assert refs[..i + 2][..i + 1] == refs[..i + 1];
  }

  /** The edges OSMHandler.way appends for a way: none without a highway tag or with fewer
      than two refs, else the pair edges at the way's speed. */
  function WayEdges(nodes: map<NodeId, Location>, tags: Tags, refs: seq<NodeId>,
                    dist: (Location, Location) -> int): seq<Edge>
  {
    if "highway" !in tags || |refs| < 2 then []
    else PairEdges(nodes, refs, SpeedFromTags(tags), TwoWay(tags), dist)
  }

  /** An edge comes from a way exactly when it is an edge of one of its consecutive pairs of
      known nodes: unknown nodes skip their pairs and no later pair. */
  lemma {:induction false} PairEdgesMembers(nodes: map<NodeId, Location>, refs: seq<NodeId>, speed: int,
                                            twoWay: bool, dist: (Location, Location) -> int)
    ensures forall e :: e in PairEdges(nodes, refs, speed, twoWay, dist) <==>
              exists i :: 0 <= i < |refs| - 1 && e in SegmentEdges(nodes, refs[i], refs[i + 1], speed, twoWay, dist)
  {
    if |refs| >= 2 {
      var front := refs[..|refs| - 1];
      PairEdgesMembers(nodes, front, speed, twoWay, dist);
      assert PairEdges(nodes, refs, speed, twoWay, dist)
          == PairEdges(nodes, front, speed, twoWay, dist) + SegmentEdges(nodes, refs[|refs| - 2], refs[|refs| - 1], speed, twoWay, dist);
      forall e | e in PairEdges(nodes, refs, speed, twoWay, dist)
        ensures exists i :: 0 <= i < |refs| - 1 && e in SegmentEdges(nodes, refs[i], refs[i + 1], speed, twoWay, dist)
      {
        if e !in SegmentEdges(nodes, refs[|refs| - 2], refs[|refs| - 1], speed, twoWay, dist) {
          var i :| 0 <= i < |front| - 1 && e in SegmentEdges(nodes, front[i], front[i + 1], speed, twoWay, dist);
          assert front[i] == refs[i] && front[i + 1] == refs[i + 1];
        }
      }
      forall e, i | 0 <= i < |refs| - 1 && e in SegmentEdges(nodes, refs[i], refs[i + 1], speed, twoWay, dist)
        ensures e in PairEdges(nodes, refs, speed, twoWay, dist)
      {
        if i < |refs| - 2 {
          assert front[i] == refs[i] && front[i + 1] == refs[i + 1];
        }
      }
    }
  }

  /** A way of n refs adds at most n - 1 edges on a one-way road and at most 2(n - 1) on a
      two-way road, exactly that many when every ref is a known node. */
  lemma {:induction false} PairEdgesCount(nodes: map<NodeId, Location>, refs: seq<NodeId>, speed: int,
                                          twoWay: bool, dist: (Location, Location) -> int)
    requires |refs| >= 1
    ensures var k := if twoWay then 2 else 1;
            && |PairEdges(nodes, refs, speed, twoWay, dist)| <= k * (|refs| - 1)
            && ((forall i :: 0 <= i < |refs| ==> refs[i] in nodes) ==>
                  |PairEdges(nodes, refs, speed, twoWay, dist)| == k * (|refs| - 1))
  {
    if |refs| >= 2 {
      var front := refs[..|refs| - 1];
      PairEdgesCount(nodes, front, speed, twoWay, dist);
      if forall i :: 0 <= i < |refs| ==> refs[i] in nodes {
        assert forall i :: 0 <= i < |front| ==> front[i] == refs[i];
        assert refs[|refs| - 2] in nodes && refs[|refs| - 1] in nodes;
      }
    }
  }

  /** On a two-way road the edges come in pairs, each forward edge directly followed by its
      flip. */
  lemma {:induction false} TwoWayPairs(nodes: map<NodeId, Location>, refs: seq<NodeId>, speed: int,
                                       dist: (Location, Location) -> int)
    ensures var p := PairEdges(nodes, refs, speed, true, dist);
            && |p| % 2 == 0
            && forall j :: 0 <= j < |p| - 1 && j % 2 == 0 ==> p[j + 1] == Flip(p[j])
  {
    if |refs| >= 2 {
      var front := refs[..|refs| - 1];
      TwoWayPairs(nodes, front, speed, dist);
      var p, q := PairEdges(nodes, refs, speed, true, dist), PairEdges(nodes, front, speed, true, dist);
      var s := SegmentEdges(nodes, refs[|refs| - 2], refs[|refs| - 1], speed, true, dist);
      assert p == q + s;
      forall j | 0 <= j < |p| - 1 && j % 2 == 0
        ensures p[j + 1] == Flip(p[j])
      {
        if j < |q| {
          assert p[j] == q[j] && p[j + 1] == q[j + 1];
        } else {
          assert j == |q| && p[j] == s[0] && p[j + 1] == s[1];
        }
      }
    }
  }

  /** On a one-way road every edge runs forward, from some ref to the next. */
  lemma OneWayForward(nodes: map<NodeId, Location>, refs: seq<NodeId>, speed: int,
                      dist: (Location, Location) -> int)
    ensures forall e :: e in PairEdges(nodes, refs, speed, false, dist) ==>
              exists i :: 0 <= i < |refs| - 1 && e.src == refs[i] && e.dst == refs[i + 1]
  {
    PairEdgesMembers(nodes, refs, speed, false, dist);
  }

  /** Every edge of a way carries the way's speed and joins two known nodes. */
  lemma WayEdgesShape(nodes: map<NodeId, Location>, tags: Tags, refs: seq<NodeId>,
                      dist: (Location, Location) -> int)
    ensures forall e :: e in WayEdges(nodes, tags, refs, dist) ==>
              e.speed == SpeedFromTags(tags) && e.src in nodes && e.dst in nodes
              && (e.distM == dist(nodes[e.src], nodes[e.dst]) || e.distM == dist(nodes[e.dst], nodes[e.src]))
  {
    if "highway" in tags && |refs| >= 2 {
      PairEdgesMembers(nodes, refs, SpeedFromTags(tags), TwoWay(tags), dist);
    }
  }

  /** The handler's state: node locations by id and the edges collected so far. */
  class OSMHandler {
    var nodes: map<NodeId, Location>
    var edges: seq<Edge>

    constructor ()
      ensures nodes == map[] && edges == []
    {
      nodes := map[];
      edges := [];
    }

    /** node: record the location; a repeated id overwrites the earlier one. */
    method Node(id: NodeId, loc: Location)
      modifies this
      ensures nodes == old(nodes)[id := loc] && edges == old(edges)
    {
      nodes := nodes[id := loc];
    }

    /** way: nothing for a way without a highway tag or with fewer than two refs; else
        the way's speed from its tags and the edges of each consecutive pair of known refs. */
    method Way(tags: Tags, refs: seq<NodeId>, dist: (Location, Location) -> int)
      modifies this
      ensures nodes == old(nodes)
      ensures edges == old(edges) + WayEdges(nodes, tags, refs, dist)
    {
      if "highway" !in tags {
        return;
      }
      if |refs| < 2 {
        return;
      }
      var speed := SpeedFromTags(tags);
      AddPairs(tags, refs, speed, dist);
    }

    /** The pair loop of way: for each consecutive pair of known refs append the forward
        edge, and the backward edge when the oneway tag is absent or "no". */
    method AddPairs(tags: Tags, refs: seq<NodeId>, speed: int, dist: (Location, Location) -> int)
      requires |refs| >= 1
      modifies this
      ensures nodes == old(nodes)
      ensures edges == old(edges) + PairEdges(nodes, refs, speed, TwoWay(tags), dist)
    {
      var i := 0;
      while i < |refs| - 1
        invariant 0 <= i <= |refs| - 1
        invariant nodes == old(nodes)
        invariant edges == old(edges) + PairEdges(nodes, refs[..i + 1], speed, TwoWay(tags), dist)
      {
        var a, b := refs[i], refs[i + 1];
        ghost var before := edges;
        if a in nodes && b in nodes {
          var d := dist(nodes[a], nodes[b]);
          edges := edges + [Edge(a, b, d, speed)];
          if Get(tags, "oneway", "no") == "no" {
            edges := edges + [Edge(b, a, d, speed)];
          }
        }
        assert edges == before + SegmentEdges(nodes, a, b, speed, TwoWay(tags), dist);
        PairEdgesNext(nodes, refs, i, speed, TwoWay(tags), dist);
        i := i + 1;
      }
      assert refs[..i + 1] == refs;
    }
  }
}
