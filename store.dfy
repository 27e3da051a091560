// The relational edge store, abstracted to a table of rows. Each row records, column by
// column, whether its value can be scanned into a Go value (a NULL cannot); a store that is
// offline fails every query. Whether an update transaction reaches the database is an input
// of that transaction, since the connection can fail between two transactions.
module Store {
  import opened Model

  /** One row of the `edges` table. restOk: dst_node and distance_m scan; speedOk:
      speed_kmph scans; closedOk: closed scans. */
  datatype Row = Row(edgeId: int, src: NodeId, dst: NodeId, distM: int, speed: int,
                     closed: bool, restOk: bool, speedOk: bool, closedOk: bool)

  /** The two columns an update locks and scans before writing. */
  datatype Column = SpeedColumn | ClosedColumn

  /** The four-column scan of Outgoing succeeds on the row. */
  predicate Scannable(r: Row)
  {
    r.restOk && r.speedOk && r.closedOk
  }

  /** The one-column scan of an update succeeds on the row. */
  predicate ColumnOk(r: Row, c: Column)
  {
    match c
    case SpeedColumn => r.speedOk
    case ClosedColumn => r.closedOk
  }

  /** The edge Outgoing(src) builds from a row. */
  function EdgeOf(r: Row, src: NodeId): (e: Edge)
    ensures e.src == src && e.dst == r.dst && e.distM == r.distM && e.speed == r.speed
  {
    Edge(src, r.dst, r.distM, r.speed)
  }

  /** The selected rows that are open (not closed), in table order. */
  function OpenRows(rows: seq<Row>, src: NodeId): (r: seq<Row>)
    ensures forall x :: x in r <==> x in rows && x.src == src && !x.closed
  {
    if rows == [] then []
    else if rows[|rows| - 1].src == src && !rows[|rows| - 1].closed then
      OpenRows(rows[..|rows| - 1], src) + [rows[|rows| - 1]]
    else OpenRows(rows[..|rows| - 1], src)
  }

  /** Some selected row cannot be scanned. */
  predicate HasUnreadable(rows: seq<Row>, src: NodeId)
  {
    exists i :: 0 <= i < |rows| && rows[i].src == src && !Scannable(rows[i])
  }

  /** What Outgoing(src) answers: a failed query, a failed scan, or the edges of the open
      rows in table order, each with src and the row's dst, distance and speed. */
  function OutgoingSpec(rows: seq<Row>, online: bool, src: NodeId): (r: Result<seq<Edge>>)
    ensures !online ==> r == Err(ConnectionFailed)
    ensures online && HasUnreadable(rows, src) ==> r == Err(ScanFailed)
    ensures r.Ok? ==> |r.value| == |OpenRows(rows, src)|
    ensures r.Ok? ==> forall i :: 0 <= i < |r.value| ==> r.value[i] == EdgeOf(OpenRows(rows, src)[i], src)
  {
    if !online then Err(ConnectionFailed)
    else if HasUnreadable(rows, src) then Err(ScanFailed)
    else Ok(seq(|OpenRows(rows, src)|, i requires 0 <= i < |OpenRows(rows, src)| => EdgeOf(OpenRows(rows, src)[i], src)))
  }

  /** The row loop of Outgoing over the first n rows of the table: stops at the first
      selected row that cannot be scanned, skips closed rows, appends the others. */
  function ScanPrefix(rows: seq<Row>, src: NodeId): Result<seq<Edge>>
  {
    if rows == [] then Ok([])
    else
      var r := rows[|rows| - 1];
      match ScanPrefix(rows[..|rows| - 1], src)
      case Err(e) => Err(e)
      case Ok(es) =>
        if r.src != src then Ok(es)
        else if !Scannable(r) then Err(ScanFailed)
        else if r.closed then Ok(es)
        else Ok(es + [EdgeOf(r, src)])
  }

  /** The row loop agrees with the specification: it fails exactly when a selected row is
      unreadable, and otherwise yields one edge per open row, in order. */
  lemma {:induction false} ScanPrefixMeetsSpec(rows: seq<Row>, src: NodeId)
    ensures ScanPrefix(rows, src) == OutgoingSpec(rows, true, src)
  {
    if rows != [] {
      var front, r := rows[..|rows| - 1], rows[|rows| - 1];
      ScanPrefixMeetsSpec(front, src);
      assert rows == front + [r];
      assert HasUnreadable(rows, src) <==> HasUnreadable(front, src) || (r.src == src && !Scannable(r)) by {
        if HasUnreadable(rows, src) && !(r.src == src && !Scannable(r)) {
          var i :| 0 <= i < |rows| && rows[i].src == src && !Scannable(rows[i]);
          assert i < |front| && front[i] == rows[i];
        }
        if HasUnreadable(front, src) {
          var i :| 0 <= i < |front| && front[i].src == src && !Scannable(front[i]);
          assert rows[i] == front[i];
        }
      }
      assert rows[..|rows| - 1] == front;
      if !HasUnreadable(rows, src) {
        var o, of := OpenRows(rows, src), OpenRows(front, src);
        var es := OutgoingSpec(rows, true, src).value;
        var fs := OutgoingSpec(front, true, src).value;
        if r.src == src && !r.closed {
          assert o == of + [r];
          assert es == fs + [EdgeOf(r, src)];
        } else {
          assert o == of;
          assert es == fs;
        }
      }
    }
  }

  /** The first row carrying the edge id: the row a `SELECT … WHERE edge_id = ?` locks. */
  function FirstWithId(rows: seq<Row>, id: int): (r: Option<nat>)
    ensures r.None? <==> forall i :: 0 <= i < |rows| ==> rows[i].edgeId != id
    ensures r.Some? ==> r.value < |rows| && rows[r.value].edgeId == id
                        && forall j :: 0 <= j < r.value ==> rows[j].edgeId != id
  {
    if rows == [] then None
    else if rows[0].edgeId == id then Some(0)
    else match FirstWithId(rows[1..], id)
      case None => None
      case Some(i) => Some(i + 1)
  }

  /** Why an update of column c of edge id fails, if it does: Begin fails when the
      transaction does not reach the database (up is false), the locking SELECT finds no
      row, or the column of the row it finds cannot be scanned. */
  function UpdateError(rows: seq<Row>, up: bool, id: int, c: Column): (r: Option<StoreError>)
    ensures r == None <==> up && (exists i :: 0 <= i < |rows| && rows[i].edgeId == id)
                              && ColumnOk(rows[FirstWithId(rows, id).value], c)
  {
    if !up then Some(ConnectionFailed)
    else match FirstWithId(rows, id)
      case None => Some(NoRows)
      case Some(i) => if ColumnOk(rows[i], c) then None else Some(ScanFailed)
  }

  /** `UPDATE edges SET speed_kmph = speed WHERE edge_id = id`: the written value scans. */
  function SetSpeed(rows: seq<Row>, id: int, speed: int): (r: seq<Row>)
    ensures |r| == |rows|
    ensures forall i :: 0 <= i < |rows| ==>
      r[i] == if rows[i].edgeId == id then rows[i].(speed := speed, speedOk := true) else rows[i]
  {
    seq(|rows|, i requires 0 <= i < |rows| =>
      if rows[i].edgeId == id then rows[i].(speed := speed, speedOk := true) else rows[i])
  }

  /** `UPDATE edges SET closed = closed WHERE edge_id = id`: the written value scans. */
  function SetClosed(rows: seq<Row>, id: int, closed: bool): (r: seq<Row>)
    ensures |r| == |rows|
    ensures forall i :: 0 <= i < |rows| ==>
      r[i] == if rows[i].edgeId == id then rows[i].(closed := closed, closedOk := true) else rows[i]
  {
    seq(|rows|, i requires 0 <= i < |rows| =>
      if rows[i].edgeId == id then rows[i].(closed := closed, closedOk := true) else rows[i])
  }

  class EdgeStore {
    var rows: seq<Row>
    var online: bool

    constructor (rows0: seq<Row>, online0: bool)
      ensures rows == rows0 && online == online0
    {
      rows, online := rows0, online0;
    }

    /** Outgoing: the open edges leaving src, or the query's or a row scan's error. */
    method Outgoing(src: NodeId) returns (r: Result<seq<Edge>>)
      ensures r == OutgoingSpec(rows, online, src)
    {
      if !online {
        return Err(ConnectionFailed);
      }
      var edges: seq<Edge> := [];
      var i := 0;
      while i < |rows|
        invariant 0 <= i <= |rows|
        invariant ScanPrefix(rows[..i], src) == Ok(edges)
      {
        var row := rows[i];
        assert rows[..i + 1][..i] == rows[..i];
        if row.src == src {
          if !Scannable(row) {
            ScanPrefixMeetsSpec(rows[..i + 1], src);
            ScanFailedPersists(rows, i + 1, src);
            return Err(ScanFailed);
          }
          if !row.closed {
            edges := edges + [EdgeOf(row, src)];
          }
        }
        i := i + 1;
      }
      assert rows[..i] == rows;
      ScanPrefixMeetsSpec(rows, src);
      r := Ok(edges);
    }

    /** UpdateEdgeSpeed: lock the row and scan its speed, write the speed, commit; on any
        error roll back. up: whether this transaction reaches the database. */
    method UpdateEdgeSpeed(id: int, speed: int, up: bool) returns (err: Option<StoreError>)
      modifies this
      ensures err == UpdateError(old(rows), up, id, SpeedColumn) && online == old(online)
      ensures rows == if err.None? then SetSpeed(old(rows), id, speed) else old(rows)
    {
      err := UpdateError(rows, up, id, SpeedColumn);
      if err.None? {
        rows := SetSpeed(rows, id, speed);
      }
    }

    /** UpdateEdgeClosed: lock the row and scan its closed flag, write the flag, commit; on
        any error roll back. up: whether this transaction reaches the database. */
    method UpdateEdgeClosed(id: int, closed: bool, up: bool) returns (err: Option<StoreError>)
      modifies this
      ensures err == UpdateError(old(rows), up, id, ClosedColumn) && online == old(online)
      ensures rows == if err.None? then SetClosed(old(rows), id, closed) else old(rows)
    {
      err := UpdateError(rows, up, id, ClosedColumn);
      if err.None? {
        rows := SetClosed(rows, id, closed);
      }
    }
  }

  /** A selected unreadable row among the first n makes the whole table's scan fail. */
  lemma ScanFailedPersists(rows: seq<Row>, n: nat, src: NodeId)
    requires n <= |rows| && HasUnreadable(rows[..n], src)
    ensures HasUnreadable(rows, src)
  {
    var i :| 0 <= i < n && rows[..n][i].src == src && !Scannable(rows[..n][i]);
    assert rows[i] == rows[..n][i];
  }

  /** Closing an edge id removes its rows from every node's open rows; reopening it makes
      every row of that id an open row again. */
  lemma CloseAndReopen(rows: seq<Row>, id: int, src: NodeId)
    ensures forall x :: x in OpenRows(SetClosed(rows, id, true), src) ==> x.edgeId != id
    ensures forall i :: 0 <= i < |rows| && rows[i].edgeId == id && rows[i].src == src ==>
              rows[i].(closed := false, closedOk := true) in OpenRows(SetClosed(rows, id, false), src)
  {
    var c := SetClosed(rows, id, false);
    assert forall i :: 0 <= i < |rows| && rows[i].edgeId == id ==> c[i] == rows[i].(closed := false, closedOk := true);
  }

  /** A speed or closed write never makes a node's scan fail: a row it writes only gains a
      scannable column. */
  lemma WritesNeverBreakScans(rows: seq<Row>, id: int, speed: int, closed: bool, src: NodeId)
    ensures HasUnreadable(SetSpeed(rows, id, speed), src) ==> HasUnreadable(rows, src)
    ensures HasUnreadable(SetClosed(rows, id, closed), src) ==> HasUnreadable(rows, src)
  {
    var a, b := SetSpeed(rows, id, speed), SetClosed(rows, id, closed);
    assert forall i :: 0 <= i < |rows| ==> a[i].src == rows[i].src && (Scannable(a[i]) <== Scannable(rows[i]));
    assert forall i :: 0 <= i < |rows| ==> b[i].src == rows[i].src && (Scannable(b[i]) <== Scannable(rows[i]));
  }

  /** An update of an edge id that the table does not hold fails with NoRows whenever the
      transaction reaches the database. */
  lemma MissingIdFails(rows: seq<Row>, up: bool, id: int, c: Column)
    requires up && forall i :: 0 <= i < |rows| ==> rows[i].edgeId != id
    ensures UpdateError(rows, up, id, c) == Some(NoRows)
  {
  }

  /** After a committed write of a column, a later update of the same column of that edge
      id no longer fails on its scan. */
  lemma WriteRepairsColumn(rows: seq<Row>, up: bool, id: int, speed: int, closed: bool)
    requires up && exists i :: 0 <= i < |rows| && rows[i].edgeId == id
    ensures UpdateError(SetSpeed(rows, id, speed), up, id, SpeedColumn) == None
    ensures UpdateError(SetClosed(rows, id, closed), up, id, ClosedColumn) == None
  {
    var a, b := SetSpeed(rows, id, speed), SetClosed(rows, id, closed);
    assert forall i :: 0 <= i < |rows| && rows[i].edgeId == id ==> a[i].edgeId == id && b[i].edgeId == id;
  }

  /** Every edge Outgoing returns comes from an open row of the table that leaves src. */
  lemma OutgoingFromRows(rows: seq<Row>, online: bool, src: NodeId)
    requires OutgoingSpec(rows, online, src).Ok?
    ensures forall e :: e in OutgoingSpec(rows, online, src).value ==>
              exists r :: r in rows && r.src == src && !r.closed && e == EdgeOf(r, src)
  {
    var es, o := OutgoingSpec(rows, online, src).value, OpenRows(rows, src);
    forall e | e in es
      ensures exists r :: r in rows && r.src == src && !r.closed && e == EdgeOf(r, src)
    {
      var i :| 0 <= i < |es| && es[i] == e;
      assert o[i] in o;
    }
  }

  /** t differs from rows only in rows that do not leave k, and keeps every row's source. */
  ghost predicate SameRowsOf(rows: seq<Row>, t: seq<Row>, k: NodeId)
  {
    && |t| == |rows|
    && forall i :: 0 <= i < |rows| ==> t[i].src == rows[i].src && (rows[i].src == k ==> t[i] == rows[i])
  }

  /** What Outgoing(k) answers depends only on k's own rows. */
  lemma {:induction false} OutgoingOwnRows(rows: seq<Row>, t: seq<Row>, online: bool, k: NodeId)
    requires SameRowsOf(rows, t, k)
    ensures OpenRows(t, k) == OpenRows(rows, k) && (HasUnreadable(t, k) <==> HasUnreadable(rows, k))
    ensures OutgoingSpec(t, online, k) == OutgoingSpec(rows, online, k)
  {
    if rows != [] {
      var n := |rows| - 1;
      assert SameRowsOf(rows[..n], t[..n], k);
      OutgoingOwnRows(rows[..n], t[..n], online, k);
      assert t[..n] == t[..|t| - 1];
      assert HasUnreadable(t, k) <==> HasUnreadable(rows, k) by {
        if HasUnreadable(t, k) {
          var i :| 0 <= i < |t| && t[i].src == k && !Scannable(t[i]);
        }
        if HasUnreadable(rows, k) {
          var i :| 0 <= i < |rows| && rows[i].src == k && !Scannable(rows[i]);
        }
      }
    }
  }

  /** A write that keeps every row's edge id and the scannability of column c leaves the
      outcome of every update of c as it was. */
  lemma UpdateErrorKept(rows: seq<Row>, t: seq<Row>, up: bool, id: int, c: Column)
    requires |t| == |rows|
    requires forall i :: 0 <= i < |rows| ==> t[i].edgeId == rows[i].edgeId && ColumnOk(t[i], c) == ColumnOk(rows[i], c)
    ensures UpdateError(t, up, id, c) == UpdateError(rows, up, id, c)
  {
    var a, b := FirstWithId(t, id), FirstWithId(rows, id);
    if a.Some? && b.Some? {
      assert !(a.value < b.value) && !(b.value < a.value);
    }
  }

  /** A speed write or a closed write of an edge id that does not leave k keeps k's rows. */
  lemma WritesKeepOthers(rows: seq<Row>, id: int, speed: int, closed: bool, k: NodeId)
    requires forall r :: r in rows && r.edgeId == id ==> r.src != k
    ensures SameRowsOf(rows, SetSpeed(rows, id, speed), k) && SameRowsOf(rows, SetClosed(rows, id, closed), k)
  {
    forall i | 0 <= i < |rows| && rows[i].src == k
      ensures rows[i].edgeId != id
    {
      assert rows[i] in rows;
    }
  }
}
