/** The Worker's node table: rows changed by atomic statements, and the three queries of the Worker. */
module Database {
  import opened Text
  import opened Nodes
  import opened Order

  datatype Row = Row(nodeID: Bytes, name: Bytes, region: Bytes, host: Bytes, ip: Bytes, protocols: seq<Protocol>,
                     schemaVersion: int, createdAt: Bytes, updatedAt: Bytes)

  function RowKey(row: Row): string { row.nodeID }

  /** What one statement does is atomic; a request may issue several, with other requests' statements in between. */
  datatype Statement = Upsert(node: Node, at: Bytes) | Select(id: string) | Delete(id: string) | SelectAll

  function Inserted(node: Node, at: Bytes): Row {
    Row(node.nodeID, node.name, node.region, node.host, node.ip, node.protocols, node.schemaVersion, at, at)
  }

  /** ON CONFLICT(node_id) DO UPDATE SET: the columns it lists, and no others. */
  function Updated(row: Row, excluded: Row): Row {
    row.(name := excluded.name, region := excluded.region, host := excluded.host, ip := excluded.ip,
         protocols := excluded.protocols, schemaVersion := excluded.schemaVersion, updatedAt := excluded.updatedAt)
  }

  function UpsertRow(rows: seq<Row>, row: Row): seq<Row> {
    if rows == [] then [row]
    else if rows[0].nodeID == row.nodeID then [Updated(rows[0], row)] + rows[1..]
    else [rows[0]] + UpsertRow(rows[1..], row)
  }

  function DeleteRows(rows: seq<Row>, id: string): seq<Row> {
    if rows == [] then []
    else if rows[0].nodeID == id then DeleteRows(rows[1..], id)
    else [rows[0]] + DeleteRows(rows[1..], id)
  }

  function Execute(rows: seq<Row>, statement: Statement): seq<Row> {
    match statement
    case Upsert(node, at) => UpsertRow(rows, Inserted(node, at))
    case Delete(id) => DeleteRows(rows, id)
    case Select(_) => rows
    case SelectAll => rows
  }

  /** The table after a sequence of statements on an empty one. */
  function After(trace: seq<Statement>): seq<Row> {
    if trace == [] then [] else Execute(After(trace[..|trace| - 1]), trace[|trace| - 1])
  }

  function Lookup(rows: seq<Row>, id: string): Option<Row> {
    if rows == [] then None else if rows[0].nodeID == id then Some(rows[0]) else Lookup(rows[1..], id)
  }

  // ----- one statement -----

  lemma {:induction false} LookupUpsert(rows: seq<Row>, row: Row, id: string)
    ensures Lookup(UpsertRow(rows, row), id) ==
            if id != row.nodeID then Lookup(rows, id)
            else if Lookup(rows, id).Some? then Some(Updated(Lookup(rows, id).value, row)) else Some(row)
  {
    if rows != [] { LookupUpsert(rows[1..], row, id); }
  }

  lemma {:induction false} LookupDelete(rows: seq<Row>, gone: string, id: string)
    ensures Lookup(DeleteRows(rows, gone), id) == if id == gone then None else Lookup(rows, id)
  {
    if rows != [] { LookupDelete(rows[1..], gone, id); }
  }

  lemma {:induction false} LookupIn(rows: seq<Row>, row: Row)
    requires DistinctKeys(rows, RowKey)
    ensures row in rows <==> Lookup(rows, row.nodeID) == Some(row)
  {
    if rows != [] {
      LookupIn(rows[1..], row);
      assert rows == [rows[0]] + rows[1..];
      if row in rows[1..] {
        var j :| 1 <= j < |rows| && rows[j] == row;
        assert RowKey(rows[0]) != RowKey(rows[j]);
      }
    }
  }

  lemma {:induction false} UpsertKeys(rows: seq<Row>, row: Row, id: string)
    requires id != row.nodeID && forall i :: 0 <= i < |rows| ==> RowKey(rows[i]) != id
    ensures forall i :: 0 <= i < |UpsertRow(rows, row)| ==> RowKey(UpsertRow(rows, row)[i]) != id
  {
    if rows != [] { UpsertKeys(rows[1..], row, id); }
  }

  lemma {:induction false} DeleteKeys(rows: seq<Row>, gone: string, id: string)
    requires forall i :: 0 <= i < |rows| ==> RowKey(rows[i]) != id
    ensures forall i :: 0 <= i < |DeleteRows(rows, gone)| ==> RowKey(DeleteRows(rows, gone)[i]) != id
  {
    if rows != [] { DeleteKeys(rows[1..], gone, id); }
  }

  lemma DistinctCons(row: Row, rows: seq<Row>)
    requires DistinctKeys(rows, RowKey) && forall i :: 0 <= i < |rows| ==> RowKey(rows[i]) != row.nodeID
    ensures DistinctKeys([row] + rows, RowKey)
  {
    var all := [row] + rows;
    forall i, j | 0 <= i < j < |all| ensures RowKey(all[i]) != RowKey(all[j]) {
      assert all[j] == rows[j - 1];
      if i > 0 { assert all[i] == rows[i - 1]; }
    }
  }

  lemma HeadDistinct(rows: seq<Row>)
    requires rows != [] && DistinctKeys(rows, RowKey)
    ensures DistinctKeys(rows[1..], RowKey)
    ensures forall i :: 0 <= i < |rows[1..]| ==> RowKey(rows[1..][i]) != rows[0].nodeID
  {
    forall i | 0 <= i < |rows[1..]| ensures RowKey(rows[1..][i]) != rows[0].nodeID {
      assert RowKey(rows[0]) != RowKey(rows[i + 1]);
    }
  }

  lemma {:induction false} UpsertDistinct(rows: seq<Row>, row: Row)
    requires DistinctKeys(rows, RowKey)
    ensures DistinctKeys(UpsertRow(rows, row), RowKey)
  {
    if rows != [] {
      HeadDistinct(rows);
      if rows[0].nodeID == row.nodeID {
        DistinctCons(Updated(rows[0], row), rows[1..]);
      } else {
        UpsertDistinct(rows[1..], row);
        UpsertKeys(rows[1..], row, rows[0].nodeID);
        DistinctCons(rows[0], UpsertRow(rows[1..], row));
      }
    }
  }

  lemma {:induction false} DeleteDistinct(rows: seq<Row>, id: string)
    requires DistinctKeys(rows, RowKey)
    ensures DistinctKeys(DeleteRows(rows, id), RowKey)
  {
    if rows != [] {
      HeadDistinct(rows);
      DeleteDistinct(rows[1..], id);
      if rows[0].nodeID != id {
        DeleteKeys(rows[1..], id, rows[0].nodeID);
        DistinctCons(rows[0], DeleteRows(rows[1..], id));
      }
    }
  }

  lemma ExecuteDistinct(rows: seq<Row>, statement: Statement)
    requires DistinctKeys(rows, RowKey)
    ensures DistinctKeys(Execute(rows, statement), RowKey)
  {
    match statement
    case Upsert(node, at) => UpsertDistinct(rows, Inserted(node, at));
    case Delete(id) => DeleteDistinct(rows, id);
    case _ =>
  }

  // ----- any interleaving -----

  /** Whatever statements are interleaved, there is at most one row per node. */
  lemma {:induction false} OneRowPerNode(trace: seq<Statement>)
    ensures DistinctKeys(After(trace), RowKey)
  {
    if trace != [] {
      OneRowPerNode(trace[..|trace| - 1]);
      ExecuteDistinct(After(trace[..|trace| - 1]), trace[|trace| - 1]);
    }
  }

  /** The position after the last deletion of a node. */
  function LastDelete(trace: seq<Statement>, id: string): (n: nat)
    ensures n <= |trace|
  {
    if trace == [] then 0
    else if trace[|trace| - 1] == Delete(id) then |trace|
    else LastDelete(trace[..|trace| - 1], id)
  }

  /** The upserts of one node, in order. */
  function Upserts(trace: seq<Statement>, id: string): (us: seq<Statement>)
    ensures forall i :: 0 <= i < |us| ==> us[i].Upsert? && us[i].node.nodeID == id
  {
    if trace == [] then []
    else
      var last := trace[|trace| - 1];
      Upserts(trace[..|trace| - 1], id) + if last.Upsert? && last.node.nodeID == id then [last] else []
  }

  lemma ExecuteLookup(rows: seq<Row>, statement: Statement, id: string)
    ensures Lookup(Execute(rows, statement), id) ==
            if statement == Delete(id) then None
            else if statement.Upsert? && statement.node.nodeID == id then
              var row := Inserted(statement.node, statement.at);
              Some(if Lookup(rows, id).Some? then Updated(Lookup(rows, id).value, row) else row)
            else Lookup(rows, id)
  {
    if statement.Delete? { LookupDelete(rows, statement.id, id); }
    if statement.Upsert? { LookupUpsert(rows, Inserted(statement.node, statement.at), id); }
  }

  function RowOf(us: seq<Statement>): Option<Row>
    requires forall i :: 0 <= i < |us| ==> us[i].Upsert?
  {
    if us == [] then None
    else
      var last := us[|us| - 1].node;
      Some(Row(nodeID := last.nodeID, name := last.name, region := last.region, host := last.host, ip := last.ip,
               protocols := last.protocols, schemaVersion := last.schemaVersion, createdAt := us[0].at,
               updatedAt := us[|us| - 1].at))
  }

  lemma RowOfLast(us: seq<Statement>, u: Statement, id: string)
    requires forall i :: 0 <= i < |us| ==> us[i].Upsert? && us[i].node.nodeID == id
    requires u.Upsert? && u.node.nodeID == id
    ensures RowOf(us + [u]) ==
            Some(if us == [] then Inserted(u.node, u.at) else Updated(RowOf(us).value, Inserted(u.node, u.at)))
  {
  }

  /** The row the history of a node asks for: every field from the last upsert, except that `created_at` is
      what the first upsert since the last deletion bound. */
  function Expected(trace: seq<Statement>, id: string): Option<Row> {
    RowOf(Upserts(trace[LastDelete(trace, id)..], id))
  }

  lemma ExpectedStep(trace: seq<Statement>, id: string)
    requires trace != [] && trace[|trace| - 1] != Delete(id)
    ensures LastDelete(trace, id) == LastDelete(trace[..|trace| - 1], id) < |trace|
    ensures trace[LastDelete(trace, id)..][..|trace[LastDelete(trace, id)..]| - 1] ==
            trace[..|trace| - 1][LastDelete(trace, id)..]
  {
  }

  /** Under any interleaving of statements, the row of a node is the one its history asks for. */
  lemma {:induction false} RowHistory(trace: seq<Statement>, id: string)
    ensures Lookup(After(trace), id) == Expected(trace, id)
  {
    if trace != [] {
      var init, last := trace[..|trace| - 1], trace[|trace| - 1];
      RowHistory(init, id);
      ExecuteLookup(After(init), last, id);
      if last == Delete(id) {
        assert trace[|trace|..] == [];
      } else {
        ExpectedStep(trace, id);
        var us := Upserts(init[LastDelete(init, id)..], id);
        if last.Upsert? && last.node.nodeID == id { RowOfLast(us, last, id); }
      }
    }
  }

  // ----- the queries -----

  function NodeOf(row: Row): Node {
    Node(row.schemaVersion, row.nodeID, row.name, row.region, row.host, row.ip, row.protocols, row.updatedAt)
  }

  function NodesOf(rows: seq<Row>): (r: seq<Node>)
    ensures |r| == |rows|
  {
    if rows == [] then [] else NodesOf(rows[..|rows| - 1]) + [NodeOf(rows[|rows| - 1])]
  }

  lemma {:induction false} NodesOfAt(rows: seq<Row>, i: nat)
    requires i < |rows|
    ensures NodesOf(rows)[i] == NodeOf(rows[i])
  {
    if i < |rows| - 1 { NodesOfAt(rows[..|rows| - 1], i); }
  }

  function Listing(rows: seq<Row>): seq<Node> { NodesOf(Sort(rows, RowKey)) }

  /** The node has the columns of the row. */
  predicate Shows(n: Node, row: Row) {
    n.schemaVersion == row.schemaVersion && n.nodeID == row.nodeID && n.name == row.name && n.region == row.region &&
    n.host == row.host && n.ip == row.ip && n.protocols == row.protocols && n.updatedAt == row.updatedAt
  }

  /** Some row is shown. */
  ghost predicate Stored(rows: seq<Row>, n: Node) { exists row :: row in rows && Shows(n, row) }

  lemma ListingSize(rows: seq<Row>)
    ensures |Listing(rows)| == |Sort(rows, RowKey)| == |rows|
  {
    var sorted := Sort(rows, RowKey);
    SortElements(rows, RowKey);
    assert |sorted| == |multiset(sorted)| == |multiset(rows)| == |rows|;
  }

  lemma ListingAt(rows: seq<Row>, i: nat)
    requires i < |rows|
    ensures |Listing(rows)| == |Sort(rows, RowKey)| == |rows|
    ensures Shows(Listing(rows)[i], Sort(rows, RowKey)[i]) && Sort(rows, RowKey)[i] in rows
  {
    var sorted := Sort(rows, RowKey);
    ListingSize(rows);
    SortElements(rows, RowKey);
    NodesOfAt(sorted, i);
    assert sorted[i] in multiset(sorted);
  }

  lemma ListingStored(rows: seq<Row>, i: nat)
    requires i < |Listing(rows)|
    ensures Stored(rows, Listing(rows)[i])
  {
    ListingSize(rows);
    ListingAt(rows, i);
    hide Shows, Listing, Sort;
  }

  lemma ListingHas(rows: seq<Row>, row: Row) returns (i: nat)
    requires row in rows
    ensures i < |Listing(rows)| && Shows(Listing(rows)[i], row)
  {
    hide Shows;
    var sorted := Sort(rows, RowKey);
    SortElements(rows, RowKey);
    ListingSize(rows);
    assert row in multiset(rows) && row in multiset(sorted);
    i :| 0 <= i < |sorted| && sorted[i] == row;
    ListingAt(rows, i);
  }

  lemma ListingInOrder(rows: seq<Row>, i: nat, j: nat)
    requires DistinctKeys(rows, RowKey) && i < j < |Listing(rows)|
    ensures Precedes(Listing(rows)[i].nodeID, Listing(rows)[j].nodeID)
  {
    hide Precedes, Less;
    var sorted := Sort(rows, RowKey);
    ListingSize(rows);
    SortAscending(rows, RowKey);
    AscendingMeaning(sorted, RowKey);
    ListingAt(rows, i);
    ListingAt(rows, j);
    assert Precedes(RowKey(sorted[i]), RowKey(sorted[j]));
  }

  /** The answer to the query: every row once, in the order of the ids. */
  lemma ListingShows(rows: seq<Row>)
    requires DistinctKeys(rows, RowKey)
    ensures |Listing(rows)| == |rows|
    ensures forall i, j :: 0 <= i < j < |Listing(rows)| ==>
              Precedes(Listing(rows)[i].nodeID, Listing(rows)[j].nodeID)
    ensures forall row :: row in rows ==> exists i :: 0 <= i < |Listing(rows)| && Shows(Listing(rows)[i], row)
    ensures forall i :: 0 <= i < |Listing(rows)| ==> Stored(rows, Listing(rows)[i])
  {
    hide *;
    var nodes := Listing(rows);
    ListingSize(rows);
    forall i, j | 0 <= i < j < |nodes| ensures Precedes(nodes[i].nodeID, nodes[j].nodeID) {
      ListingInOrder(rows, i, j);
    }
    forall row | row in rows ensures exists i :: 0 <= i < |nodes| && Shows(nodes[i], row) {
      var i := ListingHas(rows, row);
    }
    forall i | 0 <= i < |nodes| ensures Stored(rows, nodes[i]) { ListingStored(rows, i); }
  }

  class Table {
    var rows: seq<Row>

    ghost predicate Valid()
      reads this
    {
      DistinctKeys(rows, RowKey)
    }

    constructor ()
      ensures Valid() && rows == []
    {
      rows := [];
    }

    method UpsertNode(node: Node, now: Bytes)
      requires Valid()
      modifies this
      ensures Valid() && rows == Execute(old(rows), Upsert(node, now))
      ensures Lookup(rows, node.nodeID).Some? && NodeOf(Lookup(rows, node.nodeID).value) == node.(updatedAt := now)
      ensures forall id :: id != node.nodeID ==> Lookup(rows, id) == Lookup(old(rows), id)
    {
      ExecuteDistinct(rows, Upsert(node, now));
      LookupUpsert(rows, Inserted(node, now), node.nodeID);
      forall id | id != node.nodeID ensures Lookup(Execute(rows, Upsert(node, now)), id) == Lookup(rows, id) {
        LookupUpsert(rows, Inserted(node, now), id);
      }
      SameKey(rows, node.nodeID);
      rows := Execute(rows, Upsert(node, now));
    }

    /** Two statements; here with nothing in between. */
    method DeleteNode(nodeID: string) returns (deleted: bool)
      requires Valid()
      modifies this
      ensures Valid() && (deleted <==> Lookup(old(rows), nodeID).Some?)
      ensures rows == if deleted then Execute(old(rows), Delete(nodeID)) else old(rows)
      ensures forall id :: Lookup(rows, id) == if id == nodeID then None else Lookup(old(rows), id)
    {
      var existing := Lookup(rows, nodeID);
      if existing == None { return false; }
      ExecuteDistinct(rows, Delete(nodeID));
      forall id ensures Lookup(DeleteRows(rows, nodeID), id) == if id == nodeID then None else Lookup(rows, id) {
        LookupDelete(rows, nodeID, id);
      }
      rows := Execute(rows, Delete(nodeID));
      return true;
    }

    method ListNodes() returns (nodes: seq<Node>)
      requires Valid()
      ensures |nodes| == |rows|
      ensures forall i, j :: 0 <= i < j < |nodes| ==> Precedes(nodes[i].nodeID, nodes[j].nodeID)
      ensures forall row :: row in rows ==> exists i :: 0 <= i < |nodes| && Shows(nodes[i], row)
      ensures forall i :: 0 <= i < |nodes| ==> Stored(rows, nodes[i])
      ensures nodes == Listing(rows)
    {
      ListingShows(rows);
      hide Sort, DistinctKeys, Precedes, Shows, Stored;
      var sorted := Sort(rows, RowKey);
      nodes := [];
      for i := 0 to |sorted|
        invariant nodes == NodesOf(sorted[..i])
      {
        nodes := nodes + [NodeOf(sorted[i])];
        assert sorted[..i + 1][..i] == sorted[..i];
      }
      assert sorted[..|sorted|] == sorted;
    }
  }

  lemma {:induction false} SameKey(rows: seq<Row>, id: string)
    ensures Lookup(rows, id).Some? ==> Lookup(rows, id).value.nodeID == id
  {
    if rows != [] { SameKey(rows[1..], id); }
  }
}
