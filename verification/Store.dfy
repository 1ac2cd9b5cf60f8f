/** The Go registry's node map: rebuilding it from a file, listing it, and replaying requests on it. */
module Store {
  import opened Nodes
  import opened Order
  import opened Validators

  type Table = map<string, Node>

  function NodeKey(n: Node): string { n.nodeID }

  /** Every node is filed under its own id. */
  predicate WellKeyed(store: Table) {
    forall id :: id in store ==> store[id].nodeID == id
  }

  /** The nodes of the map, each once, in strictly ascending id order. */
  predicate IsListing(nodes: seq<Node>, store: Table) {
    Ascending(nodes, NodeKey) &&
    (forall n :: n in nodes ==> n.nodeID in store && store[n.nodeID] == n) &&
    (forall id :: id in store ==> store[id] in nodes)
  }

  lemma ListingUnique(a: seq<Node>, b: seq<Node>, store: Table)
    requires IsListing(a, store) && IsListing(b, store)
    ensures a == b
  {
    AscendingUnique(a, b, NodeKey);
  }

  lemma InIdOrder(nodes: seq<Node>)
    requires Ascending(nodes, NodeKey)
    ensures forall i, j :: 0 <= i < j < |nodes| ==> Precedes(nodes[i].nodeID, nodes[j].nodeID)
  {
    AscendingMeaning(nodes, NodeKey);
    forall i, j | 0 <= i < j < |nodes| ensures Precedes(nodes[i].nodeID, nodes[j].nodeID) {
      assert Precedes(NodeKey(nodes[i]), NodeKey(nodes[j]));
    }
  }

  /** An enumeration of the map: each node once, in any order. */
  predicate Enumerates(nodes: seq<Node>, store: Table) {
    DistinctKeys(nodes, NodeKey) &&
    (forall n :: n in nodes ==> n.nodeID in store && store[n.nodeID] == n) &&
    (forall id :: id in store ==> store[id] in nodes)
  }

  lemma SortedEnumeration(nodes: seq<Node>, store: Table)
    requires Enumerates(nodes, store)
    ensures IsListing(Sort(nodes, NodeKey), store)
  {
    SortAscending(nodes, NodeKey);
    SortElements(nodes, NodeKey);
    forall n ensures n in Sort(nodes, NodeKey) <==> n in nodes {
      assert n in Sort(nodes, NodeKey) <==> n in multiset(Sort(nodes, NodeKey));
      assert n in nodes <==> n in multiset(nodes);
    }
  }

  /** Listing under the lock: the map is walked in an arbitrary order, then sorted by id. */
  method SortedNodesLocked(store: Table) returns (nodes: seq<Node>)
    requires WellKeyed(store)
    ensures forall i, j :: 0 <= i < j < |nodes| ==> Precedes(nodes[i].nodeID, nodes[j].nodeID)
    ensures IsListing(nodes, store)
    ensures forall other :: IsListing(other, store) ==> other == nodes
  {
    nodes := [];
    var rest := store.Keys;
    while rest != {}
      invariant rest <= store.Keys
      invariant DistinctKeys(nodes, NodeKey)
      invariant forall n :: n in nodes ==> n.nodeID in store && n.nodeID !in rest && store[n.nodeID] == n
      invariant forall id :: id in store && id !in rest ==> store[id] in nodes
      decreases rest
    {
      var id :| id in rest;
      nodes := nodes + [store[id]];
      rest := rest - {id};
    }
    SortedEnumeration(nodes, store);
    nodes := Sort(nodes, NodeKey);
    InIdOrder(nodes);
    forall other | IsListing(other, store) ensures other == nodes { ListingUnique(other, nodes, store); }
  }

  /** Without its last node, a listing is one of the map without that node. */
  lemma ListingInit(nodes: seq<Node>, store: Table, last: Node)
    requires WellKeyed(store) && IsListing(nodes + [last], store)
    ensures last.nodeID in store && IsListing(nodes, store - {last.nodeID})
  {
    hide Less;
    var all, rest := nodes + [last], store - {last.nodeID};
    assert all[|nodes|] == last && last in all;
    forall n | n in nodes ensures n.nodeID in rest && rest[n.nodeID] == n {
      var i :| 0 <= i < |nodes| && nodes[i] == n;
      assert all[i] == n && n in all;
      LessTotal(NodeKey(all[i]), NodeKey(all[|nodes|]));
    }
    forall id | id in rest ensures rest[id] in nodes { assert store[id] in all; }
    forall i, j | 0 <= i < j < |nodes| ensures Less(NodeKey(nodes[i]), NodeKey(nodes[j])) {
      assert Less(NodeKey(all[i]), NodeKey(all[j]));
    }
  }

  lemma NothingListed(store: Table)
    requires IsListing([], store)
    ensures store == map[]
  {
    assert forall id :: id !in store;
  }

  /** A listing is as long as the map is large. */
  lemma {:induction false} ListingSize(nodes: seq<Node>, store: Table)
    requires WellKeyed(store) && IsListing(nodes, store)
    ensures |nodes| == |store|
  {
    hide IsListing;
    if nodes == [] {
      NothingListed(store);
    } else {
      var init, last := nodes[..|nodes| - 1], nodes[|nodes| - 1];
      assert nodes == init + [last];
      ListingInit(init, store, last);
      ListingSize(init, store - {last.nodeID});
      assert store.Keys == (store - {last.nodeID}).Keys + {last.nodeID};
    }
  }

  /** Every map has a listing. */
  lemma ListingExists(store: Table) returns (nodes: seq<Node>)
    requires WellKeyed(store)
    ensures IsListing(nodes, store)
  {
    nodes := EnumerationOf(store.Keys, store);
    SortedEnumeration(nodes, store);
    nodes := Sort(nodes, NodeKey);
  }

  lemma {:induction false} EnumerationOf(ids: set<string>, store: Table) returns (nodes: seq<Node>)
    requires WellKeyed(store) && ids <= store.Keys
    ensures DistinctKeys(nodes, NodeKey)
    ensures forall n :: n in nodes ==> n.nodeID in ids && store[n.nodeID] == n
    ensures forall id :: id in ids ==> store[id] in nodes
  {
    if ids == {} {
      nodes := [];
    } else {
      var id :| id in ids;
      var rest := EnumerationOf(ids - {id}, store);
      nodes := rest + [store[id]];
    }
  }

  /** The map a saved node list stands for: a later entry with the same id wins. */
  function Rebuild(nodes: seq<Node>): Table {
    if nodes == [] then map[]
    else Rebuild(nodes[..|nodes| - 1])[nodes[|nodes| - 1].nodeID := nodes[|nodes| - 1]]
  }

  lemma {:induction false} RebuildWellKeyed(nodes: seq<Node>)
    ensures WellKeyed(Rebuild(nodes))
    ensures forall id :: id in Rebuild(nodes) ==> Rebuild(nodes)[id] in nodes
  {
    if nodes != [] { RebuildWellKeyed(nodes[..|nodes| - 1]); }
  }

  /** Of several entries with one id the last one stays. */
  lemma {:induction false} RebuildMeaning(nodes: seq<Node>, i: nat)
    requires i < |nodes| && forall j :: i < j < |nodes| ==> nodes[j].nodeID != nodes[i].nodeID
    ensures nodes[i].nodeID in Rebuild(nodes) && Rebuild(nodes)[nodes[i].nodeID] == nodes[i]
  {
    var n := |nodes| - 1;
    if i < n {
      var init := nodes[..n];
      assert forall j :: 0 <= j < n ==> init[j] == nodes[j];
      RebuildMeaning(init, i);
      assert nodes[n].nodeID != nodes[i].nodeID;
    }
  }

  lemma {:induction false} RebuildDistinct(nodes: seq<Node>, n: Node)
    requires DistinctKeys(nodes, NodeKey) && n in nodes
    ensures n.nodeID in Rebuild(nodes) && Rebuild(nodes)[n.nodeID] == n
  {
    var init, last := nodes[..|nodes| - 1], nodes[|nodes| - 1];
    if n != last {
      assert nodes == init + [last];
      RebuildDistinct(init, n);
      var i :| 0 <= i < |init| && init[i] == n;
      assert NodeKey(nodes[i]) != NodeKey(nodes[|init|]);
    }
  }

  /** Restarting from a saved listing gives back the very map that was saved. */
  lemma RebuildListing(nodes: seq<Node>, store: Table)
    requires WellKeyed(store) && IsListing(nodes, store)
    ensures Rebuild(nodes) == store
  {
    RebuildWellKeyed(nodes);
    forall i, j | 0 <= i < j < |nodes| ensures NodeKey(nodes[i]) != NodeKey(nodes[j]) {
      LessTotal(NodeKey(nodes[i]), NodeKey(nodes[j]));
    }
    forall id | id in store ensures id in Rebuild(nodes) && Rebuild(nodes)[id] == store[id] {
      RebuildDistinct(nodes, store[id]);
    }
  }

  // ----- mutating requests -----

  datatype Op = Put(node: Node) | Remove(id: string)

  function Apply(store: Table, op: Op): Table {
    match op
    case Put(node) => store[node.nodeID := node]
    case Remove(id) => store - {id}
  }

  /** The map after a sequence of requests, first to last. */
  function Replay(base: Table, log: seq<Op>): Table {
    if log == [] then base else Apply(Replay(base, log[..|log| - 1]), log[|log| - 1])
  }

  lemma ReplayStep(base: Table, log: seq<Op>, op: Op)
    ensures Replay(base, log + [op]) == Apply(Replay(base, log), op)
  {
    assert (log + [op])[..|log|] == log;
  }

  function OpID(op: Op): string {
    match op case Put(node) => node.nodeID case Remove(id) => id
  }

  /** A request's effect stands until a later request names the same node. */
  lemma {:induction false} ReplayKeeps(base: Table, log: seq<Op>, n: nat)
    requires n < |log| && forall i :: n < i < |log| ==> OpID(log[i]) != OpID(log[n])
    ensures match log[n]
            case Put(node) => node.nodeID in Replay(base, log) && Replay(base, log)[node.nodeID] == node
            case Remove(id) => id !in Replay(base, log)
  {
    if n < |log| - 1 {
      ReplayKeeps(base, log[..|log| - 1], n);
      assert OpID(log[|log| - 1]) != OpID(log[n]);
    }
  }

  predicate ValidTable(store: Table) {
    forall id :: id in store ==> ValidNode(store[id])
  }

  predicate ValidLog(log: seq<Op>) {
    forall i :: 0 <= i < |log| ==> log[i].Put? ==> ValidNode(log[i].node)
  }

  lemma {:induction false} ReplayInvariant(base: Table, log: seq<Op>)
    requires WellKeyed(base)
    ensures WellKeyed(Replay(base, log))
    ensures ValidTable(base) && ValidLog(log) ==> ValidTable(Replay(base, log))
  {
    if log != [] { ReplayInvariant(base, log[..|log| - 1]); }
  }

  // ----- the data file -----

  /** A file never written, one torn by an interrupted or failed write, or one holding a complete document. */
  datatype File<T> = Missing | Torn | Holds(content: T)

  type NodeFile = File<seq<Node>>

  /** What the server starts from: an absent or undecodable file counts as empty. */
  function Load(file: NodeFile): Table {
    if file.Holds? then Rebuild(file.content) else map[]
  }
}
