/** The Go registry server as an object: its handlers, called one at a time, its data file, and its restart. */
module Server {
  import opened Text
  import opened Nodes
  import opened Validators
  import opened Store
  import opened Order
  import opened Admission
  import opened FormatNames
  import opened Subscription

  /** Where a save goes wrong, if it does: creating the directory, writing the temporary file, or renaming it. */
  datatype Fault = Fine | AtMkdir | AtWrite | AtRename

  /** A file holding one document, and its temporary neighbour. */
  class Disk<T> {
    var path: File<T>
    var tmp: File<T>

    constructor (path: File<T>, tmp: File<T>)
      ensures this.path == path && this.tmp == tmp
    {
      this.path, this.tmp := path, tmp;
    }

    /** The file is replaced as a whole or not at all. */
    method WriteJSONAtomic(content: T, fault: Fault) returns (ok: bool)
      modifies this
      ensures ok <==> fault.Fine?
      ensures path == if ok then Holds(content) else old(path)
      ensures tmp == match fault
                     case Fine => Missing
                     case AtMkdir => old(tmp)
                     case AtWrite => Torn
                     case AtRename => Holds(content)
    {
      if fault.AtMkdir? { return false; }
      tmp := Torn;
      if fault.AtWrite? { return false; }
      tmp := Holds(content);
      if fault.AtRename? { return false; }
      path, tmp := tmp, Missing;
      return true;
    }
  }

  /** What the summaries of a listing say about the map. */
  lemma SummariesListed(out: seq<Summary>, nodes: seq<Node>, store: Table)
    requires |out| == |nodes| && forall k :: 0 <= k < |out| ==> Summarises(out[k], nodes[k])
    requires WellKeyed(store) && IsListing(nodes, store)
    ensures |out| == |store|
    ensures forall i, j :: 0 <= i < j < |out| ==> Precedes(out[i].nodeID, out[j].nodeID)
    ensures forall i :: 0 <= i < |out| ==> out[i].nodeID in store && Summarises(out[i], store[out[i].nodeID])
    ensures forall id :: id in store ==> exists i :: 0 <= i < |out| && out[i].nodeID == id
  {
    hide Precedes, Less, SameEntries;
    ListingSize(nodes, store);
    InIdOrder(nodes);
    forall i | 0 <= i < |out| ensures out[i].nodeID in store && Summarises(out[i], store[out[i].nodeID]) {
      assert nodes[i] in nodes;
    }
    forall id | id in store ensures exists i :: 0 <= i < |out| && out[i].nodeID == id {
      var i :| 0 <= i < |nodes| && nodes[i] == store[id];
      assert out[i].nodeID == id;
    }
  }

  method Contains(items: seq<string>, value: string) returns (found: bool)
    ensures found <==> value != "" && exists i :: 0 <= i < |items| && items[i] == value
    ensures found <==> Known(items, value)
  {
    if value == "" { return false; }
    for i := 0 to |items|
      invariant value !in items[..i]
    {
      if items[i] == value { return true; }
    }
    assert items[..|items|] == items;
    return false;
  }

  /** Every entry of the list is in the map, unless a later one has its id; and nothing else is. */
  ghost predicate Entered(nodes: seq<Node>, store: Table) {
    (forall id :: id in store ==> store[id] in nodes && store[id].nodeID == id) &&
    forall i :: 0 <= i < |nodes| && (forall j :: i < j < |nodes| ==> nodes[j].nodeID != nodes[i].nodeID) ==>
      nodes[i].nodeID in store && store[nodes[i].nodeID] == nodes[i]
  }

  lemma AllEntered(nodes: seq<Node>)
    ensures Entered(nodes, Rebuild(nodes))
  {
    RebuildWellKeyed(nodes);
    forall i | 0 <= i < |nodes| && (forall j :: i < j < |nodes| ==> nodes[j].nodeID != nodes[i].nodeID)
      ensures nodes[i].nodeID in Rebuild(nodes) && Rebuild(nodes)[nodes[i].nodeID] == nodes[i]
    {
      RebuildMeaning(nodes, i);
    }
  }

  class RegistryServer {
    const config: Config
    const disk: Disk<seq<Node>>
    var store: Table

    ghost predicate Valid()
      reads this
    {
      WellKeyed(store)
    }

    /** Memory and file agree: a process starting now would know what this one knows. */
    ghost predicate Saved()
      reads this, disk
    {
      disk.path.Holds? && IsListing(disk.path.content, store)
    }

    /** Starts from what the data file holds, or from nothing when it is absent or cannot be read. */
    constructor (config: Config, disk: Disk<seq<Node>>, readable: bool)
      ensures Valid() && this.config == config && this.disk == disk
      ensures !readable || !disk.path.Holds? ==> store == map[]
      ensures readable && disk.path.Holds? ==> Entered(disk.path.content, store)
      ensures store == if readable then Load(disk.path) else map[]
    {
      this.config, this.disk := config, disk;
      var nodes := if readable && disk.path.Holds? then disk.path.content else [];
      var filled: Table := map[];
      for i := 0 to |nodes|
        invariant filled == Rebuild(nodes[..i])
      {
        filled := filled[nodes[i].nodeID := nodes[i]];
        assert nodes[..i + 1][..i] == nodes[..i];
      }
      assert nodes[..|nodes|] == nodes;
      RebuildWellKeyed(nodes);
      AllEntered(nodes);
      store := filled;
    }

    /** Takes the listing and saves it. */
    method SaveLocked(fault: Fault) returns (ok: bool)
      requires Valid()
      modifies disk
      ensures ok <==> fault.Fine?
      ensures if ok then Saved() else disk.path == old(disk.path)
    {
      var nodes := SortedNodesLocked(store);
      ok := disk.WriteJSONAtomic(nodes, fault);
    }

    /** A refused registration changes nothing; an accepted one is in memory, stamped, and nothing else is changed;
        and it is answered 200 exactly when it is also in the file. */
    method HandleRegister(verb: string, header: string, body: Option<Node>, now: Bytes, fault: Fault)
      returns (status: nat)
      requires Valid()
      modifies this, disk
      ensures Valid()
      ensures var known := BearerToken(header) != "" && BearerToken(header) in config.registerTokens;
              if verb == "POST" && known && body.Some? && ValidNode(body.value) then
                && store == old(store)[body.value.nodeID := body.value.(updatedAt := now)]
                && status == (if fault.Fine? then 200 else 500)
                && if fault.Fine? then Saved() else disk.path == old(disk.path)
              else
                && store == old(store) && disk.path == old(disk.path)
                && status == if verb != "POST" then 405 else if !known then 401 else 400
      ensures fault.Fine? ==>
              (store, status) == Serve(config, old(store), Register(verb, Same(header), Same(body), now))
    {
      if verb != "POST" { return 405; }
      var allowed := Contains(config.registerTokens, BearerToken(header));
      if !allowed { return 401; }
      if body == None { return 400; }
      var node := body.value;
      if GoProblem(node) != None { return 400; }
      node := node.(updatedAt := now);
      store := store[node.nodeID := node];
      var ok := SaveLocked(fault);
      return if ok then 200 else 500;
    }

    /** An unknown node is reported without a save; a known one is gone from memory, and from the file when answered
        200. */
    method HandleAPINode(verb: string, header: string, pathID: Option<string>, fault: Fault) returns (status: nat)
      requires Valid()
      modifies this, disk
      ensures Valid()
      ensures var known := BearerToken(header) != "" && BearerToken(header) in config.registerTokens;
              if verb == "DELETE" && known && pathID.Some? && NodeIDPattern(pathID.value) && pathID.value in old(store)
              then
                && store == old(store) - {pathID.value}
                && status == (if fault.Fine? then 200 else 500)
                && if fault.Fine? then Saved() else disk.path == old(disk.path)
              else
                && store == old(store) && disk.path == old(disk.path)
                && status == if verb != "DELETE" then 405 else if !known then 401
                             else if pathID == None || !NodeIDPattern(pathID.value) then 400 else 404
      ensures fault.Fine? ==> (store, status) == Serve(config, old(store), Delete(verb, Same(header), Same(pathID)))
    {
      if verb != "DELETE" { return 405; }
      var allowed := Contains(config.registerTokens, BearerToken(header));
      if !allowed { return 401; }
      if pathID == None || !NodeIDPattern(pathID.value) { return 400; }
      if pathID.value !in store { return 404; }
      store := store - {pathID.value};
      var ok := SaveLocked(fault);
      return if ok then 200 else 500;
    }

    /** One summary for every stored node, in the order of the ids. */
    method HandleAPINodes(verb: string, header: string) returns (status: nat, out: seq<Summary>)
      requires Valid()
      ensures verb != "GET" ==> status == 405
      ensures var known := BearerToken(header) != "" && BearerToken(header) in config.registerTokens;
              verb == "GET" ==> status == if known then 200 else 401
      ensures status == Serve(config, store, ListNodes(verb, Same(header))).1
      ensures status != 200 ==> out == []
      ensures status == 200 ==> |out| == |store|
      ensures status == 200 ==> forall i, j :: 0 <= i < j < |out| ==> Precedes(out[i].nodeID, out[j].nodeID)
      ensures status == 200 ==>
                forall i :: 0 <= i < |out| ==>
                  out[i].nodeID in store && Summarises(out[i], store[out[i].nodeID])
      ensures status == 200 ==> forall id :: id in store ==> exists i :: 0 <= i < |out| && out[i].nodeID == id
    {
      out := [];
      if verb != "GET" { return 405, out; }
      var allowed := Contains(config.registerTokens, BearerToken(header));
      if !allowed { return 401, out; }
      var nodes := SortedNodesLocked(store);
      hide Precedes, SameEntries, IsListing;
      for i := 0 to |nodes|
        invariant |out| == i && forall k :: 0 <= k < i ==> Summarises(out[k], nodes[k])
      {
        var item := SummaryOf(nodes[i]);
        out := out + [item];
      }
      SummariesListed(out, nodes, store);
      return 200, out;
    }

    /** A subscription is printed from the one sorted listing of the map. */
    method HandleSub(verb: string, token: string, format: string) returns (status: nat, body: Option<Body>)
      requires Valid()
      ensures verb != "GET" ==> status == 405
      ensures verb == "GET" && !(token != "" && token in config.subscribeTokens) ==> status == 401
      ensures verb == "GET" && token != "" && token in config.subscribeTokens
              ==> status == if GoQueryFormat(format).Some? then 200 else 400
      ensures status == Serve(config, store, Subscribe(verb, token, format)).1
      ensures body.Some? <==> status == 200
      ensures body.Some? ==> GoQueryFormat(format).Some?
      ensures forall ns :: body.Some? && IsListing(ns, store)
                           ==> body.value == GoBody(GoQueryFormat(format).value, Proxies(ns))
    {
      body := None;
      if verb != "GET" { return 405, None; }
      var allowed := Contains(config.subscribeTokens, token);
      if !allowed { return 401, None; }
      var name := TrimSpace(Go, format);
      if name == "" { name := "shadowrocket"; }
      var nodes := SortedNodesLocked(store);
      body := GoRenderSubscription(name, nodes);
      status := if body == None then 400 else 200;
    }
  }

  /** A process started on the file of one whose last write was answered 200 knows exactly what that one knew. */
  method Restart(server: RegistryServer) returns (successor: RegistryServer)
    requires server.Valid() && server.Saved()
    ensures fresh(successor) && successor.Valid() && successor.Saved()
    ensures successor.store == server.store && successor.config == server.config && successor.disk == server.disk
  {
    RebuildListing(server.disk.path.content, server.store);
    successor := new RegistryServer(server.config, server.disk, true);
  }
}
