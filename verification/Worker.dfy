/** The Worker's request handlers over its node table. */
module Worker {
  import opened Text
  import opened FormatNames
  import opened Nodes
  import opened Order
  import opened Validators
  import opened Admission
  import opened Subscription
  import D1 = Database

  /** The enabled tokens of each kind, and the admin secret, empty when there is none. */
  datatype Tokens = Tokens(register: set<string>, subscribe: set<string>, admin: string)

  function WorkerBearerToken(header: string): string {
    match Expect("Bearer ", header)
    case None => ""
    case Some(rest) => TrimSpace(Js, rest)
  }

  predicate Enabled(tokens: set<string>, token: string) {
    token != "" && token in tokens
  }

  predicate IsAdmin(tokens: Tokens, token: string) {
    tokens.admin != "" && token == tokens.admin
  }

  /** A register token or the admin secret. */
  predicate MayManage(tokens: Tokens, header: string) {
    Enabled(tokens.register, WorkerBearerToken(header)) || IsAdmin(tokens, WorkerBearerToken(header))
  }

  /** Nobody manages nodes without a token. */
  lemma MayManageMeaning(tokens: Tokens, header: string)
    ensures MayManage(tokens, header) <==>
            var token := WorkerBearerToken(header); token != "" && (token in tokens.register || token == tokens.admin)
  {
  }

  /** The token is what follows `Bearer ` at the very start of the header, trimmed. */
  lemma WorkerBearerMeaning(header: string)
    ensures WorkerBearerToken(header) != "" ==> |header| > 7 && header[..7] == "Bearer "
    ensures |header| >= 7 && header[..7] == "Bearer " ==> WorkerBearerToken(header) == TrimSpace(Js, header[7..])
  {
    hide TrimSpace;
    NothingTrimmed(Js);
    assert |"Bearer "| == 7;
    assert "Bearer " <= header <==> |header| >= 7 && header[..7] == "Bearer ";
    if |header| == 7 { assert header[7..] == ""; }
  }

  /** What a subscription request is answered with; None where the printer throws. */
  function Printed(format: string, rows: seq<D1.Row>): Option<Body> {
    var name :- WorkerFormat(format);
    WorkerBody(name, Proxies(D1.Listing(rows)))
  }

  /** What a request comes to once its method, token and contents are checked. */
  datatype Task =
    | Answer(status: nat)
    | Storing(node: Node)
    | Removing(id: string)
    | Listing
    | Printing(format: string)

  /** A body or an id that does not decode raises an exception, which the Worker answers with 500. */
  function Assign(tokens: Tokens, request: Request): Task {
    match request
    case Register(verb, header, body, _) =>
      if verb != "POST" then Answer(405)
      else if !Enabled(tokens.register, WorkerBearerToken(header.worker)) then Answer(401)
      else if body.worker == None then Answer(500)
      else if !WorkerAccepts(body.worker.value) then Answer(400)
      else Storing(body.worker.value)
    case Delete(verb, header, pathID) =>
      if verb != "DELETE" then Answer(405)
      else if !MayManage(tokens, header.worker) then Answer(401)
      else if pathID.worker == None then Answer(500)
      else if !NodeIDPattern(pathID.worker.value) then Answer(400)
      else Removing(pathID.worker.value)
    case ListNodes(verb, header) =>
      if verb != "GET" then Answer(405) else if !MayManage(tokens, header.worker) then Answer(401) else Listing
    case Subscribe(verb, token, format) =>
      if verb != "GET" then Answer(405) else if !Enabled(tokens.subscribe, token) then Answer(401) else Printing(format)
  }

  /** One request served to its end: the table after it and the HTTP status. An exception raised by printing is answered
      with 400. */
  function WorkerServe(tokens: Tokens, rows: seq<D1.Row>, request: Request, at: Bytes): (seq<D1.Row>, nat) {
    match Assign(tokens, request)
    case Answer(status) => (rows, status)
    case Storing(node) => (D1.Execute(rows, D1.Upsert(node, at)), 200)
    case Removing(id) => if D1.Lookup(rows, id) == None then (rows, 404) else (D1.Execute(rows, D1.Delete(id)), 200)
    case Listing => (rows, 200)
    case Printing(format) => (rows, if Printed(format, rows) == None then 400 else 200)
  }

  method HandleRegister(db: D1.Table, tokens: Tokens, verb: string, header: string, body: Option<Node>, now: Bytes)
    returns (status: nat)
    requires db.Valid()
    modifies db
    ensures db.Valid()
    ensures var known := WorkerBearerToken(header) != "" && WorkerBearerToken(header) in tokens.register;
            status == if verb != "POST" then 405 else if !known then 401 else if body == None then 500
                      else if WorkerAccepts(body.value) then 200 else 400
    ensures (db.rows, status) == WorkerServe(tokens, old(db.rows), Register(verb, Same(header), Same(body), now), now)
    ensures status != 200 ==> db.rows == old(db.rows)
    ensures forall id :: status == 200 && id != body.value.nodeID ==>
              D1.Lookup(db.rows, id) == D1.Lookup(old(db.rows), id)
    ensures status == 200 ==> D1.Lookup(db.rows, body.value.nodeID).Some?
    ensures status == 200 ==> D1.NodeOf(D1.Lookup(db.rows, body.value.nodeID).value) == body.value.(updatedAt := now)
  {
    if verb != "POST" { return 405; }
    if !Enabled(tokens.register, WorkerBearerToken(header)) { return 401; }
    if body == None { return 500; }
    if WorkerProblem(body.value) != None { return 400; }
    db.UpsertNode(body.value, now);
    return 200;
  }

  method HandleApiNode(db: D1.Table, tokens: Tokens, verb: string, header: string, pathID: Option<string>)
    returns (status: nat)
    requires db.Valid()
    modifies db
    ensures db.Valid()
    ensures status == if verb != "DELETE" then 405 else if !MayManage(tokens, header) then 401
                      else if pathID == None then 500 else if !NodeIDPattern(pathID.value) then 400
                      else if D1.Lookup(old(db.rows), pathID.value) == None then 404 else 200
    ensures (db.rows, status) == WorkerServe(tokens, old(db.rows), Delete(verb, Same(header), Same(pathID)), "")
    ensures status != 200 ==> db.rows == old(db.rows)
    ensures forall id :: status == 200 ==>
              D1.Lookup(db.rows, id) == if id == pathID.value then None else D1.Lookup(old(db.rows), id)
  {
    if verb != "DELETE" { return 405; }
    if !MayManage(tokens, header) { return 401; }
    if pathID == None { return 500; }
    if !NodeIDPattern(pathID.value) { return 400; }
    var deleted := db.DeleteNode(pathID.value);
    return if deleted then 200 else 404;
  }

  method HandleApiNodes(db: D1.Table, tokens: Tokens, verb: string, header: string)
    returns (status: nat, out: seq<Summary>)
    requires db.Valid()
    ensures status == if verb != "GET" then 405 else if !MayManage(tokens, header) then 401 else 200
    ensures status == WorkerServe(tokens, db.rows, ListNodes(verb, Same(header)), "").1
    ensures status != 200 ==> out == []
    ensures status == 200 ==> |out| == |db.rows|
    ensures status == 200 ==> forall i, j :: 0 <= i < j < |out| ==> Precedes(out[i].nodeID, out[j].nodeID)
    ensures status == 200 ==>
              forall row :: row in db.rows ==> exists i :: 0 <= i < |out| && Summarises(out[i], D1.NodeOf(row))
  {
    out := [];
    if verb != "GET" { return 405, out; }
    if !MayManage(tokens, header) { return 401, out; }
    var nodes := db.ListNodes();
    hide Precedes, SameEntries, WorkerServe;
    for i := 0 to |nodes|
      invariant |out| == i && forall k :: 0 <= k < i ==> Summarises(out[k], nodes[k])
    {
      var item := SummaryOf(nodes[i]);
      out := out + [item];
    }
    RowsSummarised(db.rows, nodes, out);
    status := 200;
    ListingServed(tokens, db.rows, verb, header);
  }

  lemma ListingServed(tokens: Tokens, rows: seq<D1.Row>, verb: string, header: string)
    requires verb == "GET" && MayManage(tokens, header)
    ensures WorkerServe(tokens, rows, ListNodes(verb, Same(header)), "").1 == 200
  {
  }

  lemma RowsSummarised(rows: seq<D1.Row>, nodes: seq<Node>, out: seq<Summary>)
    requires |out| == |nodes| && forall k :: 0 <= k < |out| ==> Summarises(out[k], nodes[k])
    requires forall i, j :: 0 <= i < j < |nodes| ==> Precedes(nodes[i].nodeID, nodes[j].nodeID)
    requires forall row :: row in rows ==> exists i :: 0 <= i < |nodes| && D1.Shows(nodes[i], row)
    ensures forall i, j :: 0 <= i < j < |out| ==> Precedes(out[i].nodeID, out[j].nodeID)
    ensures forall row :: row in rows ==> exists i :: 0 <= i < |out| && Summarises(out[i], D1.NodeOf(row))
  {
    hide Precedes, SameEntries;
    forall row | row in rows ensures exists i :: 0 <= i < |out| && Summarises(out[i], D1.NodeOf(row)) {
      var i :| 0 <= i < |nodes| && D1.Shows(nodes[i], row);
      assert Summarises(out[i], D1.NodeOf(row));
    }
  }

  /** Leaving the format out is naming the default one. */
  lemma DefaultFormat(parameter: string)
    ensures WorkerFormat(if parameter != "" then parameter else "shadowrocket") == WorkerFormat(parameter)
  {
  }

  method PrintListing(db: D1.Table, parameter: string) returns (body: Option<Body>)
    requires db.Valid()
    ensures body == Printed(parameter, db.rows)
  {
    var format := if parameter != "" then parameter else "shadowrocket";
    var nodes := db.ListNodes();
    body := WorkerRenderSubscription(format, nodes);
    DefaultFormat(parameter);
  }

  lemma PrintedIs(format: string, rows: seq<D1.Row>)
    ensures Printed(format, rows) ==
            match WorkerFormat(format)
            case None => None
            case Some(name) => WorkerBody(name, Proxies(D1.Listing(rows)))
  {
    hide WorkerBody;
  }

  method HandleSub(db: D1.Table, tokens: Tokens, verb: string, token: string, parameter: string)
    returns (status: nat, body: Option<Body>)
    requires db.Valid()
    ensures verb != "GET" ==> status == 405 && body == None
    ensures verb == "GET" && !(token != "" && token in tokens.subscribe) ==> status == 401 && body == None
    ensures verb == "GET" && token != "" && token in tokens.subscribe ==> status == if body.Some? then 200 else 400
    ensures verb == "GET" && token != "" && token in tokens.subscribe ==>
              body == match WorkerFormat(parameter)
                      case None => None
                      case Some(format) => WorkerBody(format, Proxies(D1.Listing(db.rows)))
    ensures status == WorkerServe(tokens, db.rows, Subscribe(verb, token, parameter), "").1
  {
    PrintedIs(parameter, db.rows);
    hide Printed;
    if verb != "GET" { return 405, None; }
    if !Enabled(tokens.subscribe, token) { return 401, None; }
    body := PrintListing(db, parameter);
    status := if body == None then 400 else 200;
  }
}
