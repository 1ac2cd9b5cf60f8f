/** The Worker simulates the Go registry: the same requests, the same answers, the same listing. */
module Simulation {
  import opened Text
  import opened FormatNames
  import opened Nodes
  import opened Validators
  import opened Order
  import opened Store
  import opened Admission
  import opened Links
  import opened Formats
  import opened Subscription
  import opened Worker
  import D1 = Database

  // ----- two runs of the same requests -----

  /** A request and the Worker's clock when it is served; Go's clock reading is in the request. */
  datatype Event = Event(request: Request, at: Bytes)

  /** The state and the statuses after a sequence of events. */
  function Serial<S, E>(step: (S, E) -> (S, nat), start: S, events: seq<E>): (S, seq<nat>) {
    if events == [] then (start, [])
    else
      var (before, statuses) := Serial(step, start, events[..|events| - 1]);
      var (after, status) := step(before, events[|events| - 1]);
      (after, statuses + [status])
  }

  function GoStep(config: Config): (Table, Event) -> (Table, nat) {
    (store: Table, e: Event) => Serve(config, store, e.request)
  }

  function WorkerStep(tokens: Tokens): (seq<D1.Row>, Event) -> (seq<D1.Row>, nat) {
    (rows: seq<D1.Row>, e: Event) => WorkerServe(tokens, rows, e.request, e.at)
  }

  function GoRun(config: Config, events: seq<Event>): (Table, seq<nat>) {
    Serial(GoStep(config), map[], events)
  }

  function WorkerRun(tokens: Tokens, events: seq<Event>): (seq<D1.Row>, seq<nat>) {
    Serial(WorkerStep(tokens), [], events)
  }

  // ----- what the two have in common -----

  /** A node without its time stamp. */
  function Erase(n: Node): Node { n.(updatedAt := "") }

  predicate SameNode(store: Table, rows: seq<D1.Row>, id: string) {
    match D1.Lookup(rows, id)
    case None => id !in store
    case Some(row) => id in store && Erase(store[id]) == Erase(D1.NodeOf(row))
  }

  /** Map and table hold the same nodes, time stamps aside. */
  ghost predicate SameNodes(store: Table, rows: seq<D1.Row>) {
    WellKeyed(store) && DistinctKeys(rows, D1.RowKey) && forall id :: SameNode(store, rows, id)
  }

  ghost predicate SameTokens(config: Config, tokens: Tokens) {
    (forall t :: t in tokens.register <==> t in config.registerTokens) &&
    (forall t :: t in tokens.subscribe <==> t in config.subscribeTokens)
  }

  /** Go's map is valid, and the Worker's table holds the same nodes. */
  ghost predicate Matched(store: Table, rows: seq<D1.Row>) {
    ValidTable(store) && SameNodes(store, rows)
  }

  predicate Authorised(config: Config, header: string) {
    Known(config.registerTokens, BearerToken(header))
  }

  predicate GoTakes(body: Both<Option<Node>>) { body.go.Some? && ValidNode(body.go.value) }

  predicate WorkerTakes(body: Both<Option<Node>>) { body.worker.Some? && WorkerAccepts(body.worker.value) }

  /** The map holds this node already, its time stamp aside. */
  predicate Stored(store: Table, node: Node) {
    node.nodeID in store && Erase(store[node.nodeID]) == Erase(node)
  }

  /** Storing the one node or the other comes to the same: they are the same, or both are stored already. */
  predicate SameEffect(store: Table, mine: Node, theirs: Node) {
    Erase(mine) == Erase(theirs) || (Stored(store, mine) && Stored(store, theirs))
  }

  /** The Worker decodes the body, both sides take the node or refuse it, and storing theirs comes to the same. */
  predicate BodyAgreed(store: Table, body: Both<Option<Node>>) {
    && body.worker.Some? && (GoTakes(body) <==> WorkerTakes(body))
    && (GoTakes(body) ==> SameEffect(store, body.go.value, body.worker.value))
  }

  predicate IsID(pathID: Option<string>) { pathID.Some? && NodeIDPattern(pathID.value) }

  /** The Worker decodes the id, it is well-formed on both sides or neither, and both find the one node or none. */
  predicate PathAgreed(store: Table, pathID: Both<Option<string>>) {
    && pathID.worker.Some? && (IsID(pathID.go) <==> IsID(pathID.worker))
    && (IsID(pathID.go) ==>
          && (pathID.go.value in store <==> pathID.worker.value in store)
          && (pathID.go.value in store ==> pathID.go == pathID.worker))
  }

  /** Every stored shadowsocks secret can be encoded by the Worker. */
  predicate StoredEncodable(store: Table) {
    forall id :: id in store ==> NodeEncodable(store[id])
  }

  predicate NodeEncodable(node: Node) {
    forall i :: 0 <= i < |node.protocols| ==>
      (node.protocols[i].kind == "shadowsocks" ==> Encodable(ShadowsocksOf(node, node.protocols[i])))
  }

  /** A format Go does not know, or one named without white space around it and without a dotted capital I that the
      Worker can print for these nodes. */
  predicate FormatAgreed(store: Table, parameter: string) {
    match GoQueryFormat(parameter)
    case None => true
    case Some(format) =>
      TrimSpace(Go, parameter) == parameter && !HasDottedI(parameter) &&
      (format.LinksFormat? || format.Base64Format? ==> StoredEncodable(store))
  }

  /** The requests both registries answer alike, given what is stored. */
  predicate Compatible(config: Config, tokens: Tokens, store: Table, request: Request) {
    match request
    case Register(verb, header, body, _) =>
      verb == "POST" ==>
        && (Authorised(config, header.go) <==> Enabled(tokens.register, WorkerBearerToken(header.worker)))
        && (Authorised(config, header.go) ==> BodyAgreed(store, body))
    case Delete(verb, header, pathID) =>
      verb == "DELETE" ==>
        && (Authorised(config, header.go) <==> MayManage(tokens, header.worker))
        && (Authorised(config, header.go) ==> PathAgreed(store, pathID))
    case ListNodes(verb, header) =>
      verb == "GET" ==> (Authorised(config, header.go) <==> MayManage(tokens, header.worker))
    case Subscribe(verb, token, format) =>
      verb == "GET" && Known(config.subscribeTokens, token) ==> FormatAgreed(store, format)
  }

  /** Where both sides decode a body or an id, they decode the same. */
  predicate SameDecoded(request: Request) {
    match request
    case Register(_, _, body, _) => body.go.Some? && body.worker.Some? ==> body.go == body.worker
    case Delete(_, _, pathID) => pathID.go.Some? && pathID.worker.Some? ==> pathID.go == pathID.worker
    case _ => true
  }

  // ----- a request in plain terms -----

  lemma BearerAgree(header: string)
    requires IsAscii(header)
    ensures WorkerBearerToken(header) == BearerToken(header)
  {
    if Expect("Bearer ", header).Some? { TrimAgree(Expect("Bearer ", header).value); }
  }

  /** With the same tokens enabled, the two agree on an ASCII header unless it holds the admin secret. */
  lemma HeaderAgreed(config: Config, tokens: Tokens, header: string)
    requires SameTokens(config, tokens) && IsAscii(header)
    ensures Authorised(config, header) <==> Enabled(tokens.register, WorkerBearerToken(header))
    ensures (Authorised(config, header) <==> MayManage(tokens, header)) <==>
            Authorised(config, header) || !IsAdmin(tokens, BearerToken(header))
  {
    BearerAgree(header);
  }

  /** A body both decode alike is agreed exactly when the two validators do not part on it. */
  lemma SameBodyAgreed(store: Table, node: Node)
    ensures BodyAgreed(store, Same(Some(node))) <==> !Disputed(node)
  {
    NodeAgreement(node);
  }

  lemma RemoveSame(store: Table, rows: seq<D1.Row>, gone: string)
    requires SameNodes(store, rows)
    ensures SameNodes(Apply(store, Remove(gone)), D1.Execute(rows, D1.Delete(gone)))
  {
    D1.DeleteDistinct(rows, gone);
    forall id ensures SameNode(Apply(store, Remove(gone)), D1.DeleteRows(rows, gone), id) {
      assert SameNode(store, rows, id);
      D1.LookupDelete(rows, gone, id);
    }
  }

  /** In matched states one step gives equal statuses and matched states exactly when the request is compatible; and
      where the two decode alike, equal statuses are enough. */
  ghost predicate StepAgrees(config: Config, tokens: Tokens, store: Table, rows: seq<D1.Row>, request: Request,
                             at: Bytes)
  {
    AnswersAlike(Serve(config, store, request), WorkerServe(tokens, rows, request, at),
                 Compatible(config, tokens, store, request), SameDecoded(request))
  }

  ghost predicate AnswersAlike(mine: (Table, nat), theirs: (seq<D1.Row>, nat), compatible: bool, same: bool) {
    (mine.1 == theirs.1 && Matched(mine.0, theirs.0) <==> compatible) && (same ==> (mine.1 == theirs.1 <==> compatible))
  }

  lemma UpsertErased(rows: seq<D1.Row>, node: Node, at: Bytes, id: string)
    ensures D1.Lookup(D1.Execute(rows, D1.Upsert(node, at)), id).Some? <==>
            id == node.nodeID || D1.Lookup(rows, id).Some?
    ensures id == node.nodeID ==>
            Erase(D1.NodeOf(D1.Lookup(D1.Execute(rows, D1.Upsert(node, at)), id).value)) == Erase(node)
    ensures id != node.nodeID ==> D1.Lookup(D1.Execute(rows, D1.Upsert(node, at)), id) == D1.Lookup(rows, id)
  {
    D1.LookupUpsert(rows, D1.Inserted(node, at), id);
    D1.SameKey(rows, id);
  }

  /** Whether the states match at one id after storing two nodes. */
  predicate MatchesAt(store: Table, mine: Node, theirs: Node, id: string) {
    if id == mine.nodeID && id == theirs.nodeID then Erase(mine) == Erase(theirs)
    else (id == mine.nodeID ==> Stored(store, mine)) && (id == theirs.nodeID ==> Stored(store, theirs))
  }

  lemma StoresMatchAt(store: Table, rows: seq<D1.Row>, mine: Node, theirs: Node, now: Bytes, at: Bytes, id: string)
    requires SameNode(store, rows, id)
    ensures SameNode(Apply(store, Put(mine.(updatedAt := now))), D1.Execute(rows, D1.Upsert(theirs, at)), id) <==>
            MatchesAt(store, mine, theirs, id)
  {
    hide D1.Execute;
    UpsertErased(rows, theirs, at, id);
  }

  /** After storing two nodes the states match exactly when storing them comes to the same. */
  lemma StoresMatch(store: Table, rows: seq<D1.Row>, mine: Node, theirs: Node, now: Bytes, at: Bytes)
    requires Matched(store, rows) && ValidNode(mine)
    ensures Matched(Apply(store, Put(mine.(updatedAt := now))), D1.Execute(rows, D1.Upsert(theirs, at))) <==>
            SameEffect(store, mine, theirs)
  {
    hide D1.Execute, ValidNode, SameNode, Erase, DistinctKeys;
    var store', rows' := Apply(store, Put(mine.(updatedAt := now))), D1.Execute(rows, D1.Upsert(theirs, at));
    StampedValid(mine, now);
    D1.ExecuteDistinct(rows, D1.Upsert(theirs, at));
    forall id ensures SameNode(store', rows', id) <==> MatchesAt(store, mine, theirs, id) {
      StoresMatchAt(store, rows, mine, theirs, now, at, id);
    }
    EffectAt(store, mine, theirs);
  }

  lemma StampedValid(node: Node, now: Bytes)
    requires ValidNode(node)
    ensures ValidNode(node.(updatedAt := now))
  {
    StampKeepsVerdict(node, now);
  }

  lemma EffectAt(store: Table, mine: Node, theirs: Node)
    ensures SameEffect(store, mine, theirs) <==>
            MatchesAt(store, mine, theirs, mine.nodeID) && MatchesAt(store, mine, theirs, theirs.nodeID)
  {
  }

  lemma SameIsSame(store: Table, node: Node)
    ensures SameEffect(store, node, node)
  {
  }

  lemma RegisterSame(config: Config, tokens: Tokens, store: Table, rows: seq<D1.Row>, verb: string,
                     header: Both<string>, body: Both<Option<Node>>, now: Bytes, at: Bytes)
    requires Matched(store, rows)
    ensures StepAgrees(config, tokens, store, rows, Register(verb, header, body, now), at)
  {
    hide Matched, Apply, D1.Execute, GoProblem, WorkerProblem, BearerToken, WorkerBearerToken, SameEffect, Known,
         Enabled;
    if GoTakes(body) && WorkerTakes(body) {
      StoresMatch(store, rows, body.go.value, body.worker.value, now, at);
      SameIsSame(store, body.go.value);
    }
  }

  lemma FoundAlike(store: Table, rows: seq<D1.Row>, id: string)
    requires Matched(store, rows)
    ensures D1.Lookup(rows, id).Some? <==> id in store
  {
    assert SameNode(store, rows, id);
  }

  lemma RemoveMatched(store: Table, rows: seq<D1.Row>, id: string)
    requires Matched(store, rows)
    ensures Matched(Apply(store, Remove(id)), D1.Execute(rows, D1.Delete(id)))
  {
    RemoveSame(store, rows, id);
  }

  /** Deleting two different nodes does not match. */
  lemma RemovesPart(store: Table, rows: seq<D1.Row>, mine: string, theirs: string)
    requires Matched(store, rows) && mine in store && mine != theirs
    ensures !Matched(Apply(store, Remove(mine)), D1.Execute(rows, D1.Delete(theirs)))
  {
    var store', rows' := Apply(store, Remove(mine)), D1.Execute(rows, D1.Delete(theirs));
    FoundAlike(store, rows, mine);
    D1.LookupDelete(rows, theirs, mine);
    assert !SameNode(store', rows', mine);
  }

  lemma DeleteSame(config: Config, tokens: Tokens, store: Table, rows: seq<D1.Row>, verb: string, header: Both<string>,
                   pathID: Both<Option<string>>, at: Bytes)
    requires Matched(store, rows)
    ensures StepAgrees(config, tokens, store, rows, Delete(verb, header, pathID), at)
  {
    hide Matched, Apply, D1.Execute, D1.Lookup, NodeIDPattern, BearerToken, WorkerBearerToken, Known, MayManage;
    if IsID(pathID.go) && IsID(pathID.worker) {
      var mine, theirs := pathID.go.value, pathID.worker.value;
      FoundAlike(store, rows, mine);
      FoundAlike(store, rows, theirs);
      RemoveMatched(store, rows, mine);
      if mine in store && mine != theirs { RemovesPart(store, rows, mine, theirs); }
    }
  }

  lemma ListSame(config: Config, tokens: Tokens, store: Table, rows: seq<D1.Row>, verb: string, header: Both<string>,
                 at: Bytes)
    requires Matched(store, rows)
    ensures StepAgrees(config, tokens, store, rows, ListNodes(verb, header), at)
  {
    hide Matched, BearerToken, WorkerBearerToken, Known, MayManage;
  }

  // ----- subscriptions -----

  /** The stored node a row stands for. */
  lemma RowStored(store: Table, rows: seq<D1.Row>, n: Node)
    requires Matched(store, rows) && n in D1.Listing(rows)
    ensures n.nodeID in store && Erase(store[n.nodeID]) == Erase(n) && ValidNode(n)
  {
    WorkerListed(rows, n);
    assert SameNode(store, rows, n.nodeID);
    var m := store[n.nodeID];
    StampKeepsVerdict(m, "");
    StampKeepsVerdict(n, "");
  }

  lemma ListedHosts(store: Table, rows: seq<D1.Row>)
    requires Matched(store, rows)
    ensures LinkHosts(Proxies(D1.Listing(rows)))
  {
    var nodes := D1.Listing(rows);
    forall i | 0 <= i < |nodes| ensures ValidNode(nodes[i]) { RowStored(store, rows, nodes[i]); }
    ValidHosts(nodes);
  }

  lemma EncodedByNode(n: Node, p: Protocol, x: ByteProxy)
    requires NodeEncodable(n) && p in n.protocols && x in ProxyOf(n, p)
    ensures Encodable(x)
  {
    var i :| 0 <= i < |n.protocols| && n.protocols[i] == p;
  }

  lemma ErasedEncodable(a: Node, b: Node)
    requires Erase(a) == Erase(b)
    ensures NodeEncodable(a) <==> NodeEncodable(b)
  {
    assert a.protocols == b.protocols;
    forall i | 0 <= i < |a.protocols|
      ensures Encodable(ShadowsocksOf(a, a.protocols[i])) == Encodable(ShadowsocksOf(b, a.protocols[i]))
    {
    }
  }

  /** The Worker can encode what it lists exactly when Go stores nothing it could not. */
  lemma EncodableStored(store: Table, rows: seq<D1.Row>)
    requires Matched(store, rows) && StoredEncodable(store)
    ensures AllEncodable(Proxies(D1.Listing(rows)))
  {
    var nodes := D1.Listing(rows);
    forall i | 0 <= i < |Proxies(nodes)| ensures Encodable(Proxies(nodes)[i]) {
      var x := Proxies(nodes)[i];
      ProxySource(nodes, x);
      var n, p :| n in nodes && p in n.protocols && x in ProxyOf(n, p);
      RowStored(store, rows, n);
      ErasedEncodable(n, store[n.nodeID]);
      EncodedByNode(n, p, x);
    }
  }

  lemma StoredListed(store: Table, rows: seq<D1.Row>, id: string) returns (n: Node)
    requires Matched(store, rows) && id in store
    ensures n in D1.Listing(rows) && Erase(n) == Erase(store[id])
  {
    assert SameNode(store, rows, id);
    n := D1.NodeOf(D1.Lookup(rows, id).value);
    D1.SameKey(rows, id);
    WorkerListed(rows, n);
  }

  lemma EncodableListed(store: Table, rows: seq<D1.Row>)
    requires Matched(store, rows) && AllEncodable(Proxies(D1.Listing(rows)))
    ensures StoredEncodable(store)
  {
    var nodes := D1.Listing(rows);
    forall id | id in store ensures NodeEncodable(store[id]) {
      var n := StoredListed(store, rows, id);
      forall i | 0 <= i < |n.protocols| && n.protocols[i].kind == "shadowsocks"
        ensures Encodable(ShadowsocksOf(n, n.protocols[i]))
      {
        ProxyListed(nodes, n, n.protocols[i], ShadowsocksOf(n, n.protocols[i]));
        var k :| 0 <= k < |Proxies(nodes)| && Proxies(nodes)[k] == ShadowsocksOf(n, n.protocols[i]);
      }
      ErasedEncodable(n, store[id]);
    }
  }

  /** The Worker prints a subscription exactly when it knows the format and can encode what Go stores. */
  lemma PrintedWhen(store: Table, rows: seq<D1.Row>, parameter: string)
    requires Matched(store, rows)
    ensures Printed(parameter, rows).Some? <==>
            match WorkerFormat(parameter)
            case None => false
            case Some(format) => format.LinksFormat? || format.Base64Format? ==> StoredEncodable(store)
  {
    var xs := Proxies(D1.Listing(rows));
    ListedHosts(store, rows);
    ProxiesSuffixed(D1.Listing(rows));
    if WorkerFormat(parameter).Some? { SubscriptionsAgree(WorkerFormat(parameter).value, xs); }
    if StoredEncodable(store) { EncodableStored(store, rows); }
    if AllEncodable(xs) { EncodableListed(store, rows); }
  }

  /** So on matched states the two answer a subscription alike exactly when its format is agreed. */
  lemma PrintedLikeGo(store: Table, rows: seq<D1.Row>, parameter: string)
    requires Matched(store, rows)
    ensures (Printed(parameter, rows).Some? <==> GoQueryFormat(parameter).Some?) <==> FormatAgreed(store, parameter)
  {
    hide Printed, GoQueryFormat, TrimSpace, HasDottedI, StoredEncodable, WorkerFormat, Matched;
    PrintedWhen(store, rows, parameter);
    FormatsRecognised(parameter);
  }

  lemma SubscribersAgree(config: Config, tokens: Tokens, token: string)
    requires SameTokens(config, tokens)
    ensures Enabled(tokens.subscribe, token) <==> Known(config.subscribeTokens, token)
  {
  }

  lemma SubscribeSame(config: Config, tokens: Tokens, store: Table, rows: seq<D1.Row>, verb: string, token: string,
                      format: string, at: Bytes)
    requires SameTokens(config, tokens) && Matched(store, rows)
    ensures StepAgrees(config, tokens, store, rows, Subscribe(verb, token, format), at)
  {
    hide Matched, FormatAgreed, GoQueryFormat, Printed, Known, Enabled, SameTokens;
    SubscribersAgree(config, tokens, token);
    PrintedLikeGo(store, rows, format);
  }

  lemma StepSame(config: Config, tokens: Tokens, store: Table, rows: seq<D1.Row>, request: Request, at: Bytes)
    requires SameTokens(config, tokens) && Matched(store, rows)
    ensures StepAgrees(config, tokens, store, rows, request, at)
  {
    hide *;
    match request
    case Register(verb, header, body, now) => RegisterSame(config, tokens, store, rows, verb, header, body, now, at);
    case Delete(verb, header, pathID) => DeleteSame(config, tokens, store, rows, verb, header, pathID, at);
    case ListNodes(verb, header) => ListSame(config, tokens, store, rows, verb, header, at);
    case Subscribe(verb, token, format) => SubscribeSame(config, tokens, store, rows, verb, token, format, at);
  }

  // ----- the simulation -----

  /** In related states, the two steps give equal statuses and related states for exactly the compatible events; for
      clear events, equal statuses are enough. */
  ghost predicate StepsAgree<A(!new), B(!new), E(!new)>(f: (A, E) -> (A, nat), g: (B, E) -> (B, nat),
      related: (A, B) -> bool, clear: E -> bool, compatible: (A, E) -> bool)
  {
    forall a, b, e :: related(a, b) ==>
      && (f(a, e).1 == g(b, e).1 && related(f(a, e).0, g(b, e).0) <==> compatible(a, e))
      && (clear(e) ==> (f(a, e).1 == g(b, e).1 <==> compatible(a, e)))
  }

  predicate All<E>(events: seq<E>, p: E -> bool) {
    forall i :: 0 <= i < |events| ==> p(events[i])
  }

  /** Every event is compatible with the state it meets. */
  predicate AllAlong<S, E>(step: (S, E) -> (S, nat), start: S, events: seq<E>, compatible: (S, E) -> bool) {
    forall i :: 0 <= i < |events| ==> compatible(Serial(step, start, events[..i]).0, events[i])
  }

  lemma AllLast<E>(events: seq<E>, p: E -> bool)
    requires events != []
    ensures All(events, p) <==> All(events[..|events| - 1], p) && p(events[|events| - 1])
  {
    var init := events[..|events| - 1];
    assert forall i :: 0 <= i < |init| ==> init[i] == events[i];
  }

  lemma AllAlongLast<S, E>(step: (S, E) -> (S, nat), start: S, events: seq<E>, compatible: (S, E) -> bool)
    requires events != []
    ensures AllAlong(step, start, events, compatible) <==>
            && AllAlong(step, start, events[..|events| - 1], compatible)
            && compatible(Serial(step, start, events[..|events| - 1]).0, events[|events| - 1])
  {
    var init := events[..|events| - 1];
    forall i | 0 <= i < |init| ensures init[..i] == events[..i] && init[i] == events[i] { }
    if AllAlong(step, start, events, compatible) {
      forall i | 0 <= i < |init| ensures compatible(Serial(step, start, init[..i]).0, init[i]) {
        assert compatible(Serial(step, start, events[..i]).0, events[i]);
      }
    }
    if AllAlong(step, start, init, compatible) && compatible(Serial(step, start, init).0, events[|events| - 1]) {
      forall i | 0 <= i < |events| ensures compatible(Serial(step, start, events[..i]).0, events[i]) {
        if i < |init| { assert compatible(Serial(step, start, init[..i]).0, init[i]); }
      }
    }
  }

  lemma {:induction false} OneStatusEach<S, E>(step: (S, E) -> (S, nat), start: S, events: seq<E>)
    ensures |Serial(step, start, events).1| == |events|
  {
    if events != [] { OneStatusEach(step, start, events[..|events| - 1]); }
  }

  /** The two give equal statuses and are in related states all along. */
  predicate InStep<A, B, E>(f: (A, E) -> (A, nat), a: A, g: (B, E) -> (B, nat), b: B, events: seq<E>,
                            related: (A, B) -> bool)
  {
    forall k :: 0 <= k <= |events| ==>
      && Serial(f, a, events[..k]).1 == Serial(g, b, events[..k]).1
      && related(Serial(f, a, events[..k]).0, Serial(g, b, events[..k]).0)
  }

  lemma InStepLast<A, B, E>(f: (A, E) -> (A, nat), a: A, g: (B, E) -> (B, nat), b: B, init: seq<E>, last: E,
                            related: (A, B) -> bool)
    ensures InStep(f, a, g, b, init + [last], related) <==>
            && InStep(f, a, g, b, init, related)
            && Serial(f, a, init + [last]).1 == Serial(g, b, init + [last]).1
            && related(Serial(f, a, init + [last]).0, Serial(g, b, init + [last]).0)
  {
    hide Serial;
    var events := init + [last];
    assert events[..|events|] == events;
    forall k | 0 <= k <= |init| ensures events[..k] == init[..k] { }
    if InStep(f, a, g, b, init, related) {
      forall k | 0 <= k < |events|
        ensures Serial(f, a, events[..k]).1 == Serial(g, b, events[..k]).1
        ensures related(Serial(f, a, events[..k]).0, Serial(g, b, events[..k]).0)
      {
        assert events[..k] == init[..k];
      }
    }
    if InStep(f, a, g, b, events, related) {
      forall k | 0 <= k <= |init|
        ensures Serial(f, a, init[..k]).1 == Serial(g, b, init[..k]).1
        ensures related(Serial(f, a, init[..k]).0, Serial(g, b, init[..k]).0)
      {
        assert events[..k] == init[..k];
      }
    }
  }

  lemma SerialLast<S, E>(step: (S, E) -> (S, nat), start: S, init: seq<E>, last: E)
    ensures var before, after := Serial(step, start, init), Serial(step, start, init + [last]);
            after == (step(before.0, last).0, before.1 + [step(before.0, last).1])
  {
    assert (init + [last])[..|init|] == init;
  }

  /** Two machines whose steps agree stay in step over a whole trace exactly when each of its events is compatible
      with the state it meets; and when all events are clear, equal statuses are enough. */
  lemma {:induction false} SerialAgree<A(!new), B(!new), E(!new)>(f: (A, E) -> (A, nat), a: A,
      g: (B, E) -> (B, nat), b: B, events: seq<E>,
      related: (A, B) -> bool, clear: E -> bool, compatible: (A, E) -> bool)
    requires StepsAgree(f, g, related, clear, compatible) && related(a, b)
    ensures InStep(f, a, g, b, events, related) <==> AllAlong(f, a, events, compatible)
    ensures All(events, clear) ==>
              (Serial(f, a, events).1 == Serial(g, b, events).1 <==> AllAlong(f, a, events, compatible))
  {
    if events == [] {
      assert events[..0] == [];
    } else {
      var init, last := events[..|events| - 1], events[|events| - 1];
      assert events == init + [last];
      AllLast(events, clear);
      AllAlongLast(f, a, events, compatible);
      SerialAgree(f, a, g, b, init, related, clear, compatible);
      InStepLast(f, a, g, b, init, last, related);
      if InStep(f, a, g, b, init, related) { InStepEnd(f, a, g, b, init, related); }
      StatusesLast(f, a, g, b, init, last);
    }
  }

  lemma InStepEnd<A, B, E>(f: (A, E) -> (A, nat), a: A, g: (B, E) -> (B, nat), b: B, events: seq<E>,
                           related: (A, B) -> bool)
    requires InStep(f, a, g, b, events, related)
    ensures related(Serial(f, a, events).0, Serial(g, b, events).0)
    ensures Serial(f, a, events).1 == Serial(g, b, events).1
  {
    assert events[..|events|] == events;
  }

  lemma StatusesLast<A, B, E>(f: (A, E) -> (A, nat), a: A, g: (B, E) -> (B, nat), b: B, init: seq<E>, last: E)
    ensures Serial(f, a, init + [last]).1 == Serial(g, b, init + [last]).1 <==>
            Serial(f, a, init).1 == Serial(g, b, init).1 &&
            f(Serial(f, a, init).0, last).1 == g(Serial(g, b, init).0, last).1
    ensures Serial(f, a, init + [last]).0 == f(Serial(f, a, init).0, last).0
    ensures Serial(g, b, init + [last]).0 == g(Serial(g, b, init).0, last).0
  {
    hide Serial;
    SerialLast(f, a, init, last);
    SerialLast(g, b, init, last);
    OneStatusEach(f, a, init);
    OneStatusEach(g, b, init);
    LastStatus(Serial(f, a, init).1, f(Serial(f, a, init).0, last).1, Serial(g, b, init).1,
               g(Serial(g, b, init).0, last).1);
  }

  lemma LastStatus(a: seq<nat>, x: nat, b: seq<nat>, y: nat)
    requires |a| == |b|
    ensures a + [x] == b + [y] <==> a == b && x == y
  {
    if a + [x] == b + [y] {
      assert (a + [x])[..|a|] == a && (b + [y])[..|b|] == b;
      assert (a + [x])[|a|] == x && (b + [y])[|b|] == y;
    }
  }

  function CompatibleWith(config: Config, tokens: Tokens): (Table, Event) -> bool {
    (store: Table, e: Event) => Compatible(config, tokens, store, e.request)
  }

  function DecodedAlike(): Event -> bool { (e: Event) => SameDecoded(e.request) }

  ghost function Related(): (Table, seq<D1.Row>) -> bool { (store: Table, rows: seq<D1.Row>) => Matched(store, rows) }

  /** Every request is compatible with what Go stores when it arrives. */
  predicate AllCompatible(config: Config, tokens: Tokens, events: seq<Event>) {
    AllAlong(GoStep(config), map[], events, CompatibleWith(config, tokens))
  }

  /** After each request the two registries have given equal statuses and hold the same, valid nodes. */
  ghost predicate AgreeThroughout(config: Config, tokens: Tokens, events: seq<Event>) {
    InStep(GoStep(config), map[], WorkerStep(tokens), [], events, Related())
  }

  lemma RegistriesStepAlike(config: Config, tokens: Tokens)
    requires SameTokens(config, tokens)
    ensures StepsAgree(GoStep(config), WorkerStep(tokens), Related(), DecodedAlike(), CompatibleWith(config, tokens))
  {
    hide Compatible, Serve, WorkerServe, SameTokens, Matched, SameDecoded;
    forall store: Table, rows: seq<D1.Row>, e: Event | Related()(store, rows)
      ensures var mine, theirs := GoStep(config)(store, e), WorkerStep(tokens)(rows, e);
              && (mine.1 == theirs.1 && Related()(mine.0, theirs.0) <==> CompatibleWith(config, tokens)(store, e))
              && (DecodedAlike()(e) ==> (mine.1 == theirs.1 <==> CompatibleWith(config, tokens)(store, e)))
    {
      StepSame(config, tokens, store, rows, e.request, e.at);
    }
  }

  lemma NothingMatched()
    ensures Matched(map[], [])
  {
  }

  /** Served the same requests, the two registries give the same status to every one of them and hold the same nodes
      after every one of them, exactly when every request is compatible with what is stored when it arrives. */
  lemma RegistriesAgree(config: Config, tokens: Tokens, events: seq<Event>)
    requires SameTokens(config, tokens)
    ensures AgreeThroughout(config, tokens, events) <==> AllCompatible(config, tokens, events)
  {
    hide Serve, WorkerServe, Compatible, SameTokens, StepsAgree, Serial, AllAlong, Matched;
    RegistriesStepAlike(config, tokens);
    NothingMatched();
    SerialAgree(GoStep(config), map[], WorkerStep(tokens), [], events, Related(), DecodedAlike(),
                CompatibleWith(config, tokens));
  }

  /** When bodies and ids decode alike, equal statuses alone tell: they are all equal exactly when every request is
      compatible. */
  lemma StatusesAgree(config: Config, tokens: Tokens, events: seq<Event>)
    requires SameTokens(config, tokens) && All(events, DecodedAlike())
    ensures GoRun(config, events).1 == WorkerRun(tokens, events).1 <==> AllCompatible(config, tokens, events)
    ensures AllCompatible(config, tokens, events) ==> Matched(GoRun(config, events).0, WorkerRun(tokens, events).0)
  {
    hide Serve, WorkerServe, Compatible, SameTokens, StepsAgree, Serial, AllAlong, Matched;
    RegistriesStepAlike(config, tokens);
    NothingMatched();
    SerialAgree(GoStep(config), map[], WorkerStep(tokens), [], events, Related(), DecodedAlike(),
                CompatibleWith(config, tokens));
    assert events[..|events|] == events;
  }

  // ----- listings -----

  function Erased(nodes: seq<Node>): (r: seq<Node>)
    ensures |r| == |nodes| && forall i :: 0 <= i < |nodes| ==> r[i] == Erase(nodes[i])
  {
    seq(|nodes|, i requires 0 <= i < |nodes| => Erase(nodes[i]))
  }

  lemma ErasedAscending(nodes: seq<Node>)
    requires Ascending(nodes, NodeKey)
    ensures Ascending(Erased(nodes), NodeKey)
  {
    forall i, j | 0 <= i < j < |nodes| ensures Less(NodeKey(Erased(nodes)[i]), NodeKey(Erased(nodes)[j])) {
      assert Less(NodeKey(nodes[i]), NodeKey(nodes[j]));
    }
  }

  lemma WorkerListingAscending(rows: seq<D1.Row>)
    requires DistinctKeys(rows, D1.RowKey)
    ensures Ascending(D1.Listing(rows), NodeKey)
  {
    var sorted := Sort(rows, D1.RowKey);
    SortAscending(rows, D1.RowKey);
    forall i, j | 0 <= i < j < |sorted| ensures Less(NodeKey(D1.Listing(rows)[i]), NodeKey(D1.Listing(rows)[j])) {
      D1.NodesOfAt(sorted, i);
      D1.NodesOfAt(sorted, j);
      assert Less(D1.RowKey(sorted[i]), D1.RowKey(sorted[j]));
    }
  }

  lemma WorkerListed(rows: seq<D1.Row>, n: Node)
    requires DistinctKeys(rows, D1.RowKey)
    ensures n in D1.Listing(rows) <==>
            D1.Lookup(rows, n.nodeID).Some? && D1.NodeOf(D1.Lookup(rows, n.nodeID).value) == n
  {
    var sorted := Sort(rows, D1.RowKey);
    SortElements(rows, D1.RowKey);
    if n in D1.Listing(rows) {
      var i :| 0 <= i < |sorted| && D1.Listing(rows)[i] == n;
      D1.NodesOfAt(sorted, i);
      assert sorted[i] in multiset(sorted);
      D1.LookupIn(rows, sorted[i]);
    }
    if D1.Lookup(rows, n.nodeID).Some? && D1.NodeOf(D1.Lookup(rows, n.nodeID).value) == n {
      var row := D1.Lookup(rows, n.nodeID).value;
      D1.LookupIn(rows, row);
      assert row in multiset(rows) && row in multiset(sorted);
      var i :| 0 <= i < |sorted| && sorted[i] == row;
      D1.NodesOfAt(sorted, i);
    }
  }

  lemma ListedSame(store: Table, rows: seq<D1.Row>, nodes: seq<Node>, e: Node)
    requires SameNodes(store, rows) && IsListing(nodes, store)
    ensures e in Erased(nodes) <==> e in Erased(D1.Listing(rows))
  {
    var theirs := D1.Listing(rows);
    assert SameNode(store, rows, e.nodeID);
    if e in Erased(nodes) {
      var i :| 0 <= i < |nodes| && Erased(nodes)[i] == e;
      assert nodes[i] in nodes;
      var n := D1.NodeOf(D1.Lookup(rows, e.nodeID).value);
      D1.SameKey(rows, e.nodeID);
      WorkerListed(rows, n);
      var j :| 0 <= j < |theirs| && theirs[j] == n;
      assert Erased(theirs)[j] == e;
    }
    if e in Erased(theirs) {
      var j :| 0 <= j < |theirs| && Erased(theirs)[j] == e;
      WorkerListed(rows, theirs[j]);
      assert e.nodeID in store && store[e.nodeID] in nodes;
      var i :| 0 <= i < |nodes| && nodes[i] == store[e.nodeID];
      assert Erased(nodes)[i] == e;
    }
  }

  /** Equal contents give equal listings. */
  lemma ListingsSame(store: Table, rows: seq<D1.Row>, nodes: seq<Node>)
    requires SameNodes(store, rows) && IsListing(nodes, store)
    ensures Erased(nodes) == Erased(D1.Listing(rows))
  {
    ErasedAscending(nodes);
    WorkerListingAscending(rows);
    ErasedAscending(D1.Listing(rows));
    forall e ensures e in Erased(nodes) <==> e in Erased(D1.Listing(rows)) { ListedSame(store, rows, nodes, e); }
    AscendingUnique(Erased(nodes), Erased(D1.Listing(rows)), NodeKey);
  }

  /** After every request of a compatible trace, Go's sorted listing and the Worker's query answer are the same list,
      time stamps aside. */
  lemma WorkerSimulatesGo(config: Config, tokens: Tokens, events: seq<Event>, k: nat, nodes: seq<Node>)
    requires SameTokens(config, tokens) && AllCompatible(config, tokens, events)
    requires k <= |events| && IsListing(nodes, GoRun(config, events[..k]).0)
    ensures Erased(nodes) == Erased(D1.Listing(WorkerRun(tokens, events[..k]).0))
    ensures GoRun(config, events[..k]).1 == WorkerRun(tokens, events[..k]).1
    ensures Matched(GoRun(config, events[..k]).0, WorkerRun(tokens, events[..k]).0)
  {
    hide Compatible, Serve, WorkerServe, SameTokens, Serial, AllAlong, SameNodes, ValidTable, IsListing, Erased,
         D1.Listing;
    RegistriesAgree(config, tokens, events);
    ListingsSame(GoRun(config, events[..k]).0, WorkerRun(tokens, events[..k]).0, nodes);
  }
}
