/** The design's compatibility contract, end to end: the same requests, then the same subscriptions. */
module Compatibility {
  import opened Text
  import opened FormatNames
  import opened Nodes
  import opened Store
  import opened Admission
  import opened Links
  import opened Subscription
  import opened Server
  import opened Worker
  import opened Simulation
  import D1 = Database

  lemma {:induction false} ErasedProxies(nodes: seq<Node>)
    ensures Proxies(Erased(nodes)) == Proxies(nodes)
  {
    if nodes != [] {
      var n := |nodes| - 1;
      assert Erased(nodes)[..n] == Erased(nodes[..n]);
      ErasedProxies(nodes[..n]);
      SameProxies(nodes[n], Erase(nodes[n]), nodes[n].protocols);
    }
  }

  lemma {:induction false} SameProxies(a: Node, b: Node, ps: seq<Protocol>)
    requires a.name == b.name && a.host == b.host
    ensures NodeProxies(a, ps) == NodeProxies(b, ps)
  {
    if ps != [] { SameProxies(a, b, ps[..|ps| - 1]); }
  }

  /** After the same compatible requests, the two registries print the same proxies. */
  lemma SameProxyLists(config: Config, tokens: Tokens, events: seq<Event>, nodes: seq<Node>)
    requires SameTokens(config, tokens) && AllCompatible(config, tokens, events)
    requires IsListing(nodes, GoRun(config, events).0)
    ensures Proxies(nodes) == Proxies(D1.Listing(WorkerRun(tokens, events).0))
    ensures LinkHosts(Proxies(nodes)) && AllSuffixed(Proxies(nodes))
  {
    hide *;
    var rows := WorkerRun(tokens, events).0;
    assert events[..|events|] == events;
    WorkerSimulatesGo(config, tokens, events, |events|, nodes);
    ErasedProxies(nodes);
    ErasedProxies(D1.Listing(rows));
    ListedHosts(GoRun(config, events).0, rows);
    ProxiesSuffixed(nodes);
  }

  /** After the same compatible requests, a subscription from the Go registry and one from the Worker read the same
      exactly when what is stored is printed alike: secrets in ASCII for links and base64, names that both trim alike
      for the configuration, and always for Clash and sing-box. */
  lemma RegistriesServeTheSame(config: Config, tokens: Tokens, events: seq<Event>, nodes: seq<Node>, format: Format)
    requires SameTokens(config, tokens) && AllCompatible(config, tokens, events)
    requires IsListing(nodes, GoRun(config, events).0)
    ensures var theirs := WorkerBody(format, Proxies(D1.Listing(WorkerRun(tokens, events).0)));
            (theirs.Some? && ReadBody(format, theirs.value) == ReadBody(format, GoBody(format, Proxies(nodes)))) <==>
            Alike(format, Proxies(nodes))
  {
    hide WorkerBody, GoBody, ReadBody, Alike, GoRun, WorkerRun, Proxies;
    SameProxyLists(config, tokens, events, nodes);
    SubscriptionsAgree(format, Proxies(nodes));
  }

  /** A client that asks both registries, after the same compatible requests, for a format both know: Go always answers,
      and the Worker's answer reads the same exactly when what is stored is printed alike. */
  method AskBoth(server: RegistryServer, db: D1.Table, tokens: Tokens, token: string, parameter: string,
      ghost events: seq<Event>, ghost format: Format)
    returns (ours: Option<Body>, theirs: Option<Body>)
    requires server.Valid() && db.Valid()
    requires SameTokens(server.config, tokens) && AllCompatible(server.config, tokens, events)
    requires server.store == GoRun(server.config, events).0 && db.rows == WorkerRun(tokens, events).0
    requires Known(server.config.subscribeTokens, token) && Enabled(tokens.subscribe, token)
    requires GoQueryFormat(parameter) == Some(format) && WorkerFormat(parameter) == Some(format)
    ensures ours.Some?
    ensures theirs.Some? && ReadBody(format, theirs.value) == ReadBody(format, ours.value) <==>
            Alike(format, Proxies(D1.Listing(db.rows)))
  {
    ghost var nodes := ListingExists(server.store);
    hide *;
    var status, other;
    status, ours := server.HandleSub("GET", token, parameter);
    other, theirs := HandleSub(db, tokens, "GET", token, parameter);
    SameProxyLists(server.config, tokens, events, nodes);
    RegistriesServeTheSame(server.config, tokens, events, nodes, format);
  }
}
