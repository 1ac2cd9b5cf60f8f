/** Registered nodes and the proxies they announce. */
module Nodes {
  import opened Text

  datatype Protocol = Protocol(kind: Bytes, port: int, password: Bytes, sni: Bytes, tls: bool, cipher: Bytes)

  datatype Node = Node(schemaVersion: int, nodeID: Bytes, name: Bytes, region: Bytes, host: Bytes, ip: Bytes,
                       protocols: seq<Protocol>, updatedAt: Bytes)

  // ----- what a listing shows of a node -----

  datatype Summary = Summary(nodeID: string, name: string, region: string, host: string, ip: string,
                             protocols: seq<(string, int)>, updatedAt: string)

  /** Type and port of every protocol entry, in order. */
  predicate SameEntries(shown: seq<(string, int)>, ps: seq<Protocol>) {
    |shown| == |ps| && forall j :: 0 <= j < |ps| ==> shown[j].0 == ps[j].kind && shown[j].1 == ps[j].port
  }

  predicate Summarises(s: Summary, n: Node) {
    s.nodeID == n.nodeID && s.name == n.name && s.region == n.region && s.host == n.host && s.ip == n.ip &&
    s.updatedAt == n.updatedAt && SameEntries(s.protocols, n.protocols)
  }

  method SummaryOf(n: Node) returns (s: Summary)
    ensures Summarises(s, n)
  {
    var protocols := [];
    for j := 0 to |n.protocols|
      invariant SameEntries(protocols, n.protocols[..j])
    {
      protocols := protocols + [(n.protocols[j].kind, n.protocols[j].port)];
    }
    assert n.protocols[..|n.protocols|] == n.protocols;
    s := Summary(nodeID := n.nodeID, name := n.name, region := n.region, host := n.host, ip := n.ip,
                 protocols := protocols, updatedAt := n.updatedAt);
  }

  // ----- proxies -----

  /** One entry of a subscription, before any format is chosen. */
  datatype Proxy =
    | Trojan(name: string, host: string, port: int, password: string, sni: string, tls: bool)
    | Shadowsocks(name: string, host: string, port: int, cipher: string, password: string)

  predicate ByteFields(x: Proxy) {
    AllBytes(x.name) && AllBytes(x.host) && AllBytes(x.password) &&
    if x.Trojan? then AllBytes(x.sni) else AllBytes(x.cipher)
  }

  type ByteProxy = x: Proxy | ByteFields(x) witness Shadowsocks("", "", 0, "", "")

  /** The first non-empty value, or the empty string. */
  function FirstNonEmpty(values: seq<string>): string {
    if values == [] then "" else if values[0] != "" then values[0] else FirstNonEmpty(values[1..])
  }

  /** The server name a client will use: the Worker's `sni || host`. */
  function EffectiveSNI(sni: string, host: string): (name: string)
    ensures name == if sni != "" then sni else host
  {
    assert [sni, host][1..] == [host];
    assert FirstNonEmpty([host]) == host;
    FirstNonEmpty([sni, host])
  }

  /** The suffixes of proxy names. */
  predicate Suffix(t: string) { t == "-Trojan" || t == "-SS" }

  function SuffixFor(x: Proxy): (t: string)
    ensures Suffix(t)
  {
    if x.Trojan? then "-Trojan" else "-SS"
  }

  /** The name without its suffix. */
  function Stem(x: Proxy): string {
    var k := |SuffixFor(x)|;
    if |x.name| >= k then x.name[..|x.name| - k] else ""
  }

  predicate Suffixed(x: Proxy) { x.name == Stem(x) + SuffixFor(x) }

  predicate AllSuffixed(xs: seq<Proxy>) {
    forall i :: 0 <= i < |xs| ==> Suffixed(xs[i])
  }

  function TrojanName(node: Node): Bytes { node.name + "-Trojan" }

  function ShadowsocksName(node: Node): Bytes { node.name + "-SS" }

  function TrojanOf(node: Node, p: Protocol): (x: ByteProxy)
    ensures x.Trojan?
  {
    Trojan(TrojanName(node), node.host, p.port, p.password, p.sni, p.tls)
  }

  function ShadowsocksOf(node: Node, p: Protocol): (x: ByteProxy)
    ensures x.Shadowsocks?
  {
    Shadowsocks(ShadowsocksName(node), node.host, p.port, p.cipher, p.password)
  }

  /** What one protocol entry of a node contributes: nothing when its type is unknown to the printers. */
  function ProxyOf(node: Node, p: Protocol): seq<ByteProxy> {
    if p.kind == "trojan" then [TrojanOf(node, p)] else if p.kind == "shadowsocks" then [ShadowsocksOf(node, p)] else []
  }

  /** The proxy of an entry takes each value from its own field; its name is the node's with the suffix of the type. */
  lemma EntryProxy(node: Node, p: Protocol)
    ensures p.kind != "trojan" && p.kind != "shadowsocks" ==> ProxyOf(node, p) == []
    ensures p.kind == "trojan" || p.kind == "shadowsocks" ==>
              |ProxyOf(node, p)| == 1 && var x := ProxyOf(node, p)[0];
              && x.host == node.host && x.port == p.port && x.password == p.password
              && (p.kind == "trojan" ==>
                    x.Trojan? && x.name == node.name + "-Trojan" && x.sni == p.sni && x.tls == p.tls)
              && (p.kind == "shadowsocks" ==>
                    x.Shadowsocks? && x.name == node.name + "-SS" && x.cipher == p.cipher)
  {
  }

  function NodeProxies(node: Node, ps: seq<Protocol>): seq<ByteProxy> {
    if ps == [] then [] else NodeProxies(node, ps[..|ps| - 1]) + ProxyOf(node, ps[|ps| - 1])
  }

  /** All proxies of a node list, in node order and protocol order. */
  function Proxies(nodes: seq<Node>): seq<ByteProxy> {
    if nodes == [] then []
    else Proxies(nodes[..|nodes| - 1]) + NodeProxies(nodes[|nodes| - 1], nodes[|nodes| - 1].protocols)
  }

  lemma NodeProxiesStep(node: Node, ps: seq<Protocol>, j: nat)
    requires j < |ps|
    ensures NodeProxies(node, ps[..j + 1]) == NodeProxies(node, ps[..j]) + ProxyOf(node, ps[j])
  {
    assert ps[..j + 1][..j] == ps[..j];
  }

  lemma ProxiesStep(nodes: seq<Node>, i: nat)
    requires i < |nodes|
    ensures Proxies(nodes[..i + 1]) == Proxies(nodes[..i]) + NodeProxies(nodes[i], nodes[i].protocols)
  {
    assert nodes[..i + 1][..i] == nodes[..i];
  }

  // ----- what printing loops build up -----

  function Map<T>(f: ByteProxy -> T, xs: seq<ByteProxy>): (r: seq<T>)
    ensures |r| == |xs| && forall i :: 0 <= i < |xs| ==> r[i] == f(xs[i])
  {
    if xs == [] then [] else Map(f, xs[..|xs| - 1]) + [f(xs[|xs| - 1])]
  }

  lemma MapLast<T>(f: ByteProxy -> T, xs: seq<ByteProxy>, x: ByteProxy)
    ensures Map(f, xs + [x]) == Map(f, xs) + [f(x)]
  {
  }

  /** The proxies met in the nodes before `i` and in the protocol entries before `j` of node `i`. */
  function Met(nodes: seq<Node>, i: nat, j: nat): seq<ByteProxy>
    requires i < |nodes| && j <= |nodes[i].protocols|
  {
    Proxies(nodes[..i]) + NodeProxies(nodes[i], nodes[i].protocols[..j])
  }

  lemma MetStart(nodes: seq<Node>, i: nat)
    requires i < |nodes|
    ensures Met(nodes, i, 0) == Proxies(nodes[..i])
  {
  }

  lemma MetStep(nodes: seq<Node>, i: nat, j: nat)
    requires i < |nodes| && j < |nodes[i].protocols|
    ensures Met(nodes, i, j + 1) == Met(nodes, i, j) + ProxyOf(nodes[i], nodes[i].protocols[j])
  {
    NodeProxiesStep(nodes[i], nodes[i].protocols, j);
    Associate(Proxies(nodes[..i]), NodeProxies(nodes[i], nodes[i].protocols[..j]),
              ProxyOf(nodes[i], nodes[i].protocols[j]));
  }

  lemma MetEnd(nodes: seq<Node>, i: nat)
    requires i < |nodes|
    ensures Met(nodes, i, |nodes[i].protocols|) == Proxies(nodes[..i + 1])
  {
    ProxiesStep(nodes, i);
    assert nodes[i].protocols[..|nodes[i].protocols|] == nodes[i].protocols;
  }

  /** Every proxy comes from a protocol entry of one of the nodes. */
  lemma {:induction false} ProxySource(nodes: seq<Node>, x: ByteProxy)
    requires x in Proxies(nodes)
    ensures exists n, p :: n in nodes && p in n.protocols && x in ProxyOf(n, p)
  {
    var last := nodes[|nodes| - 1];
    if x in Proxies(nodes[..|nodes| - 1]) {
      ProxySource(nodes[..|nodes| - 1], x);
    } else {
      NodeProxySource(last, last.protocols, x);
    }
  }

  lemma {:induction false} NodeProxySource(node: Node, ps: seq<Protocol>, x: ByteProxy)
    requires x in NodeProxies(node, ps)
    ensures exists p :: p in ps && x in ProxyOf(node, p)
  {
    if x in NodeProxies(node, ps[..|ps| - 1]) {
      NodeProxySource(node, ps[..|ps| - 1], x);
    } else {
      assert ps[|ps| - 1] in ps;
    }
  }

  lemma {:induction false} NodeProxyListed(node: Node, ps: seq<Protocol>, p: Protocol, x: ByteProxy)
    requires p in ps && x in ProxyOf(node, p)
    ensures x in NodeProxies(node, ps)
  {
    var init, last := ps[..|ps| - 1], ps[|ps| - 1];
    assert ps == init + [last];
    if p != last { NodeProxyListed(node, init, p, x); }
  }

  /** And every such entry's proxy is listed. */
  lemma {:induction false} ProxyListed(nodes: seq<Node>, n: Node, p: Protocol, x: ByteProxy)
    requires n in nodes && p in n.protocols && x in ProxyOf(n, p)
    ensures x in Proxies(nodes)
  {
    var init, last := nodes[..|nodes| - 1], nodes[|nodes| - 1];
    assert nodes == init + [last];
    if n == last { NodeProxyListed(last, last.protocols, p, x); } else { ProxyListed(init, n, p, x); }
  }

  lemma {:induction false} NodeProxiesAppend(node: Node, ps: seq<Protocol>, qs: seq<Protocol>)
    ensures NodeProxies(node, ps + qs) == NodeProxies(node, ps) + NodeProxies(node, qs)
  {
    if qs == [] {
      assert ps + qs == ps;
    } else {
      var init, last := qs[..|qs| - 1], qs[|qs| - 1];
      assert (ps + qs)[..|ps + qs| - 1] == ps + init;
      NodeProxiesAppend(node, ps, init);
      Associate(NodeProxies(node, ps), NodeProxies(node, init), ProxyOf(node, last));
    }
  }

  lemma {:induction false} ProxiesAppend(a: seq<Node>, b: seq<Node>)
    ensures Proxies(a + b) == Proxies(a) + Proxies(b)
  {
    if b == [] {
      assert a + b == a;
    } else {
      var init, last := b[..|b| - 1], b[|b| - 1];
      assert (a + b)[..|a + b| - 1] == a + init;
      ProxiesAppend(a, init);
      Associate(Proxies(a), Proxies(init), NodeProxies(last, last.protocols));
    }
  }

  /** What a loop has met is the beginning of what it will have met. */
  lemma MetPrefix(nodes: seq<Node>, i: nat, j: nat) returns (rest: seq<ByteProxy>)
    requires i < |nodes| && j <= |nodes[i].protocols|
    ensures Proxies(nodes) == Met(nodes, i, j) + rest
  {
    var n, ps := nodes[i], nodes[i].protocols;
    rest := NodeProxies(n, ps[j..]) + Proxies(nodes[i + 1..]);
    assert ps == ps[..j] + ps[j..] && nodes == nodes[..i + 1] + nodes[i + 1..];
    NodeProxiesAppend(n, ps[..j], ps[j..]);
    ProxiesAppend(nodes[..i + 1], nodes[i + 1..]);
    ProxiesStep(nodes, i);
    Regrouped(Proxies(nodes[..i]), NodeProxies(n, ps[..j]), NodeProxies(n, ps[j..]), Proxies(nodes[i + 1..]));
  }

  lemma Regrouped<T>(a: seq<T>, b: seq<T>, c: seq<T>, d: seq<T>)
    ensures a + (b + c) + d == a + b + (c + d)
  {
  }

  /** The name of a proxy is the name of its node and the suffix of its type. */
  lemma ProxyNamed(node: Node, p: Protocol, x: ByteProxy)
    requires x in ProxyOf(node, p)
    ensures Suffixed(x) && Stem(x) == node.name && (x.Trojan? <==> p.kind == "trojan")
    ensures p.kind == "trojan" || p.kind == "shadowsocks"
  {
    assert x.name == node.name + SuffixFor(x);
  }

  lemma ProxiesSuffixed(nodes: seq<Node>)
    ensures AllSuffixed(Proxies(nodes))
  {
    forall i | 0 <= i < |Proxies(nodes)| ensures Suffixed(Proxies(nodes)[i]) {
      ProxySource(nodes, Proxies(nodes)[i]);
      var n, p :| n in nodes && p in n.protocols && Proxies(nodes)[i] in ProxyOf(n, p);
      ProxyNamed(n, p, Proxies(nodes)[i]);
    }
  }
}
