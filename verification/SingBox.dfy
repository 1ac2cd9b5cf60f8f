/** The sing-box subscription, up to the outbound tree that is then printed as JSON. */
module SingBox {
  import opened Nodes

  datatype Outbound =
    | Direct(tag: string)
    | TrojanOut(tag: string, server: string, serverPort: int, password: string, tlsEnabled: bool, serverName: string)
    | ShadowsocksOut(tag: string, server: string, serverPort: int, cipher: string, password: string)

  function OutboundOf(x: ByteProxy): Outbound {
    match x
    case Trojan(name, host, port, password, sni, tls) =>
      TrojanOut(name, host, port, password, tls, EffectiveSNI(sni, host))
    case Shadowsocks(name, host, port, cipher, password) => ShadowsocksOut(name, host, port, cipher, password)
  }

  function Outbounds(xs: seq<ByteProxy>): seq<Outbound> {
    [Direct("direct")] + Map(OutboundOf, xs)
  }

  /** The outbound of a proxy: its name as the tag, and every value under its own field. */
  predicate Describes(o: Outbound, x: Proxy) {
    match x
    case Trojan(_, _, _, _, _, _) =>
      o.TrojanOut? && o.tag == x.name && o.server == x.host && o.serverPort == x.port && o.password == x.password &&
      o.tlsEnabled == x.tls && o.serverName == if x.sni != "" then x.sni else x.host
    case Shadowsocks(_, _, _, _, _) =>
      o.ShadowsocksOut? && o.tag == x.name && o.server == x.host && o.serverPort == x.port && o.cipher == x.cipher &&
      o.password == x.password
  }

  /** The direct outbound first, then one for each proxy. */
  predicate DescribesAll(outbounds: seq<Outbound>, xs: seq<ByteProxy>) {
    |outbounds| == |xs| + 1 && outbounds[0] == Direct("direct") &&
    forall i :: 0 <= i < |xs| ==> Describes(outbounds[i + 1], xs[i])
  }

  lemma OutboundsDescribe(xs: seq<ByteProxy>)
    ensures DescribesAll(Outbounds(xs), xs)
  {
    forall i | 0 <= i < |xs| ensures Describes(Outbounds(xs)[i + 1], xs[i]) {
      assert Outbounds(xs)[i + 1] == OutboundOf(xs[i]);
    }
  }

  lemma OutboundsLast(xs: seq<ByteProxy>, x: ByteProxy)
    ensures Outbounds(xs + [x]) == Outbounds(xs) + [OutboundOf(x)]
  {
    MapLast(OutboundOf, xs, x);
  }

  lemma NoOutbounds(nodes: seq<Node>)
    ensures Outbounds(Proxies(nodes[..0])) == [Direct("direct")]
  {
    assert nodes[..0] == [];
  }

  lemma NothingMet(nodes: seq<Node>, i: nat, j: nat)
    requires i < |nodes| && j < |nodes[i].protocols| && ProxyOf(nodes[i], nodes[i].protocols[j]) == []
    ensures Met(nodes, i, j + 1) == Met(nodes, i, j)
  {
    MetStep(nodes, i, j);
  }

  /** Go's renderSingBox. */
  method GoRenderSingBox(nodes: seq<Node>) returns (outbounds: seq<Outbound>)
    ensures DescribesAll(outbounds, Proxies(nodes))
    ensures outbounds == Outbounds(Proxies(nodes))
  {
    OutboundsDescribe(Proxies(nodes));
    NoOutbounds(nodes);
    hide DescribesAll, Outbounds, Proxies, NodeProxies, Met;
    outbounds := [Direct("direct")];
    for i := 0 to |nodes|
      invariant outbounds == Outbounds(Proxies(nodes[..i]))
    {
      MetStart(nodes, i);
      for j := 0 to |nodes[i].protocols|
        invariant outbounds == Outbounds(Met(nodes, i, j))
      {
        var node, p := nodes[i], nodes[i].protocols[j];
        MetStep(nodes, i, j);
        if p.kind == "trojan" {
          outbounds := outbounds + [TrojanOut(node.name + "-Trojan", node.host, p.port, p.password, p.tls,
                                              FirstNonEmpty([p.sni, node.host]))];
          OutboundsLast(Met(nodes, i, j), ProxyOf(node, p)[0]);
        } else if p.kind == "shadowsocks" {
          outbounds := outbounds + [ShadowsocksOut(node.name + "-SS", node.host, p.port, p.cipher, p.password)];
          OutboundsLast(Met(nodes, i, j), ProxyOf(node, p)[0]);
        } else {
          NothingMet(nodes, i, j);
        }
      }
      MetEnd(nodes, i);
    }
    assert nodes[..|nodes|] == nodes;
  }

  /** The Worker's renderSingBox. */
  method WorkerRenderSingBox(nodes: seq<Node>) returns (outbounds: seq<Outbound>)
    ensures DescribesAll(outbounds, Proxies(nodes))
    ensures outbounds == Outbounds(Proxies(nodes))
  {
    OutboundsDescribe(Proxies(nodes));
    NoOutbounds(nodes);
    hide DescribesAll, Outbounds, Proxies, NodeProxies, Met;
    outbounds := [Direct("direct")];
    for i := 0 to |nodes|
      invariant outbounds == Outbounds(Proxies(nodes[..i]))
    {
      MetStart(nodes, i);
      for j := 0 to |nodes[i].protocols|
        invariant outbounds == Outbounds(Met(nodes, i, j))
      {
        var node, p := nodes[i], nodes[i].protocols[j];
        MetStep(nodes, i, j);
        if p.kind != "trojan" && p.kind != "shadowsocks" { NothingMet(nodes, i, j); }
        if p.kind == "trojan" {
          outbounds := outbounds + [TrojanOut(node.name + "-Trojan", node.host, p.port, p.password, p.tls,
                                              if p.sni != "" then p.sni else node.host)];
          OutboundsLast(Met(nodes, i, j), ProxyOf(node, p)[0]);
        }
        if p.kind == "shadowsocks" {
          outbounds := outbounds + [ShadowsocksOut(node.name + "-SS", node.host, p.port, p.cipher, p.password)];
          OutboundsLast(Met(nodes, i, j), ProxyOf(node, p)[0]);
        }
      }
      MetEnd(nodes, i);
    }
    assert nodes[..|nodes|] == nodes;
  }
}
