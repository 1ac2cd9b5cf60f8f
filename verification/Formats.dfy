/** What each format, read back, says about the endpoints of a node list. */
module Formats {
  import opened Text
  import opened Numbers
  import opened Nodes
  import opened Validators
  import Escape
  import Base64
  import Order
  import opened Links
  import Clash
  import SR = Shadowrocket
  import opened SingBox

  // ----- endpoints -----

  datatype Endpoint = Endpoint(trojan: bool, host: string, port: int, password: string, cipher: string, sni: string)

  function EndpointOf(x: Proxy): Endpoint {
    match x
    case Trojan(_, host, port, password, sni, _) => Endpoint(true, host, port, password, "", EffectiveSNI(sni, host))
    case Shadowsocks(_, host, port, cipher, password) => Endpoint(false, host, port, password, cipher, "")
  }

  /** Endpoints differ as soon as type, host, port, password, cipher or effective server name do. */
  lemma EndpointTells(x: Proxy, y: Proxy)
    ensures EndpointOf(x) == EndpointOf(y) <==>
            && x.Trojan? == y.Trojan? && x.host == y.host && x.port == y.port && x.password == y.password
            && (x.Trojan? ==> EffectiveSNI(x.sni, x.host) == EffectiveSNI(y.sni, y.host))
            && (x.Shadowsocks? ==> x.cipher == y.cipher)
  {
  }

  function ClashEndpoint(x: Clash.ClashProxy): Endpoint {
    match x
    case ClashTrojan(_, server, port, password, sni) => Endpoint(true, server, port, password, "", sni)
    case ClashShadowsocks(_, server, port, cipher, password) => Endpoint(false, server, port, password, cipher, "")
  }

  function ConfEndpoint(e: SR.Entry): Endpoint {
    match e
    case TrojanEntry(_, host, port, password, sni) =>
      Endpoint(true, SR.Unescape(host), port, SR.Unescape(password), "", SR.Unescape(sni))
    case ShadowsocksEntry(_, host, port, cipher, password) =>
      Endpoint(false, SR.Unescape(host), port, SR.Unescape(password), SR.Unescape(cipher), "")
  }

  function OutboundEndpoint(o: Outbound): Option<Endpoint> {
    match o
    case Direct(_) => None
    case TrojanOut(_, server, port, password, _, sni) => Some(Endpoint(true, server, port, password, "", sni))
    case ShadowsocksOut(_, server, port, cipher, password) => Some(Endpoint(false, server, port, password, cipher, ""))
  }

  function Endpoints(xs: seq<Proxy>): (r: seq<Endpoint>)
    ensures |r| == |xs| && forall i :: 0 <= i < |xs| ==> r[i] == EndpointOf(xs[i])
  {
    seq(|xs|, i requires 0 <= i < |xs| => EndpointOf(xs[i]))
  }

  function ClashEndpoints(xs: seq<Clash.ClashProxy>): (r: seq<Endpoint>)
    ensures |r| == |xs| && forall i :: 0 <= i < |xs| ==> r[i] == ClashEndpoint(xs[i])
  {
    seq(|xs|, i requires 0 <= i < |xs| => ClashEndpoint(xs[i]))
  }

  function ConfEndpoints(es: seq<SR.Entry>): (r: seq<Endpoint>)
    ensures |r| == |es| && forall i :: 0 <= i < |es| ==> r[i] == ConfEndpoint(es[i])
  {
    seq(|es|, i requires 0 <= i < |es| => ConfEndpoint(es[i]))
  }

  function OutboundEndpoints(os: seq<Outbound>): seq<Endpoint> {
    if os == [] then []
    else OutboundEndpoints(os[..|os| - 1]) +
         match OutboundEndpoint(os[|os| - 1]) case None => [] case Some(e) => [e]
  }

  // ----- what a valid node list guarantees -----

  lemma ValidHostLinks(h: string)
    requires GoValidHost(h)
    ensures LinkHost(h)
  {
    if '#' in h { ValidHostChars(h, '#'); }
    if '?' in h { ValidHostChars(h, '?'); }
    if '\n' in h { ValidHostChars(h, '\n'); }
    forall i | 0 <= i < |h| ensures (h[i] as int) < 128 { ValidHostChars(h, h[i]); }
  }

  lemma ValidNodeHost(n: Node)
    requires ValidNode(n)
    ensures LinkHost(n.host)
  {
    assert GoValidHost(n.host);
    ValidHostLinks(n.host);
  }

  lemma ProxyHost(n: Node, p: Protocol, x: ByteProxy)
    requires x in ProxyOf(n, p)
    ensures x.host == n.host
  {
  }

  lemma ValidHosts(nodes: seq<Node>)
    requires ValidNodes(nodes)
    ensures LinkHosts(Proxies(nodes))
  {
    forall i | 0 <= i < |Proxies(nodes)| ensures LinkHost(Proxies(nodes)[i].host) {
      var x := Proxies(nodes)[i];
      ProxySource(nodes, x);
      var n, p :| n in nodes && p in n.protocols && x in ProxyOf(n, p);
      ProxyHost(n, p, x);
      ValidNodeHost(n);
    }
  }

  function ProtocolCount(nodes: seq<Node>): nat {
    if nodes == [] then 0 else ProtocolCount(nodes[..|nodes| - 1]) + |nodes[|nodes| - 1].protocols|
  }

  lemma {:induction false} ValidKinds(node: Node, ps: seq<Protocol>)
    requires GoProtocolsProblem(ps) == None
    ensures forall i :: 0 <= i < |ps| ==> |ProxyOf(node, ps[i])| == 1
  {
    if ps != [] {
      ValidKinds(node, ps[1..]);
      assert forall i :: 1 <= i < |ps| ==> ps[i] == ps[1..][i - 1];
    }
  }

  lemma {:induction false} NodeProxyCount(node: Node, ps: seq<Protocol>)
    requires forall i :: 0 <= i < |ps| ==> |ProxyOf(node, ps[i])| == 1
    ensures |NodeProxies(node, ps)| == |ps|
  {
    if ps != [] { NodeProxyCount(node, ps[..|ps| - 1]); }
  }

  /** Nothing is dropped: a valid node list yields one proxy per protocol entry. */
  lemma {:induction false} OneProxyEach(nodes: seq<Node>)
    requires ValidNodes(nodes)
    ensures |Proxies(nodes)| == ProtocolCount(nodes)
  {
    if nodes != [] {
      var last := nodes[|nodes| - 1];
      OneProxyEach(nodes[..|nodes| - 1]);
      assert ValidNode(last);
      ValidKinds(last, last.protocols);
      NodeProxyCount(last, last.protocols);
    }
  }

  // ----- one format at a time -----

  lemma RecoveredEndpoint(x: Proxy)
    ensures EndpointOf(Recovered(x)) == EndpointOf(x) <==> ColonFree(x)
  {
    RecoveredExactly(x);
    if x.Shadowsocks? { CutFirstParts(x.cipher, ':'); }
  }

  lemma LinksSaySame(xs: seq<Proxy>)
    ensures Endpoints(AllRecovered(xs)) == Endpoints(xs) <==> forall i :: 0 <= i < |xs| ==> ColonFree(xs[i])
  {
    forall i | 0 <= i < |xs| ensures EndpointOf(Recovered(xs[i])) == EndpointOf(xs[i]) <==> ColonFree(xs[i]) {
      RecoveredEndpoint(xs[i]);
    }
    if Endpoints(AllRecovered(xs)) == Endpoints(xs) {
      forall i | 0 <= i < |xs| ensures ColonFree(xs[i]) {
        assert Endpoints(AllRecovered(xs))[i] == Endpoints(xs)[i];
      }
    }
  }

  lemma ClashSaysSame(xs: seq<Proxy>)
    ensures ClashEndpoints(Clash.ClashAll(xs)) == Endpoints(xs)
  {
    Clash.ClashAllAt(xs);
  }

  /** No value the configuration prints has a line break or a literal `%2C`. */
  predicate ConfRestorable(x: Proxy) {
    SR.Restorable(x.host) && SR.Restorable(x.password) &&
    match x
    case Trojan(_, host, _, _, sni, _) => SR.Restorable(EffectiveSNI(sni, host))
    case Shadowsocks(_, _, _, cipher, _) => SR.Restorable(cipher)
  }

  lemma ConfEntryEndpoint(side: Side, x: Proxy)
    ensures ConfEndpoint(SR.EntryOf(side, x)) == EndpointOf(x) <==> ConfRestorable(x)
  {
    SR.SafeValueRestored(x.host);
    SR.SafeValueRestored(x.password);
    if x.Trojan? { SR.SafeValueRestored(EffectiveSNI(x.sni, x.host)); } else { SR.SafeValueRestored(x.cipher); }
  }

  lemma ConfSaysSame(side: Side, xs: seq<Proxy>)
    ensures ConfEndpoints(SR.Entries(side, xs)) == Endpoints(xs) <==>
            forall i :: 0 <= i < |xs| ==> ConfRestorable(xs[i])
  {
    SR.EntriesAt(side, xs);
    var es := ConfEndpoints(SR.Entries(side, xs));
    forall i | 0 <= i < |xs| ensures es[i] == Endpoints(xs)[i] <==> ConfRestorable(xs[i]) {
      ConfEntryEndpoint(side, xs[i]);
    }
  }

  lemma OutboundEndpointsLast(os: seq<Outbound>, o: Outbound, e: Endpoint)
    requires OutboundEndpoint(o) == Some(e)
    ensures OutboundEndpoints(os + [o]) == OutboundEndpoints(os) + [e]
  {
    assert (os + [o])[..|os|] == os;
  }

  lemma EndpointsLast(xs: seq<Proxy>, x: Proxy)
    ensures Endpoints(xs + [x]) == Endpoints(xs) + [EndpointOf(x)]
  {
  }

  lemma DirectOnly()
    ensures Outbounds([]) == [Direct("direct")] && OutboundEndpoints([Direct("direct")]) == [] && Endpoints([]) == []
  {
    assert [Direct("direct")][..0] == [];
  }

  lemma OutboundSays(x: ByteProxy)
    ensures OutboundEndpoint(OutboundOf(x)) == Some(EndpointOf(x))
  {
  }

  lemma {:induction false} OutboundsSaySame(xs: seq<ByteProxy>)
    ensures OutboundEndpoints(Outbounds(xs)) == Endpoints(xs)
  {
    hide Outbounds, OutboundEndpoints, Endpoints, OutboundOf, EndpointOf;
    if xs == [] {
      DirectOnly();
    } else {
      var init, last := xs[..|xs| - 1], xs[|xs| - 1];
      OutboundsSaySame(init);
      assert xs == init + [last];
      OutboundsLast(init, last);
      OutboundSays(last);
      OutboundEndpointsLast(Outbounds(init), OutboundOf(last), EndpointOf(last));
      EndpointsLast(init, last);
    }
  }

  // ----- the link list as bytes -----

  /** All characters are below the limit: 256 for bytes, 128 for ASCII. */
  predicate Below(s: string, limit: int) {
    forall i :: 0 <= i < |s| ==> (s[i] as int) < limit
  }

  lemma EscapedBelow(style: Escape.Style, s: Bytes)
    ensures Below(Escape.Escape(style, s), 128)
  {
    forall i | 0 <= i < |Escape.Escape(style, s)| ensures (Escape.Escape(style, s)[i] as int) < 128 {
      Escape.EscapedChars(style, s, Escape.Escape(style, s)[i]);
    }
  }

  lemma LinkBelow(main: string, query: string, fragment: string, limit: int)
    requires Below(main, limit) && Below(query, limit) && Below(fragment, limit) && limit >= 128
    ensures Below(LinkText(main, query, fragment), limit)
  {
  }

  lemma AuthorityBelow(scheme: string, user: string, host: string, port: int, limit: int)
    requires Below(scheme, limit) && Below(user, limit) && Below(host, limit) && limit >= 128
    ensures Below(scheme + Authority(user, host, port), limit)
  {
    var digits := PrintInt(port);
    forall i | 0 <= i < |digits| ensures (digits[i] as int) < limit { PrintIntChars(port, digits[i]); }
  }

  lemma QueryBelow(form: Escape.Style, pairs: seq<Pair>)
    ensures Below(QueryText(form, pairs), 128)
  {
    hide QueryText, ParseQuery;
    var query := QueryText(form, pairs);
    QueryRoundTrip(form, pairs);
    forall i | 0 <= i < |query| ensures (query[i] as int) < 128 { assert query[i] in query; }
  }

  lemma TrojanBelow(style: Escape.Style, form: Escape.Style, x: ByteProxy, pairs: seq<Pair>, limit: int)
    requires x.Trojan? && Below(x.host, limit) && limit >= 128
    ensures Below(LinkText("trojan://" + Authority(Escape.Escape(style, x.password), x.host, x.port),
                           QueryText(form, pairs), Escape.Escape(style, x.name)), limit)
  {
    var user := Escape.Escape(style, x.password);
    EscapedBelow(style, x.name);
    EscapedBelow(style, x.password);
    QueryBelow(form, pairs);
    AuthorityBelow("trojan://", user, x.host, x.port, limit);
    LinkBelow("trojan://" + Authority(user, x.host, x.port), QueryText(form, pairs),
              Escape.Escape(style, x.name), limit);
  }

  lemma EncodedBelow(s: Bytes)
    ensures Below(Base64.Encode(Base64.Url, false, s), 128)
  {
    var user := Base64.Encode(Base64.Url, false, s);
    assert user == Base64.Digits(Base64.Url, Base64.Pack(s));
    forall i | 0 <= i < |user| ensures (user[i] as int) < 128 { DigitsChars(Base64.Pack(s), user[i]); }
  }

  lemma ShadowsocksBelow(style: Escape.Style, name: Bytes, host: string, port: int, secret: Bytes, limit: int)
    requires Below(host, limit) && limit >= 128
    ensures Below(LinkText("ss://" + Authority(Base64.Encode(Base64.Url, false, secret), host, port), "",
                           Escape.Escape(style, name)), limit)
  {
    var user := Base64.Encode(Base64.Url, false, secret);
    EscapedBelow(style, name);
    EncodedBelow(secret);
    AuthorityBelow("ss://", user, host, port, limit);
    LinkBelow("ss://" + Authority(user, host, port), "", Escape.Escape(style, name), limit);
  }

  lemma GoLinkBelow(x: ByteProxy, limit: int)
    requires Below(x.host, limit) && limit >= 128
    ensures Below(GoLink(x), limit)
  {
    if x.Trojan? {
      TrojanBelow(Escape.GoQuery, Escape.GoQuery, x, Order.Sort(GoParams(x.sni, x.tls), PairKey), limit);
    } else {
      ShadowsocksBelow(Escape.GoQuery, x.name, x.host, x.port, Secret(x), limit);
    }
  }

  lemma WorkerLinkBelow(x: ByteProxy)
    requires IsAscii(x.host) && WorkerLink(x).Some?
    ensures Below(WorkerLink(x).value, 128)
  {
    if x.Trojan? {
      TrojanBelow(Escape.JsComponent, Escape.JsForm, x, WorkerParams(x.sni, x.tls), 128);
    } else {
      Base64.JsUrlEncodeIs(Secret(x));
      ShadowsocksBelow(Escape.JsComponent, x.name, x.host, x.port, Latin1(Secret(x)).value, 128);
    }
  }

  lemma {:induction false} JoinBelow(parts: seq<string>, limit: int)
    requires limit >= 128 && forall i :: 0 <= i < |parts| ==> Below(parts[i], limit)
    ensures Below(Join(parts, "\n"), limit)
  {
    if |parts| > 1 { JoinBelow(parts[1..], limit); }
  }

  lemma GoListBytes(xs: seq<ByteProxy>)
    ensures AllBytes(ListText(GoLinks(xs)))
  {
    forall i | 0 <= i < |xs| ensures Below(GoLinks(xs)[i], 256) { GoLinkBelow(xs[i], 256); }
    JoinBelow(GoLinks(xs), 256);
  }

  lemma WorkerListAscii(xs: seq<ByteProxy>)
    requires LinkHosts(xs) && WorkerListText(xs).Some?
    ensures IsAscii(WorkerListText(xs).value)
  {
    var links := WorkerLinks(xs).value;
    WorkerLinksSome(xs);
    forall i | 0 <= i < |links| ensures Below(links[i], 128) {
      WorkerLinksAt(xs, i);
      WorkerLinkBelow(xs[i]);
    }
    JoinBelow(links, 128);
  }

  /** Go's base64 subscription. */
  function GoBase64(xs: seq<ByteProxy>): string {
    GoListBytes(xs);
    Base64.Encode(Base64.Std, true, ListText(GoLinks(xs)))
  }

  /** The Worker's; None where it throws. */
  function WorkerBase64(xs: seq<ByteProxy>): Option<string> {
    var text :- WorkerListText(xs);
    Base64.Btoa(text)
  }

  function ParseBase64(s: string): Option<seq<Proxy>> {
    var text :- Base64.Decode(Base64.Std, true, s);
    ParseLinks(text)
  }

  lemma GoBase64Read(xs: seq<ByteProxy>)
    ensures ParseBase64(GoBase64(xs)) == ParseLinks(ListText(GoLinks(xs)))
  {
    GoListBytes(xs);
    Base64.RoundTrip(Base64.Std, true, ListText(GoLinks(xs)));
  }

  /** Encoding the list never throws by itself: the list is ASCII. */
  lemma WorkerBase64Read(xs: seq<ByteProxy>)
    requires LinkHosts(xs)
    ensures WorkerBase64(xs).Some? <==> WorkerListText(xs).Some?
    ensures WorkerBase64(xs).Some? ==> ParseBase64(WorkerBase64(xs).value) == ParseLinks(WorkerListText(xs).value)
  {
    if WorkerListText(xs).Some? {
      var text := WorkerListText(xs).value;
      WorkerListAscii(xs);
      Latin1Same(text);
      Base64.RoundTrip(Base64.Std, true, text);
    }
  }
}
