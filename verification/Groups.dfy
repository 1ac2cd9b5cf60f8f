/** When the names a format prints for its proxies tell them apart, whatever the format does to a name. */
module Groups {
  import opened Text
  import opened Nodes

  predicate Distinct(names: seq<string>) {
    forall i, j :: 0 <= i < j < |names| ==> names[i] != names[j]
  }

  /** What is printed as the name of a proxy by a format that shows the node name by `base` and keeps the suffix. */
  function Label(base: string -> string, x: Proxy): string { base(Stem(x)) + SuffixFor(x) }

  /** The printed names. */
  function Shows(base: string -> string, xs: seq<Proxy>): (r: seq<string>)
    ensures |r| == |xs|
  {
    if xs == [] then [] else Shows(base, xs[..|xs| - 1]) + [Label(base, xs[|xs| - 1])]
  }

  lemma {:induction false} ShowsAt(base: string -> string, xs: seq<Proxy>)
    ensures forall i :: 0 <= i < |xs| ==> Shows(base, xs)[i] == Label(base, xs[i])
  {
    if xs != [] { ShowsAt(base, xs[..|xs| - 1]); }
  }

  /** A type the printers know. */
  predicate IsPrinted(kind: string) { kind == "trojan" || kind == "shadowsocks" }

  predicate KindsSeparate(ps: seq<Protocol>) {
    forall i, j :: 0 <= i < j < |ps| && IsPrinted(ps[i].kind) ==> ps[i].kind != ps[j].kind
  }

  /** No node announces one of these types twice. */
  predicate NoKindTwice(nodes: seq<Node>) {
    forall i :: 0 <= i < |nodes| ==> KindsSeparate(nodes[i].protocols)
  }

  predicate Announces(node: Node, kind: string) {
    exists p :: p in node.protocols && p.kind == kind
  }

  /** Both nodes announce a protocol of one and the same type. */
  predicate SharesKind(a: Node, b: Node) {
    (Announces(a, "trojan") && Announces(b, "trojan")) || (Announces(a, "shadowsocks") && Announces(b, "shadowsocks"))
  }

  predicate Clashes(base: string -> string, a: Node, b: Node) {
    SharesKind(a, b) && base(a.name) == base(b.name)
  }

  /** No two nodes that announce the same type are shown by the same name. */
  predicate Separate(base: string -> string, nodes: seq<Node>) {
    forall i, j :: 0 <= i < j < |nodes| ==> !Clashes(base, nodes[i], nodes[j])
  }

  // ----- one pair of proxies -----

  lemma SuffixesDiffer(a: string, b: string, s: string, t: string)
    requires Suffix(s) && Suffix(t)
    ensures a + s == b + t <==> a == b && s == t
  {
    var x, y := a + s, b + t;
    assert x[|x| - 1] == s[|s| - 1] && y[|y| - 1] == t[|t| - 1];
    if x == y && s == t { assert a == x[..|a|] && b == y[..|b|]; }
  }

  /** Two proxies are shown by one name exactly when they are of one type and their nodes are shown by one name. */
  lemma ShownSame(base: string -> string, a: Node, p: Protocol, x: ByteProxy,
                  b: Node, q: Protocol, y: ByteProxy)
    requires x in ProxyOf(a, p) && y in ProxyOf(b, q)
    ensures Label(base, x) == Label(base, y) <==> p.kind == q.kind && base(a.name) == base(b.name)
  {
    ProxyNamed(a, p, x);
    ProxyNamed(b, q, y);
    SuffixesDiffer(base(a.name), base(b.name), SuffixFor(x), SuffixFor(y));
  }

  // ----- lists -----

  predicate Crossed(base: string -> string, xs: seq<Proxy>, ys: seq<Proxy>) {
    exists i, j :: 0 <= i < |xs| && 0 <= j < |ys| && Label(base, xs[i]) == Label(base, ys[j])
  }

  lemma DistinctParts(a: seq<string>, b: seq<string>)
    ensures Distinct(a + b) <==>
            Distinct(a) && Distinct(b) && forall i, j :: 0 <= i < |a| && 0 <= j < |b| ==> a[i] != b[j]
  {
    var c := a + b;
    if Distinct(c) {
      forall i, j | 0 <= i < j < |a| ensures a[i] != a[j] { assert c[i] == a[i] && c[j] == a[j]; }
      forall i, j | 0 <= i < j < |b| ensures b[i] != b[j] { assert c[|a| + i] == b[i] && c[|a| + j] == b[j]; }
      forall i, j | 0 <= i < |a| && 0 <= j < |b| ensures a[i] != b[j] { assert c[i] == a[i] && c[|a| + j] == b[j]; }
    }
  }

  lemma {:induction false} ShowsAppend(base: string -> string, xs: seq<Proxy>, ys: seq<Proxy>)
    ensures Shows(base, xs + ys) == Shows(base, xs) + Shows(base, ys)
  {
    if ys == [] {
      assert xs + ys == xs;
    } else {
      var init, last := ys[..|ys| - 1], ys[|ys| - 1];
      assert (xs + ys)[..|xs + ys| - 1] == xs + init;
      ShowsAppend(base, xs, init);
      Associate(Shows(base, xs), Shows(base, init), [Label(base, last)]);
    }
  }

  lemma DistinctAppend(base: string -> string, xs: seq<Proxy>, ys: seq<Proxy>)
    ensures Distinct(Shows(base, xs + ys)) <==>
            Distinct(Shows(base, xs)) && Distinct(Shows(base, ys)) && !Crossed(base, xs, ys)
  {
    ShowsAppend(base, xs, ys);
    DistinctParts(Shows(base, xs), Shows(base, ys));
    ShowsAt(base, xs);
    ShowsAt(base, ys);
  }

  lemma OwnApart(base: string -> string, node: Node, ps: seq<Protocol>, last: Protocol, x: ByteProxy, y: ByteProxy)
    requires x in NodeProxies(node, ps) && y in ProxyOf(node, last) && Label(base, x) == Label(base, y)
    ensures exists i :: 0 <= i < |ps| && IsPrinted(ps[i].kind) && ps[i].kind == last.kind
  {
    NodeProxySource(node, ps, x);
    var p :| p in ps && x in ProxyOf(node, p);
    ShownSame(base, node, p, x, node, last, y);
    var i :| 0 <= i < |ps| && ps[i] == p;
    assert IsPrinted(ps[i].kind);
  }

  lemma OwnTwice(base: string -> string, node: Node, ps: seq<Protocol>, i: nat, last: Protocol)
    requires i < |ps| && IsPrinted(ps[i].kind) && ps[i].kind == last.kind
    ensures Crossed(base, NodeProxies(node, ps), ProxyOf(node, last))
  {
    var xs, x, y := NodeProxies(node, ps), ProxyOf(node, ps[i])[0], ProxyOf(node, last)[0];
    NodeProxyListed(node, ps, ps[i], x);
    ShownSame(base, node, ps[i], x, node, last, y);
    var k :| 0 <= k < |xs| && xs[k] == x;
    assert Label(base, xs[k]) == Label(base, ProxyOf(node, last)[0]);
  }

  predicate MeetsAgain(ps: seq<Protocol>, last: Protocol) {
    exists i :: 0 <= i < |ps| && IsPrinted(ps[i].kind) && ps[i].kind == last.kind
  }

  lemma KindsSeparateLast(init: seq<Protocol>, last: Protocol)
    ensures KindsSeparate(init + [last]) <==> KindsSeparate(init) && !MeetsAgain(init, last)
  {
    var ps := init + [last];
    assert ps[|init|] == last && forall i :: 0 <= i < |init| ==> ps[i] == init[i];
    if KindsSeparate(ps) {
      forall i | 0 <= i < |init| && IsPrinted(init[i].kind) ensures init[i].kind != last.kind {
        assert ps[i].kind != ps[|init|].kind;
      }
      forall i, j | 0 <= i < j < |init| && IsPrinted(init[i].kind) ensures init[i].kind != init[j].kind {
        assert ps[i].kind != ps[j].kind;
      }
    }
  }

  lemma OwnCrossed(base: string -> string, node: Node, init: seq<Protocol>, last: Protocol)
    ensures Crossed(base, NodeProxies(node, init), ProxyOf(node, last)) <==> MeetsAgain(init, last)
  {
    var before, own := NodeProxies(node, init), ProxyOf(node, last);
    if Crossed(base, before, own) {
      var i, j :| 0 <= i < |before| && 0 <= j < |own| && Label(base, before[i]) == Label(base, own[j]);
      OwnApart(base, node, init, last, before[i], own[j]);
    }
    if MeetsAgain(init, last) {
      var i :| 0 <= i < |init| && IsPrinted(init[i].kind) && init[i].kind == last.kind;
      OwnTwice(base, node, init, i, last);
    }
  }

  /** The names of one node's proxies are distinct exactly when it announces no type twice. */
  lemma {:induction false} OwnDistinct(base: string -> string, node: Node, ps: seq<Protocol>)
    ensures Distinct(Shows(base, NodeProxies(node, ps))) <==> KindsSeparate(ps)
  {
    if ps != [] {
      var init, last := ps[..|ps| - 1], ps[|ps| - 1];
      assert ps == init + [last];
      OwnDistinct(base, node, init);
      SingleDistinct(base, ProxyOf(node, last));
      DistinctAppend(base, NodeProxies(node, init), ProxyOf(node, last));
      OwnCrossed(base, node, init, last);
      KindsSeparateLast(init, last);
    }
  }

  lemma SingleDistinct(base: string -> string, xs: seq<Proxy>)
    requires |xs| <= 1
    ensures Distinct(Shows(base, xs))
  {
  }

  lemma ClashFound(base: string -> string, n: Node, p: Protocol, x: ByteProxy, m: Node, q: Protocol)
    requires p in n.protocols && q in m.protocols && x in ProxyOf(n, p) && p.kind == q.kind &&
             base(n.name) == base(m.name)
    ensures Clashes(base, n, m)
  {
    assert p.kind == "trojan" || p.kind == "shadowsocks";
    assert Announces(n, p.kind) && Announces(m, q.kind);
  }

  lemma SourceClash(base: string -> string, nodes: seq<Node>, n: Node, p: Protocol, x: ByteProxy, m: Node, q: Protocol,
                    y: ByteProxy)
    requires n in nodes && p in n.protocols && x in ProxyOf(n, p) && q in m.protocols && y in ProxyOf(m, q)
    requires Label(base, x) == Label(base, y)
    ensures exists i :: 0 <= i < |nodes| && Clashes(base, nodes[i], m)
  {
    ShownSame(base, n, p, x, m, q, y);
    ClashFound(base, n, p, x, m, q);
    var k :| 0 <= k < |nodes| && nodes[k] == n;
    assert Clashes(base, nodes[k], m);
  }

  lemma CrossedClash(base: string -> string, nodes: seq<Node>, x: ByteProxy, m: Node, y: ByteProxy)
    requires x in Proxies(nodes) && y in NodeProxies(m, m.protocols) && Label(base, x) == Label(base, y)
    ensures exists i :: 0 <= i < |nodes| && Clashes(base, nodes[i], m)
  {
    hide *;
    ProxySource(nodes, x);
    var n, p :| n in nodes && p in n.protocols && x in ProxyOf(n, p);
    NodeProxySource(m, m.protocols, y);
    var q :| q in m.protocols && y in ProxyOf(m, q);
    SourceClash(base, nodes, n, p, x, m, q, y);
  }

  lemma SharedKind(a: Node, b: Node) returns (p: Protocol, q: Protocol)
    requires SharesKind(a, b)
    ensures p in a.protocols && q in b.protocols && p.kind == q.kind && (p.kind == "trojan" || p.kind == "shadowsocks")
  {
    if Announces(a, "trojan") && Announces(b, "trojan") {
      p :| p in a.protocols && p.kind == "trojan";
      q :| q in b.protocols && q.kind == "trojan";
    } else {
      p :| p in a.protocols && p.kind == "shadowsocks";
      q :| q in b.protocols && q.kind == "shadowsocks";
    }
  }

  lemma ClashCrossed(base: string -> string, nodes: seq<Node>, i: nat, m: Node)
    requires i < |nodes| && Clashes(base, nodes[i], m)
    ensures Crossed(base, Proxies(nodes), NodeProxies(m, m.protocols))
  {
    var n := nodes[i];
    var p, q := SharedKind(n, m);
    var x, y := ProxyOf(n, p)[0], ProxyOf(m, q)[0];
    ProxyListed(nodes, n, p, x);
    NodeProxyListed(m, m.protocols, q, y);
    ShownSame(base, n, p, x, m, q, y);
    var xs, ys := Proxies(nodes), NodeProxies(m, m.protocols);
    var k :| 0 <= k < |xs| && xs[k] == x;
    var l :| 0 <= l < |ys| && ys[l] == y;
    assert Label(base, xs[k]) == Label(base, ys[l]);
  }

  lemma SeparateLast(base: string -> string, init: seq<Node>, m: Node)
    ensures Separate(base, init + [m]) <==>
            Separate(base, init) && forall i :: 0 <= i < |init| ==> !Clashes(base, init[i], m)
  {
    var nodes := init + [m];
    assert nodes[|init|] == m && forall i :: 0 <= i < |init| ==> nodes[i] == init[i];
    if Separate(base, nodes) {
      forall i | 0 <= i < |init| ensures !Clashes(base, init[i], m) {
        assert !Clashes(base, nodes[i], nodes[|init|]);
      }
      forall i, j | 0 <= i < j < |init| ensures !Clashes(base, init[i], init[j]) {
        assert !Clashes(base, nodes[i], nodes[j]);
      }
    }
  }

  lemma NoKindTwiceLast(init: seq<Node>, m: Node)
    ensures NoKindTwice(init + [m]) <==> NoKindTwice(init) && KindsSeparate(m.protocols)
  {
    var nodes := init + [m];
    assert nodes[|init|] == m && forall i :: 0 <= i < |init| ==> nodes[i] == init[i];
    if NoKindTwice(nodes) {
      assert KindsSeparate(nodes[|init|].protocols);
      forall i | 0 <= i < |init| ensures KindsSeparate(init[i].protocols) { assert KindsSeparate(nodes[i].protocols); }
    }
  }

  lemma NodesCrossed(base: string -> string, init: seq<Node>, m: Node)
    ensures Crossed(base, Proxies(init), NodeProxies(m, m.protocols)) <==>
            exists i :: 0 <= i < |init| && Clashes(base, init[i], m)
  {
    var before, own := Proxies(init), NodeProxies(m, m.protocols);
    if Crossed(base, before, own) {
      var i, j :| 0 <= i < |before| && 0 <= j < |own| && Label(base, before[i]) == Label(base, own[j]);
      CrossedClash(base, init, before[i], m, own[j]);
    }
    forall i | 0 <= i < |init| && Clashes(base, init[i], m) ensures Crossed(base, before, own) {
      ClashCrossed(base, init, i, m);
    }
  }

  /** All shown names are distinct if and only if no node announces a type twice and no two nodes announcing the same
      type are shown by the same name. */
  lemma {:induction false} NamesDistinct(base: string -> string, nodes: seq<Node>)
    ensures Distinct(Shows(base, Proxies(nodes))) <==> NoKindTwice(nodes) && Separate(base, nodes)
  {
    if nodes != [] {
      var init, m := nodes[..|nodes| - 1], nodes[|nodes| - 1];
      assert nodes == init + [m];
      NamesDistinct(base, init);
      OwnDistinct(base, m, m.protocols);
      DistinctAppend(base, Proxies(init), NodeProxies(m, m.protocols));
      NodesCrossed(base, init, m);
      NoKindTwiceLast(init, m);
      SeparateLast(base, init, m);
    }
  }
}
