/** The Clash subscription: both printers, and the parser that undoes them. */
module Clash {
  import opened Text
  import opened Nodes
  import opened Yaml
  import Groups

  const HEADER: seq<string> := ["mixed-port: 7890", "allow-lan: false", "mode: rule", "log-level: info", "proxies:"]

  const GROUP_HEADER: seq<string> := ["proxy-groups:", "  - name: PROXY", "    type: select", "    proxies:"]

  const FOOTER: seq<string> := [
    "      - DIRECT",
    "rule-providers:",
    "  direct:", "    type: http", "    behavior: domain",
    "    url: \"https://cdn.jsdelivr.net/gh/Loyalsoldier/clash-rules@release/direct.txt\"",
    "    path: ./ruleset/direct.yaml", "    interval: 86400",
    "  proxy:", "    type: http", "    behavior: domain",
    "    url: \"https://cdn.jsdelivr.net/gh/Loyalsoldier/clash-rules@release/proxy.txt\"",
    "    path: ./ruleset/proxy.yaml", "    interval: 86400",
    "  cncidr:", "    type: http", "    behavior: ipcidr",
    "    url: \"https://cdn.jsdelivr.net/gh/Loyalsoldier/clash-rules@release/cncidr.txt\"",
    "    path: ./ruleset/cncidr.yaml", "    interval: 86400",
    "  lancidr:", "    type: http", "    behavior: ipcidr",
    "    url: \"https://cdn.jsdelivr.net/gh/Loyalsoldier/clash-rules@release/lancidr.txt\"",
    "    path: ./ruleset/lancidr.yaml", "    interval: 86400",
    "rules:",
    "  - RULE-SET,lancidr,DIRECT", "  - RULE-SET,direct,DIRECT", "  - RULE-SET,cncidr,DIRECT",
    "  - RULE-SET,proxy,PROXY", "  - GEOIP,CN,DIRECT", "  - MATCH,PROXY"]

  function Plains(texts: seq<string>): seq<Line> {
    if texts == [] then [] else [Plain(texts[0])] + Plains(texts[1..])
  }

  function ProxyLines(x: Proxy): seq<Line> {
    match x
    case Trojan(name, host, port, password, sni, _) =>
      [Quote("  - name: ", name), Plain("    type: trojan"), Quote("    server: ", host), Num("    port: ", port),
       Quote("    password: ", password), Quote("    sni: ", EffectiveSNI(sni, host)),
       Plain("    skip-cert-verify: false"), Plain("    udp: true")]
    case Shadowsocks(name, host, port, cipher, password) =>
      [Quote("  - name: ", name), Plain("    type: ss"), Quote("    server: ", host), Num("    port: ", port),
       Quote("    cipher: ", cipher), Quote("    password: ", password), Plain("    udp: true")]
  }

  function EntryLines(xs: seq<Proxy>): seq<Line> {
    if xs == [] then [] else EntryLines(xs[..|xs| - 1]) + ProxyLines(xs[|xs| - 1])
  }

  function Names(xs: seq<Proxy>): (r: seq<string>)
    ensures |r| == |xs|
  {
    if xs == [] then [] else Names(xs[..|xs| - 1]) + [xs[|xs| - 1].name]
  }

  function ItemLines(names: seq<string>): seq<Line> {
    if names == [] then [] else ItemLines(names[..|names| - 1]) + [Quote("      - ", names[|names| - 1])]
  }

  /** A document between fixed texts, line by line. */
  function FrameLines(header: seq<string>, middle: seq<string>, footer: seq<string>, xs: seq<Proxy>): seq<Line> {
    Plains(header) + EntryLines(xs) + Plains(middle) + ItemLines(Names(xs)) + Plains(footer)
  }

  function ClashLines(xs: seq<Proxy>): seq<Line> { FrameLines(HEADER, GROUP_HEADER, FOOTER, xs) }

  function ClashText(xs: seq<Proxy>): string { DocText(ClashLines(xs)) }

  // ----- the parser -----

  datatype ClashProxy =
    | ClashTrojan(name: string, server: string, port: int, password: string, sni: string)
    | ClashShadowsocks(name: string, server: string, port: int, cipher: string, password: string)

  datatype ClashDoc = ClashDoc(proxies: seq<ClashProxy>, group: seq<string>)

  const TROJAN_SHAPE: seq<Line> := [
    Quote("  - name: ", ""), Plain("    type: trojan"), Quote("    server: ", ""), Num("    port: ", 0),
    Quote("    password: ", ""), Quote("    sni: ", ""), Plain("    skip-cert-verify: false"), Plain("    udp: true")]

  const SHADOWSOCKS_SHAPE: seq<Line> := [
    Quote("  - name: ", ""), Plain("    type: ss"), Quote("    server: ", ""), Num("    port: ", 0),
    Quote("    cipher: ", ""), Quote("    password: ", ""), Plain("    udp: true")]

  /** The value on the first line with the key. */
  function ValueUnder(key: string, lines: seq<Line>): string {
    if lines == [] then "" else if lines[0].Quote? && lines[0].key == key then lines[0].value
    else ValueUnder(key, lines[1..])
  }

  function NumberUnder(key: string, lines: seq<Line>): int {
    if lines == [] then 0 else if lines[0].Num? && lines[0].key == key then lines[0].number
    else NumberUnder(key, lines[1..])
  }

  /** The proxy that a block of lines describes: each value is looked up by its key. */
  function ProxyFrom(lines: seq<Line>): ClashProxy {
    var name, server := ValueUnder("  - name: ", lines), ValueUnder("    server: ", lines);
    var port, password := NumberUnder("    port: ", lines), ValueUnder("    password: ", lines);
    if Plain("    type: trojan") in lines then ClashTrojan(name, server, port, password, ValueUnder("    sni: ", lines))
    else ClashShadowsocks(name, server, port, ValueUnder("    cipher: ", lines), password)
  }

  function ParseEither(trojan: seq<Line>, shadowsocks: seq<Line>, s: string): (r: Option<(ClashProxy, string)>)
    requires |trojan| >= 7 && |shadowsocks| >= 7
    ensures r.Some? ==> |r.value.1| < |s|
  {
    var (l, rest) :- ScanEither(trojan, shadowsocks, s);
    Some((ProxyFrom(l), rest))
  }

  function ParseProxy(s: string): (r: Option<(ClashProxy, string)>)
    ensures r.Some? ==> |r.value.1| < |s|
  {
    Shapes();
    ParseEither(TROJAN_SHAPE, SHADOWSOCKS_SHAPE, s)
  }

  function ParseProxies(s: string): Option<(seq<ClashProxy>, string)>
    decreases |s|
  {
    if !("  - name: " <= s) then Some(([], s))
    else
      var (first, after) :- ParseProxy(s);
      var (more, rest) :- ParseProxies(after);
      Some(([first] + more, rest))
  }

  function ParseItems(s: string): Option<(seq<string>, string)>
    decreases |s|
  {
    if !("      - \"" <= s) then Some(([], s))
    else
      var (item, after) :- ScanLine(Quote("      - ", ""), s);
      var (more, rest) :- ParseItems(after);
      Some(([ValueOf(item)] + more, rest))
  }

  function ParseFrame(header: seq<string>, middle: seq<string>, footer: seq<string>, s: string): Option<ClashDoc> {
    var (_, s1) :- Scan(Plains(header), s);
    var (proxies, s2) :- ParseProxies(s1);
    var (_, s3) :- Scan(Plains(middle), s2);
    var (group, s4) :- ParseItems(s3);
    var (_, s5) :- Scan(Plains(footer), s4);
    if s5 == "" then Some(ClashDoc(proxies, group)) else None
  }

  /** The whole document: what a client expects of its fixed lines, written out once more. */
  function ParseClash(s: string): Option<ClashDoc> {
    ParseFrame(
      ["mixed-port: 7890", "allow-lan: false", "mode: rule", "log-level: info", "proxies:"],
      ["proxy-groups:", "  - name: PROXY", "    type: select", "    proxies:"],
      [
        "      - DIRECT",
        "rule-providers:",
        "  direct:", "    type: http", "    behavior: domain",
        "    url: \"https://cdn.jsdelivr.net/gh/Loyalsoldier/clash-rules@release/direct.txt\"",
        "    path: ./ruleset/direct.yaml", "    interval: 86400",
        "  proxy:", "    type: http", "    behavior: domain",
        "    url: \"https://cdn.jsdelivr.net/gh/Loyalsoldier/clash-rules@release/proxy.txt\"",
        "    path: ./ruleset/proxy.yaml", "    interval: 86400",
        "  cncidr:", "    type: http", "    behavior: ipcidr",
        "    url: \"https://cdn.jsdelivr.net/gh/Loyalsoldier/clash-rules@release/cncidr.txt\"",
        "    path: ./ruleset/cncidr.yaml", "    interval: 86400",
        "  lancidr:", "    type: http", "    behavior: ipcidr",
        "    url: \"https://cdn.jsdelivr.net/gh/Loyalsoldier/clash-rules@release/lancidr.txt\"",
        "    path: ./ruleset/lancidr.yaml", "    interval: 86400",
        "rules:",
        "  - RULE-SET,lancidr,DIRECT", "  - RULE-SET,direct,DIRECT", "  - RULE-SET,cncidr,DIRECT",
        "  - RULE-SET,proxy,PROXY", "  - GEOIP,CN,DIRECT", "  - MATCH,PROXY"],
      s)
  }

  // ----- what is read back -----

  function ClashOf(x: Proxy): ClashProxy {
    match x
    case Trojan(name, host, port, password, sni, _) => ClashTrojan(name, host, port, password, EffectiveSNI(sni, host))
    case Shadowsocks(name, host, port, cipher, password) => ClashShadowsocks(name, host, port, cipher, password)
  }

  function ClashAll(xs: seq<Proxy>): (r: seq<ClashProxy>)
    ensures |r| == |xs|
  {
    if xs == [] then [] else [ClashOf(xs[0])] + ClashAll(xs[1..])
  }

  /** No printed value holds a control character (tab excepted). */
  predicate ClashQuotable(x: Proxy) {
    Quotable(x.name) && Quotable(x.host) && Quotable(x.password) &&
    match x
    case Trojan(_, host, _, _, sni, _) => Quotable(EffectiveSNI(sni, host))
    case Shadowsocks(_, _, _, cipher, _) => Quotable(cipher)
  }

  lemma ProxyLinesQuotable(x: Proxy)
    ensures AllQuotable(ProxyLines(x)) <==> ClashQuotable(x)
  {
    var l := ProxyLines(x);
    if AllQuotable(l) {
      assert LineQuotable(l[0]) && LineQuotable(l[2]) && LineQuotable(l[4]) && LineQuotable(l[5]);
    }
  }

  lemma {:induction false} PlainsBlank(texts: seq<string>)
    ensures Blanks(Plains(texts)) == Plains(texts) && AllQuotable(Plains(texts))
  {
    if texts != [] {
      PlainsBlank(texts[1..]);
      AllQuotableCons(Plain(texts[0]), Plains(texts[1..]));
      assert Plains(texts)[1..] == Plains(texts[1..]);
    }
  }

  lemma {:induction false} NamesAt(xs: seq<Proxy>)
    ensures forall i :: 0 <= i < |xs| ==> Names(xs)[i] == xs[i].name
  {
    if xs != [] { NamesAt(xs[..|xs| - 1]); }
  }

  lemma {:induction false} ClashAllAt(xs: seq<Proxy>)
    ensures forall i :: 0 <= i < |xs| ==> ClashAll(xs)[i] == ClashOf(xs[i])
  {
    if xs != [] { ClashAllAt(xs[1..]); }
  }

  lemma {:induction false} EntryLinesCons(xs: seq<Proxy>)
    requires xs != []
    ensures EntryLines(xs) == ProxyLines(xs[0]) + EntryLines(xs[1..])
  {
    if |xs| == 1 {
      assert xs[..0] == [];
    } else {
      EntryLinesCons(xs[..|xs| - 1]);
      assert xs[..|xs| - 1][1..] == xs[1..][..|xs[1..]| - 1];
      Associate(ProxyLines(xs[0]), EntryLines(xs[1..][..|xs[1..]| - 1]), ProxyLines(xs[|xs| - 1]));
    }
  }

  lemma {:induction false} ItemLinesCons(names: seq<string>)
    requires names != []
    ensures ItemLines(names) == [Quote("      - ", names[0])] + ItemLines(names[1..])
  {
    if |names| == 1 {
      assert names[..0] == [];
    } else {
      ItemLinesCons(names[..|names| - 1]);
      assert names[..|names| - 1][1..] == names[1..][..|names[1..]| - 1];
    }
  }

  lemma {:induction false} SameShape(a: seq<Line>, b: seq<Line>)
    requires |a| == |b| && forall i :: 0 <= i < |a| ==> Blank(a[i]) == Blank(b[i])
    ensures Blanks(a) == Blanks(b)
  {
    if a != [] { SameShape(a[1..], b[1..]); }
  }

  lemma {:induction false} SettledShape(lines: seq<Line>)
    requires forall i :: 0 <= i < |lines| ==> Blank(lines[i]) == lines[i]
    ensures Blanks(lines) == lines
  {
    if lines != [] {
      SettledShape(lines[1..]);
      assert lines == [lines[0]] + lines[1..];
    }
  }

  lemma TrojanShape(x: Proxy)
    requires x.Trojan?
    ensures Blanks(ProxyLines(x)) == TROJAN_SHAPE
  {
    hide Blanks;
    SettledShape(TROJAN_SHAPE);
    SameShape(ProxyLines(x), TROJAN_SHAPE);
  }

  lemma ShadowsocksShape(x: Proxy)
    requires x.Shadowsocks?
    ensures Blanks(ProxyLines(x)) == SHADOWSOCKS_SHAPE
  {
    hide Blanks;
    SettledShape(SHADOWSOCKS_SHAPE);
    SameShape(ProxyLines(x), SHADOWSOCKS_SHAPE);
  }

  lemma {:induction false} ValueFound(key: string, lines: seq<Line>, i: nat)
    requires i < |lines| && lines[i].Quote? && lines[i].key == key
    requires forall j :: 0 <= j < i ==> !(lines[j].Quote? && lines[j].key == key)
    ensures ValueUnder(key, lines) == lines[i].value
  {
    if i > 0 { ValueFound(key, lines[1..], i - 1); }
  }

  lemma {:induction false} NumberFound(key: string, lines: seq<Line>, i: nat)
    requires i < |lines| && lines[i].Num? && lines[i].key == key
    requires forall j :: 0 <= j < i ==> !(lines[j].Num? && lines[j].key == key)
    ensures NumberUnder(key, lines) == lines[i].number
  {
    if i > 0 { NumberFound(key, lines[1..], i - 1); }
  }

  lemma KeysDiffer()
    ensures "  - name: "[2] == '-' && "    server: "[2] == ' ' && "    server: "[4] == 's' && "    server: "[5] == 'e'
    ensures "    sni: "[2] == ' ' && "    sni: "[4] == 's' && "    sni: "[5] == 'n'
    ensures "    password: "[2] == ' ' && "    password: "[4] == 'p'
    ensures "    cipher: "[2] == ' ' && "    cipher: "[4] == 'c'
    ensures "    type: trojan"[10] == 't' && "    type: ss"[10] == 's' && "    udp: true"[4] == 'u'
  {
  }

  lemma TrojanFields(x: Proxy)
    requires x.Trojan?
    ensures ProxyFrom(ProxyLines(x)) == ClashOf(x)
  {
    hide ValueUnder, NumberUnder;
    var lines := ProxyLines(x);
    KeysDiffer();
    assert lines[1] == Plain("    type: trojan");
    ValueFound("  - name: ", lines, 0);
    ValueFound("    server: ", lines, 2);
    NumberFound("    port: ", lines, 3);
    ValueFound("    password: ", lines, 4);
    ValueFound("    sni: ", lines, 5);
  }

  lemma ShadowsocksFields(x: Proxy)
    requires x.Shadowsocks?
    ensures ProxyFrom(ProxyLines(x)) == ClashOf(x)
  {
    hide ValueUnder, NumberUnder;
    var lines := ProxyLines(x);
    KeysDiffer();
    assert Plain("    type: trojan") !in lines;
    ValueFound("  - name: ", lines, 0);
    ValueFound("    server: ", lines, 2);
    NumberFound("    port: ", lines, 3);
    ValueFound("    cipher: ", lines, 4);
    ValueFound("    password: ", lines, 5);
  }

  lemma ProxyFields(x: Proxy)
    ensures ProxyFrom(ProxyLines(x)) == ClashOf(x)
  {
    if x.Trojan? { TrojanFields(x); } else { ShadowsocksFields(x); }
  }

  lemma Shapes()
    ensures |TROJAN_SHAPE| == 8 && |SHADOWSOCKS_SHAPE| == 7 && TROJAN_SHAPE[0] == SHADOWSOCKS_SHAPE[0]
    ensures TROJAN_SHAPE[1] == Plain("    type: trojan") && SHADOWSOCKS_SHAPE[1] == Plain("    type: ss")
  {
  }

  lemma LinesRead(l: seq<Line>, rest: string)
    requires |l| >= 7
    requires || (Blanks(l) == TROJAN_SHAPE && Rival(SHADOWSOCKS_SHAPE, l))
             || (Blanks(l) == SHADOWSOCKS_SHAPE && Rival(TROJAN_SHAPE, l))
    ensures ParseProxy(DocText(l) + rest) == if AllQuotable(l) then Some((ProxyFrom(l), rest)) else None
  {
    hide ProxyFrom, ScanEither, Rival, Blanks, DocText;
    if Blanks(l) == TROJAN_SHAPE && Rival(SHADOWSOCKS_SHAPE, l) {
      ScanEitherRoundTrip(SHADOWSOCKS_SHAPE, l, rest);
    } else {
      ScanEitherRoundTrip(TROJAN_SHAPE, l, rest);
    }
  }

  lemma Rivals(x: Proxy)
    ensures if x.Trojan? then Rival(SHADOWSOCKS_SHAPE, ProxyLines(x)) else Rival(TROJAN_SHAPE, ProxyLines(x))
  {
    hide Blanks;
    Shapes();
    assert "    type: trojan"[10] == 't' && "    type: ss"[10] == 's';
    assert ProxyLines(x)[0] == Quote("  - name: ", x.name);
    assert ProxyLines(x)[1] == Plain(if x.Trojan? then "    type: trojan" else "    type: ss");
  }

  /** One proxy block is read back, and nothing after it is touched, exactly when its values can be quoted. */
  lemma ProxyRead(x: Proxy, rest: string)
    ensures ParseProxy(DocText(ProxyLines(x)) + rest) == if ClashQuotable(x) then Some((ClashOf(x), rest)) else None
  {
    Rivals(x);
    if x.Trojan? { TrojanShape(x); } else { ShadowsocksShape(x); }
    LinesRead(ProxyLines(x), rest);
    ProxyFields(x);
    ProxyLinesQuotable(x);
  }

  predicate AllClashQuotable(xs: seq<Proxy>) {
    forall i :: 0 <= i < |xs| ==> ClashQuotable(xs[i])
  }

  lemma AllClashQuotableCons(xs: seq<Proxy>)
    requires xs != []
    ensures AllClashQuotable(xs) <==> ClashQuotable(xs[0]) && AllClashQuotable(xs[1..])
    ensures ClashAll(xs) == [ClashOf(xs[0])] + ClashAll(xs[1..])
  {
    assert forall i :: 1 <= i < |xs| ==> xs[i] == xs[1..][i - 1];
  }

  lemma QuoteStart(l: seq<Line>, rest: string)
    requires l != [] && l[0].Quote?
    ensures l[0].key + "\"" <= DocText(l) + rest
  {
    QuoteRoundTrip(l[0].value, "");
    var q := YamlQuote(l[0].value);
    assert LineText(l[0]) == l[0].key + q && q[0] == '"';
  }

  lemma ProxyStep(s: string, x: Option<ClashProxy>, after: string, more: Option<seq<ClashProxy>>, rest: string)
    requires "  - name: " <= s && ParseProxy(s) == if x.Some? then Some((x.value, after)) else None
    requires ParseProxies(after) == if more.Some? then Some((more.value, rest)) else None
    ensures ParseProxies(s) == if x.Some? && more.Some? then Some(([x.value] + more.value, rest)) else None
  {
  }

  lemma NoProxiesRead(rest: string)
    requires !("  - name: " <= rest)
    ensures ParseProxies(DocText(EntryLines([])) + rest) == Some((ClashAll([]), rest)) && AllClashQuotable([])
  {
    assert DocText(EntryLines([])) + rest == rest;
  }

  lemma EntriesText(xs: seq<Proxy>, rest: string)
    requires xs != []
    ensures DocText(EntryLines(xs)) + rest == DocText(ProxyLines(xs[0])) + (DocText(EntryLines(xs[1..])) + rest)
  {
    EntryLinesCons(xs);
    DocTextAppend(ProxyLines(xs[0]), EntryLines(xs[1..]));
    Associate(DocText(ProxyLines(xs[0])), DocText(EntryLines(xs[1..])), rest);
  }

  lemma EntryStart(x: Proxy, after: string)
    ensures "  - name: " <= DocText(ProxyLines(x)) + after
  {
    QuoteStart(ProxyLines(x), after);
  }

  /** The proxies section is read up to its end and no further. */
  lemma {:induction false} ProxiesRead(xs: seq<Proxy>, rest: string)
    requires !("  - name: " <= rest)
    ensures ParseProxies(DocText(EntryLines(xs)) + rest) ==
            if AllClashQuotable(xs) then Some((ClashAll(xs), rest)) else None
  {
    hide *;
    if xs == [] {
      NoProxiesRead(rest);
    } else {
      var after := DocText(EntryLines(xs[1..])) + rest;
      var s := DocText(ProxyLines(xs[0])) + after;
      EntriesText(xs, rest);
      EntryStart(xs[0], after);
      ProxyRead(xs[0], after);
      ProxiesRead(xs[1..], rest);
      AllClashQuotableCons(xs);
      ProxyStep(s, if ClashQuotable(xs[0]) then Some(ClashOf(xs[0])) else None, after,
                if AllClashQuotable(xs[1..]) then Some(ClashAll(xs[1..])) else None, rest);
    }
  }

  predicate NamesQuotable(names: seq<string>) {
    forall i :: 0 <= i < |names| ==> Quotable(names[i])
  }

  lemma ItemRead(line: Line, rest: string)
    requires line.Quote? && Quotable(line.value)
    ensures ScanLine(Blank(line), DocText([line]) + rest) == Some((line, rest))
  {
    assert DocText([line]) == LineText(line) + "\n" + "";
    assert DocText([line]) + rest == LineText(line) + "\n" + rest;
    ScanLineRoundTrip(line, rest);
  }

  lemma ItemStep(name: string, s: string, after: string, names: seq<string>, rest: string)
    requires "      - \"" <= s && ScanLine(Quote("      - ", ""), s) == Some((Quote("      - ", name), after))
    requires ParseItems(after) == Some((names, rest))
    ensures ParseItems(s) == Some(([name] + names, rest))
  {
  }

  lemma ItemsText(names: seq<string>, rest: string)
    requires names != []
    ensures DocText(ItemLines(names)) + rest ==
            DocText([Quote("      - ", names[0])]) + (DocText(ItemLines(names[1..])) + rest)
  {
    var line := Quote("      - ", names[0]);
    ItemLinesCons(names);
    DocTextAppend([line], ItemLines(names[1..]));
    Associate(DocText([line]), DocText(ItemLines(names[1..])), rest);
  }

  lemma ItemBlank(name: string)
    ensures Blank(Quote("      - ", name)) == Quote("      - ", "")
  {
  }

  lemma ItemStart(name: string, after: string)
    ensures "      - \"" <= DocText([Quote("      - ", name)]) + after
  {
    QuoteStart([Quote("      - ", name)], after);
  }

  lemma FirstItemRead(name: string, after: string, names: seq<string>, rest: string)
    requires Quotable(name) && ParseItems(after) == Some((names, rest))
    ensures ParseItems(DocText([Quote("      - ", name)]) + after) == Some(([name] + names, rest))
  {
    hide *;
    var line := Quote("      - ", name);
    ItemStart(name, after);
    ItemBlank(name);
    ItemRead(line, after);
    ItemStep(name, DocText([line]) + after, after, names, rest);
  }

  lemma NoItemsRead(rest: string)
    requires !("      - \"" <= rest)
    ensures ParseItems(DocText(ItemLines([])) + rest) == Some(([], rest))
  {
    assert DocText(ItemLines([])) + rest == rest;
  }

  lemma NamesQuotableCons(names: seq<string>)
    requires names != [] && NamesQuotable(names)
    ensures Quotable(names[0]) && NamesQuotable(names[1..])
  {
  }

  lemma {:induction false} ItemsRead(names: seq<string>, rest: string)
    requires NamesQuotable(names) && !("      - \"" <= rest)
    ensures ParseItems(DocText(ItemLines(names)) + rest) == Some((names, rest))
  {
    hide *;
    if names == [] {
      NoItemsRead(rest);
    } else {
      NamesQuotableCons(names);
      ItemsText(names, rest);
      ItemsRead(names[1..], rest);
      FirstItemRead(names[0], DocText(ItemLines(names[1..])) + rest, names[1..], rest);
      assert names == [names[0]] + names[1..];
    }
  }

  lemma FixedRead(texts: seq<string>, rest: string)
    ensures Scan(Plains(texts), DocText(Plains(texts)) + rest) == Some((Plains(texts), rest))
  {
    PlainsBlank(texts);
    ScanRoundTrip(Plains(texts), rest);
  }

  lemma FixedStart(texts: seq<string>, rest: string, k: nat)
    requires texts != [] && k < |texts[0]|
    ensures |DocText(Plains(texts)) + rest| > k && (DocText(Plains(texts)) + rest)[k] == texts[0][k]
  {
  }

  /** The printed document, section by section. */
  lemma FrameSections(header: seq<string>, middle: seq<string>, footer: seq<string>, xs: seq<Proxy>)
    ensures DocText(FrameLines(header, middle, footer, xs)) ==
            DocText(Plains(header)) + (DocText(EntryLines(xs)) + (DocText(Plains(middle)) +
              (DocText(ItemLines(Names(xs))) + DocText(Plains(footer)))))
  {
    var a, b, c, d, e := Plains(header), EntryLines(xs), Plains(middle), ItemLines(Names(xs)), Plains(footer);
    DocTextAppend(a + b + c + d, e);
    DocTextAppend(a + b + c, d);
    DocTextAppend(a + b, c);
    DocTextAppend(a, b);
    Associate(DocText(a) + DocText(b) + DocText(c), DocText(d), DocText(e));
    Associate(DocText(a) + DocText(b), DocText(c), DocText(d) + DocText(e));
    Associate(DocText(a), DocText(b), DocText(c) + (DocText(d) + DocText(e)));
  }

  /** What the sections of a document read as is what it reads as. */
  lemma FrameParsed(header: seq<string>, middle: seq<string>, footer: seq<string>, s: string, s1: string,
      proxies: Option<seq<ClashProxy>>, s2: string, s3: string, names: seq<string>, s4: string)
    requires Scan(Plains(header), s) == Some((Plains(header), s1))
    requires ParseProxies(s1) == if proxies.Some? then Some((proxies.value, s2)) else None
    requires Scan(Plains(middle), s2) == Some((Plains(middle), s3))
    requires proxies.Some? ==> ParseItems(s3) == Some((names, s4))
    requires Scan(Plains(footer), s4) == Some((Plains(footer), ""))
    ensures ParseFrame(header, middle, footer, s) ==
            if proxies.Some? then Some(ClashDoc(proxies.value, names)) else None
  {
    hide Scan, Plains, ParseProxies, ParseItems;
  }

  lemma FrameRoundTrip(header: seq<string>, middle: seq<string>, footer: seq<string>, xs: seq<Proxy>)
    requires middle != [] && |middle[0]| > 0 && middle[0][0] != ' '
    requires footer != [] && |footer[0]| > 8 && footer[0][8] != '"'
    ensures ParseFrame(header, middle, footer, DocText(FrameLines(header, middle, footer, xs))) ==
            if AllClashQuotable(xs) then Some(ClashDoc(ClashAll(xs), Names(xs))) else None
  {
    hide *;
    var s5 := DocText(Plains(footer));
    var s4 := DocText(ItemLines(Names(xs))) + s5;
    var s3 := DocText(Plains(middle)) + s4;
    var s2 := DocText(EntryLines(xs)) + s3;
    FrameSections(header, middle, footer, xs);
    FixedRead(header, s2);
    MiddleStarts(middle, s4);
    ProxiesRead(xs, s3);
    FixedRead(middle, s4);
    FixedRead(footer, "");
    assert s5 + "" == s5;
    FooterStarts(footer);
    if AllClashQuotable(xs) {
      NamesAreQuotable(xs);
      ItemsRead(Names(xs), s5);
    }
    FrameParsed(header, middle, footer, DocText(FrameLines(header, middle, footer, xs)), s2,
                if AllClashQuotable(xs) then Some(ClashAll(xs)) else None, s3, s4, Names(xs), s5);
  }

  lemma MiddleStarts(middle: seq<string>, rest: string)
    requires middle != [] && |middle[0]| > 0 && middle[0][0] != ' '
    ensures !("  - name: " <= DocText(Plains(middle)) + rest)
  {
    hide DocText, Plains;
    FixedStart(middle, rest, 0);
    assert "  - name: "[0] == ' ';
  }

  lemma FooterStarts(footer: seq<string>)
    requires footer != [] && |footer[0]| > 8 && footer[0][8] != '"'
    ensures !("      - \"" <= DocText(Plains(footer)))
  {
    hide DocText, Plains;
    FixedStart(footer, "", 8);
    assert DocText(Plains(footer)) + "" == DocText(Plains(footer));
    assert "      - \""[8] == '"';
  }

  lemma NamesAreQuotable(xs: seq<Proxy>)
    requires AllClashQuotable(xs)
    ensures NamesQuotable(Names(xs))
  {
    hide Quotable;
    NamesAt(xs);
  }

  /** The document parses back to exactly the proxies printed, in order, and to a group naming exactly these proxies -
      if and only if no value holds a control character. */
  lemma ClashRoundTrip(xs: seq<Proxy>)
    ensures ParseClash(ClashText(xs)) == if AllClashQuotable(xs) then Some(ClashDoc(ClashAll(xs), Names(xs))) else None
  {
    FrameRoundTrip(HEADER, GROUP_HEADER, FOOTER, xs);
  }

  /** The PROXY group of a readable document lists exactly the names of its proxies, in order. */
  lemma GroupNamesProxies(xs: seq<Proxy>, i: nat)
    requires ParseClash(ClashText(xs)).Some? && i < |xs|
    ensures var doc := ParseClash(ClashText(xs)).value;
            |doc.group| == |doc.proxies| == |xs| && doc.group[i] == doc.proxies[i].name == xs[i].name
  {
    ClashRoundTrip(xs);
    NamesAt(xs);
    ClashAllAt(xs);
  }

  // ----- names -----

  /** Clash shows a node name as it is. */
  function AsIs(): string -> string { (name: string) => name }

  lemma {:induction false} NamesShown(xs: seq<Proxy>)
    requires AllSuffixed(xs)
    ensures Names(xs) == Groups.Shows(AsIs(), xs)
  {
    if xs != [] {
      var init := xs[..|xs| - 1];
      assert forall i :: 0 <= i < |init| ==> init[i] == xs[i];
      NamesShown(init);
    }
  }

  /** All proxy names are distinct, so that every group entry refers to one proxy, if and only if no node announces a
      type twice and no two nodes that announce the same type have the same name. */
  lemma ProxyNamesDistinct(nodes: seq<Node>)
    ensures Groups.Distinct(Names(Proxies(nodes))) <==> Groups.NoKindTwice(nodes) && Groups.Separate(AsIs(), nodes)
  {
    ProxiesSuffixed(nodes);
    NamesShown(Proxies(nodes));
    Groups.NamesDistinct(AsIs(), nodes);
  }

  // ----- the printers -----

  method GoWriteFixed(b: Builder, texts: seq<string>)
    requires b.Valid()
    modifies b
    ensures b.Valid() && b.lines == old(b.lines) + Plains(texts)
  {
    for i := 0 to |texts|
      invariant b.Valid() && b.lines == old(b.lines) + Plains(texts[..i])
    {
      b.WriteLine(Plain(texts[i]));
      PlainsLast(texts, i);
    }
    assert texts[..|texts|] == texts;
  }

  lemma {:induction false} PlainsLast(texts: seq<string>, i: nat)
    requires i < |texts|
    ensures Plains(texts[..i + 1]) == Plains(texts[..i]) + [Plain(texts[i])]
  {
    if i > 0 {
      PlainsLast(texts[1..], i - 1);
      var longer, shorter, rest := texts[..i + 1], texts[..i], texts[1..];
      assert longer[1..] == rest[..i];
      assert shorter[1..] == rest[..i - 1];
      assert Plains(longer) == [Plain(texts[0])] + Plains(longer[1..]);
    }
  }

  method GoWriteServer(b: Builder, name: string, kind: string, host: string, port: int)
    requires b.Valid()
    modifies b
    ensures b.Valid()
    ensures b.lines == old(b.lines) +
                       [Quote("  - name: ", name), Plain(kind), Quote("    server: ", host), Num("    port: ", port)]
  {
    b.WriteLine(Quote("  - name: ", name));
    b.WriteLine(Plain(kind));
    b.WriteLine(Quote("    server: ", host));
    b.WriteLine(Num("    port: ", port));
  }

  method GoWriteTrojan(b: Builder, node: Node, p: Protocol, name: string)
    requires b.Valid()
    modifies b
    ensures b.Valid()
    ensures b.lines == old(b.lines) + ProxyLines(Trojan(name, node.host, p.port, p.password, p.sni, p.tls))
  {
    GoWriteServer(b, name, "    type: trojan", node.host, p.port);
    b.WriteLine(Quote("    password: ", p.password));
    b.WriteLine(Quote("    sni: ", FirstNonEmpty([p.sni, node.host])));
    b.WriteLine(Plain("    skip-cert-verify: false"));
    b.WriteLine(Plain("    udp: true"));
  }

  method GoWriteShadowsocks(b: Builder, node: Node, p: Protocol, name: string)
    requires b.Valid()
    modifies b
    ensures b.Valid()
    ensures b.lines == old(b.lines) + ProxyLines(Shadowsocks(name, node.host, p.port, p.cipher, p.password))
  {
    GoWriteServer(b, name, "    type: ss", node.host, p.port);
    b.WriteLine(Quote("    cipher: ", p.cipher));
    b.WriteLine(Quote("    password: ", p.password));
    b.WriteLine(Plain("    udp: true"));
  }

  lemma EntryLinesLast(xs: seq<Proxy>, x: Proxy)
    ensures EntryLines(xs + [x]) == EntryLines(xs) + ProxyLines(x)
    ensures Names(xs + [x]) == Names(xs) + [x.name]
  {
    assert (xs + [x])[..|xs|] == xs;
  }

  /** One round of the loop: the switch on the protocol type. `met` is what the earlier rounds have written below
      `above`. */
  method GoWriteEntry(b: Builder, node: Node, p: Protocol, names: seq<string>,
      ghost above: seq<Line>, ghost met: seq<ByteProxy>)
    returns (names': seq<string>)
    requires b.Valid() && b.lines == above + EntryLines(met) && names == Names(met)
    modifies b
    ensures b.Valid() && b.lines == above + EntryLines(met + ProxyOf(node, p))
    ensures names' == Names(met + ProxyOf(node, p))
  {
    names' := names;
    if p.kind == "trojan" {
      var name := node.name + "-Trojan";
      names' := names + [name];
      GoWriteTrojan(b, node, p, name);
      Associate(above, EntryLines(met), ProxyLines(ProxyOf(node, p)[0]));
      EntryLinesLast(met, ProxyOf(node, p)[0]);
    } else if p.kind == "shadowsocks" {
      var name := node.name + "-SS";
      names' := names + [name];
      GoWriteShadowsocks(b, node, p, name);
      Associate(above, EntryLines(met), ProxyLines(ProxyOf(node, p)[0]));
      EntryLinesLast(met, ProxyOf(node, p)[0]);
    } else {
      assert met + ProxyOf(node, p) == met;
    }
  }

  method GoWriteProxies(b: Builder, nodes: seq<Node>) returns (names: seq<string>)
    requires b.Valid()
    modifies b
    ensures b.Valid() && b.lines == old(b.lines) + EntryLines(Proxies(nodes))
    ensures names == Names(Proxies(nodes))
  {
    names := [];
    for i := 0 to |nodes|
      invariant b.Valid() && b.lines == old(b.lines) + EntryLines(Proxies(nodes[..i]))
      invariant names == Names(Proxies(nodes[..i]))
    {
      MetStart(nodes, i);
      for j := 0 to |nodes[i].protocols|
        invariant b.Valid() && b.lines == old(b.lines) + EntryLines(Met(nodes, i, j))
        invariant names == Names(Met(nodes, i, j))
      {
        MetStep(nodes, i, j);
        names := GoWriteEntry(b, nodes[i], nodes[i].protocols[j], names, old(b.lines), Met(nodes, i, j));
      }
      MetEnd(nodes, i);
    }
    assert nodes[..|nodes|] == nodes;
  }

  method GoWriteItems(b: Builder, names: seq<string>)
    requires b.Valid()
    modifies b
    ensures b.Valid() && b.lines == old(b.lines) + ItemLines(names)
  {
    for k := 0 to |names|
      invariant b.Valid() && b.lines == old(b.lines) + ItemLines(names[..k])
    {
      b.WriteLine(Quote("      - ", names[k]));
      assert names[..k + 1][..k] == names[..k];
    }
    assert names[..|names|] == names;
  }

  method GoRenderFrame(header: seq<string>, middle: seq<string>, footer: seq<string>, nodes: seq<Node>)
    returns (text: string)
    ensures text == DocText(FrameLines(header, middle, footer, Proxies(nodes)))
  {
    var b := new Builder();
    GoWriteFixed(b, header);
    assert b.lines == Plains(header);
    var names := GoWriteProxies(b, nodes);
    GoWriteFixed(b, middle);
    GoWriteItems(b, names);
    GoWriteFixed(b, footer);
    text := b.text;
  }

  /** Go's renderClash. */
  method GoRenderClash(nodes: seq<Node>) returns (text: string)
    ensures text == ClashText(Proxies(nodes))
  {
    text := GoRenderFrame(HEADER, GROUP_HEADER, FOOTER, nodes);
  }

  method WorkerTrojanLines(node: Node, p: Protocol, name: string) returns (pushed: seq<string>)
    requires name == TrojanName(node)
    ensures pushed == LineTexts(ProxyLines(TrojanOf(node, p)))
  {
    pushed := LineTexts([
      Quote("  - name: ", name), Plain("    type: trojan"), Quote("    server: ", node.host), Num("    port: ", p.port),
      Quote("    password: ", p.password), Quote("    sni: ", if p.sni != "" then p.sni else node.host),
      Plain("    skip-cert-verify: false"), Plain("    udp: true")]);
  }

  method WorkerShadowsocksLines(node: Node, p: Protocol, name: string) returns (pushed: seq<string>)
    requires name == ShadowsocksName(node)
    ensures pushed == LineTexts(ProxyLines(ShadowsocksOf(node, p)))
  {
    pushed := LineTexts([
      Quote("  - name: ", name), Plain("    type: ss"), Quote("    server: ", node.host), Num("    port: ", p.port),
      Quote("    cipher: ", p.cipher), Quote("    password: ", p.password), Plain("    udp: true")]);
  }

  /** One round of the Worker's loop, which pushes lines onto a list. */
  method WorkerEntry(node: Node, p: Protocol, lines: seq<string>, names: seq<string>,
      ghost above: seq<Line>, ghost met: seq<ByteProxy>)
    returns (lines': seq<string>, names': seq<string>)
    requires lines == LineTexts(above + EntryLines(met)) && names == Names(met)
    ensures lines' == LineTexts(above + EntryLines(met + ProxyOf(node, p)))
    ensures names' == Names(met + ProxyOf(node, p))
  {
    lines', names' := lines, names;
    assert p.kind != "trojan" && p.kind != "shadowsocks" ==> met + ProxyOf(node, p) == met;
    if p.kind == "trojan" {
      var name := node.name + "-Trojan";
      names' := names' + [name];
      var pushed := WorkerTrojanLines(node, p, name);
      lines' := lines' + pushed;
      PushedEntry(above, met, TrojanOf(node, p));
    }
    if p.kind == "shadowsocks" {
      var name := node.name + "-SS";
      names' := names' + [name];
      var pushed := WorkerShadowsocksLines(node, p, name);
      lines' := lines' + pushed;
      PushedEntry(above, met, ShadowsocksOf(node, p));
    }
  }

  lemma PushedEntry(above: seq<Line>, met: seq<ByteProxy>, x: ByteProxy)
    ensures LineTexts(above + EntryLines(met + [x])) == LineTexts(above + EntryLines(met)) + LineTexts(ProxyLines(x))
    ensures Names(met + [x]) == Names(met) + [x.name]
  {
    EntryLinesLast(met, x);
    LineTextsAppend(above + EntryLines(met), ProxyLines(x));
    Associate(above, EntryLines(met), ProxyLines(x));
  }

  method WorkerEntries(nodes: seq<Node>, start: seq<string>, ghost above: seq<Line>)
    returns (lines: seq<string>, names: seq<string>)
    requires start == LineTexts(above)
    ensures lines == LineTexts(above + EntryLines(Proxies(nodes))) && names == Names(Proxies(nodes))
  {
    lines, names := start, [];
    assert above + EntryLines(Proxies(nodes[..0])) == above;
    for i := 0 to |nodes|
      invariant lines == LineTexts(above + EntryLines(Proxies(nodes[..i])))
      invariant names == Names(Proxies(nodes[..i]))
    {
      MetStart(nodes, i);
      for j := 0 to |nodes[i].protocols|
        invariant lines == LineTexts(above + EntryLines(Met(nodes, i, j)))
        invariant names == Names(Met(nodes, i, j))
      {
        MetStep(nodes, i, j);
        lines, names := WorkerEntry(nodes[i], nodes[i].protocols[j], lines, names, above, Met(nodes, i, j));
      }
      MetEnd(nodes, i);
    }
    assert nodes[..|nodes|] == nodes;
  }

  method WorkerItems(names: seq<string>, start: seq<string>, ghost above: seq<Line>) returns (lines: seq<string>)
    requires start == LineTexts(above)
    ensures lines == LineTexts(above + ItemLines(names))
  {
    lines := start;
    assert above + ItemLines(names[..0]) == above;
    for k := 0 to |names|
      invariant lines == LineTexts(above + ItemLines(names[..k]))
    {
      var item := Quote("      - ", names[k]);
      lines := lines + [LineText(item)];
      assert names[..k + 1][..k] == names[..k];
      LineTextsAppend(above + ItemLines(names[..k]), [item]);
      Associate(above, ItemLines(names[..k]), [item]);
    }
    assert names[..|names|] == names;
  }

  method WorkerRenderFrame(header: seq<string>, middle: seq<string>, footer: seq<string>, nodes: seq<Node>)
    returns (text: string)
    requires header != []
    ensures text == DocText(FrameLines(header, middle, footer, Proxies(nodes)))
  {
    ghost var above := Plains(header);
    var lines, names := WorkerEntries(nodes, LineTexts(Plains(header)), above);
    above := above + EntryLines(Proxies(nodes));
    LineTextsAppend(above, Plains(middle));
    above := above + Plains(middle);
    lines := WorkerItems(names, lines + LineTexts(Plains(middle)), above);
    above := above + ItemLines(names);
    LineTextsAppend(above, Plains(footer));
    lines := lines + LineTexts(Plains(footer));
    assert FrameLines(header, middle, footer, Proxies(nodes)) == above + Plains(footer);
    DocTextJoin(above + Plains(footer));
    text := Join(lines, "\n") + "\n";
  }

  /** The Worker's renderClash: byte for byte the text Go prints. */
  method WorkerRenderClash(nodes: seq<Node>) returns (text: string)
    ensures text == ClashText(Proxies(nodes))
  {
    text := WorkerRenderFrame(HEADER, GROUP_HEADER, FOOTER, nodes);
  }
}
