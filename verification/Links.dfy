/** The link list: both printers, and the parser that undoes them. */
module Links {
  import opened Text
  import opened Numbers
  import opened Nodes
  import opened Order
  import Escape
  import Base64

  // ----- queries -----

  type Pair = (Bytes, Bytes)

  function PairKey(kv: Pair): string { kv.0 }

  function PairText(style: Escape.Style, kv: Pair): string {
    Escape.Escape(style, kv.0) + "=" + Escape.Escape(style, kv.1)
  }

  function QueryText(style: Escape.Style, pairs: seq<Pair>): string {
    Join(seq(|pairs|, i requires 0 <= i < |pairs| => PairText(style, pairs[i])), "&")
  }

  /** The value set for a key, or the empty string. */
  function Lookup(pairs: seq<(string, string)>, key: string): string {
    if pairs == [] then "" else if pairs[0].0 == key then pairs[0].1 else Lookup(pairs[1..], key)
  }

  function ParsePair(s: string): Option<(string, string)> {
    var (k, v) :- CutFirst(s, '=');
    var key :- Escape.Decode(k, true);
    var value :- Escape.Decode(v, true);
    Some((key, value))
  }

  function ParsePairs(pieces: seq<string>): Option<seq<(string, string)>> {
    if pieces == [] then Some([])
    else
      var first :- ParsePair(pieces[0]);
      var rest :- ParsePairs(pieces[1..]);
      Some([first] + rest)
  }

  function ParseQuery(query: string): Option<seq<(string, string)>> {
    if query == "" then Some([]) else ParsePairs(Split(query, '&'))
  }

  // ----- links -----

  function Authority(user: string, host: string, port: int): string {
    user + "@" + host + ":" + PrintInt(port)
  }

  function LinkText(main: string, query: string, fragment: string): string {
    main + (if query != "" then "?" + query else "") + "#" + fragment
  }

  /** Go sets sni, peer, security and prints the parameters sorted by key. */
  function GoParams(sni: Bytes, tls: bool): seq<Pair> {
    (if sni != "" then [("sni", sni), ("peer", sni)] else []) + (if tls then [("security", "tls")] else [])
  }

  function GoQuery(sni: Bytes, tls: bool): string {
    QueryText(Escape.GoQuery, Sort(GoParams(sni, tls), PairKey))
  }

  /** The user info of a shadowsocks link before it is encoded. */
  function Secret(x: ByteProxy): Bytes
    requires x.Shadowsocks?
  {
    x.cipher + ":" + x.password
  }

  function GoLink(x: ByteProxy): string {
    match x
    case Trojan(name, host, port, password, sni, tls) =>
      LinkText("trojan://" + Authority(Escape.Escape(Escape.GoQuery, password), host, port), GoQuery(sni, tls),
               Escape.Escape(Escape.GoQuery, name))
    case Shadowsocks(name, host, port, _, _) =>
      LinkText("ss://" + Authority(Base64.Encode(Base64.Url, false, Secret(x)), host, port), "",
               Escape.Escape(Escape.GoQuery, name))
  }

  /** The Worker prints its parameters in insertion order. */
  function WorkerParams(sni: Bytes, tls: bool): seq<Pair> {
    (if sni != "" then [("peer", sni), ("sni", sni)] else []) + (if tls then [("security", "tls")] else [])
  }

  /** None where the Worker's `btoa` throws. */
  function WorkerLink(x: ByteProxy): Option<string> {
    match x
    case Trojan(name, host, port, password, sni, tls) =>
      Some(LinkText("trojan://" + Authority(Escape.Escape(Escape.JsComponent, password), host, port),
                    QueryText(Escape.JsForm, WorkerParams(sni, tls)), Escape.Escape(Escape.JsComponent, name)))
    case Shadowsocks(name, host, port, _, _) =>
      var userInfo :- Base64.JsUrlEncode(Secret(x));
      Some(LinkText("ss://" + Authority(userInfo, host, port), "", Escape.Escape(Escape.JsComponent, name)))
  }

  function ParseAuthority(s: string): Option<(string, string, int)> {
    var (user, place) :- CutFirst(s, '@');
    var (host, digits) :- CutLast(place, ':');
    var port :- ParseInt(digits);
    Some((user, host, port))
  }

  function ParseTrojan(authority: string, query: string, fragment: string): Option<Proxy> {
    var (user, host, port) :- ParseAuthority(authority);
    var password :- Escape.Decode(user, true);
    var pairs :- ParseQuery(query);
    var name :- Escape.Decode(fragment, true);
    if Lookup(pairs, "peer") != Lookup(pairs, "sni") then None
    else Some(Trojan(name, host, port, password, Lookup(pairs, "sni"), Lookup(pairs, "security") == "tls"))
  }

  function ParseShadowsocks(authority: string, fragment: string): Option<Proxy> {
    var (user, host, port) :- ParseAuthority(authority);
    var secret :- Base64.Decode(Base64.Url, false, user);
    var (cipher, password) :- CutFirst(secret, ':');
    var name :- Escape.Decode(fragment, true);
    Some(Shadowsocks(name, host, port, cipher, password))
  }

  /** Cuts a link into main part, query and fragment: fragment after the first `#`, query after the first `?`. */
  function CutLink(s: string): Option<(string, string, string)> {
    var (body, fragment) :- CutFirst(s, '#');
    var (main, query) := CutFirst(body, '?').GetOr((body, ""));
    Some((main, query, fragment))
  }

  /** Reads one link: user info before the first `@`, port after the last colon, form decoding throughout. */
  function ParseLink(s: string): Option<Proxy> {
    var (main, query, fragment) :- CutLink(s);
    match Expect("trojan://", main)
    case Some(authority) => ParseTrojan(authority, query, fragment)
    case None =>
      var authority :- Expect("ss://", main);
      ParseShadowsocks(authority, fragment)
  }

  function ParseLines(lines: seq<string>): Option<seq<Proxy>> {
    if lines == [] then Some([])
    else if lines[0] == "" then ParseLines(lines[1..])
    else
      var first :- ParseLink(lines[0]);
      var rest :- ParseLines(lines[1..]);
      Some([first] + rest)
  }

  /** Reads a link list: one link a line, blank lines skipped. */
  function ParseLinks(text: string): Option<seq<Proxy>> {
    ParseLines(Split(text, '\n'))
  }

  // ----- queries are read back -----

  lemma PairRoundTrip(style: Escape.Style, kv: Pair)
    ensures ParsePair(PairText(style, kv)) == Some(kv)
    ensures forall c :: c in PairText(style, kv) ==> Escape.IsEscapedChar(c) || c == '='
  {
    forall c | c in Escape.Escape(style, kv.0) || c in Escape.Escape(style, kv.1) ensures Escape.IsEscapedChar(c) {
      Escape.EscapedChars(style, if c in Escape.Escape(style, kv.0) then kv.0 else kv.1, c);
    }
    CutFirstAt(Escape.Escape(style, kv.0), Escape.Escape(style, kv.1), '=');
    Escape.FormRoundTrip(style, kv.0);
    Escape.FormRoundTrip(style, kv.1);
  }

  lemma {:induction false} PairsRoundTrip(style: Escape.Style, pairs: seq<Pair>, pieces: seq<string>)
    requires |pieces| == |pairs| && forall i :: 0 <= i < |pairs| ==> pieces[i] == PairText(style, pairs[i])
    ensures ParsePairs(pieces) == Some(pairs)
  {
    if pairs != [] {
      PairRoundTrip(style, pairs[0]);
      PairsRoundTrip(style, pairs[1..], pieces[1..]);
      assert pairs == [pairs[0]] + pairs[1..];
    }
  }

  lemma {:induction false} JoinChars(parts: seq<string>, sep: string, c: char)
    requires c in Join(parts, sep)
    ensures c in sep || exists i :: 0 <= i < |parts| && c in parts[i]
  {
    if |parts| > 1 && c !in parts[0] && c !in sep {
      JoinChars(parts[1..], sep, c);
      var i :| 0 <= i < |parts[1..]| && c in parts[1..][i];
      assert c in parts[i + 1];
    }
  }

  lemma QueryRoundTrip(style: Escape.Style, pairs: seq<Pair>)
    ensures ParseQuery(QueryText(style, pairs)) == Some(pairs)
    ensures forall c :: c in QueryText(style, pairs) ==> Escape.IsEscapedChar(c) || c == '=' || c == '&'
  {
    var pieces := seq(|pairs|, i requires 0 <= i < |pairs| => PairText(style, pairs[i]));
    forall i | 0 <= i < |pairs| ensures '&' !in pieces[i] && pieces[i] != "" {
      PairRoundTrip(style, pairs[i]);
    }
    forall c | c in QueryText(style, pairs) ensures Escape.IsEscapedChar(c) || c == '=' || c == '&' {
      JoinChars(pieces, "&", c);
      if c != '&' {
        var i :| 0 <= i < |pieces| && c in pieces[i];
        PairRoundTrip(style, pairs[i]);
      }
    }
    if pairs != [] {
      SplitJoin(pieces, '&');
      PairsRoundTrip(style, pairs, pieces);
      assert QueryText(style, pairs) != "" by {
        if |pieces| > 1 { assert Join(pieces, "&")[|pieces[0]|] == '&'; }
      }
    }
  }

  lemma {:induction false} LookupSet(pairs: seq<Pair>, kv: Pair)
    requires DistinctKeys(pairs, PairKey) && kv in pairs
    ensures Lookup(pairs, kv.0) == kv.1
  {
    if pairs[0] != kv {
      assert pairs == [pairs[0]] + pairs[1..];
      var j :| 1 <= j < |pairs| && pairs[j] == kv;
      assert PairKey(pairs[0]) != PairKey(pairs[j]);
      LookupSet(pairs[1..], kv);
    }
  }

  lemma {:induction false} LookupUnset(pairs: seq<Pair>, key: string)
    requires forall kv :: kv in pairs ==> kv.0 != key
    ensures Lookup(pairs, key) == ""
  {
    if pairs != [] { LookupUnset(pairs[1..], key); }
  }

  /** Parameters set in any order, sorted or not, read as the same sni and security. */
  predicate ParamsOf(pairs: seq<Pair>, sni: string, tls: bool) {
    Lookup(pairs, "sni") == sni && Lookup(pairs, "peer") == sni && (Lookup(pairs, "security") == "tls" <==> tls)
  }

  lemma ParamsRead(pairs: seq<Pair>, sni: Bytes, tls: bool)
    requires DistinctKeys(pairs, PairKey)
    requires forall kv :: kv in pairs <==>
               (sni != "" && (kv == ("sni", sni) || kv == ("peer", sni))) || (tls && kv == ("security", "tls"))
    ensures ParamsOf(pairs, sni, tls)
  {
    if sni != "" { LookupSet(pairs, ("sni", sni)); } else { LookupUnset(pairs, "sni"); }
    if sni != "" { LookupSet(pairs, ("peer", sni)); } else { LookupUnset(pairs, "peer"); }
    if tls { LookupSet(pairs, ("security", "tls")); } else { LookupUnset(pairs, "security"); }
  }

  lemma DistinctPairs(pairs: seq<Pair>, sni: Bytes, tls: bool)
    requires pairs == GoParams(sni, tls) || pairs == WorkerParams(sni, tls)
    ensures DistinctKeys(pairs, PairKey)
    ensures forall kv :: kv in pairs <==>
               (sni != "" && (kv == ("sni", sni) || kv == ("peer", sni))) || (tls && kv == ("security", "tls"))
  {
    assert |"sni"| == 3 && |"peer"| == 4 && |"security"| == 8;
  }

  // ----- the query as it is written -----

  lemma OnePair(style: Escape.Style, a: Pair)
    ensures QueryText(style, [a]) == PairText(style, a)
  {
  }

  lemma TwoPairs(style: Escape.Style, a: Pair, b: Pair)
    ensures QueryText(style, [a, b]) == PairText(style, a) + "&" + PairText(style, b)
  {
    hide PairText;
    var pairs := [a, b];
    var pieces := seq(|pairs|, i requires 0 <= i < |pairs| => PairText(style, pairs[i]));
    assert QueryText(style, pairs) == Join(pieces, "&");
    assert pieces == [PairText(style, a), PairText(style, b)];
    assert pieces[1..] == [PairText(style, b)];
  }

  lemma ThreePairs(style: Escape.Style, a: Pair, b: Pair, c: Pair)
    ensures QueryText(style, [a, b, c]) == PairText(style, a) + "&" + PairText(style, b) + "&" + PairText(style, c)
  {
    hide PairText;
    var x, y, z := PairText(style, a), PairText(style, b), PairText(style, c);
    var pairs := [a, b, c];
    var pieces := seq(|pairs|, i requires 0 <= i < |pairs| => PairText(style, pairs[i]));
    assert QueryText(style, pairs) == Join(pieces, "&");
    assert pieces == [x, y, z];
    JoinThree(x, y, z, "&");
  }

  lemma JoinThree(x: string, y: string, z: string, sep: string)
    ensures Join([x, y, z], sep) == x + sep + y + sep + z
  {
    assert [x, y, z][1..] == [y, z] && [y, z][1..] == [z];
    assert Join([y, z], sep) == y + sep + z;
    assert x + sep + (y + sep + z) == x + sep + y + sep + z;
  }

  function Peer(sni: Bytes): Pair { ("peer", sni) }

  function Sni(sni: Bytes): Pair { ("sni", sni) }

  function Security(): Pair { ("security", "tls") }

  lemma PeerText(style: Escape.Style, sni: Bytes)
    ensures PairText(style, Peer(sni)) == "peer=" + Escape.Escape(style, sni)
  {
    hide Escape.Escape;
    Escape.PlainEscaped(style, Peer(sni).0);
    assert "peer" + "=" == "peer=";
  }

  lemma SniText(style: Escape.Style, sni: Bytes)
    ensures PairText(style, Sni(sni)) == "sni=" + Escape.Escape(style, sni)
  {
    hide Escape.Escape;
    Escape.PlainEscaped(style, Sni(sni).0);
    assert "sni" + "=" == "sni=";
  }

  lemma SecurityText(style: Escape.Style)
    ensures PairText(style, Security()) == "security=tls"
  {
    hide Escape.Escape;
    Escape.PlainEscaped(style, Security().0);
    Escape.PlainEscaped(style, Security().1);
    assert "security" + "=" + "tls" == "security=tls";
  }

  /** Go writes its parameters in the order of their keys. */
  function GoQueryText(sni: Bytes, tls: bool): string {
    var name := Escape.Escape(Escape.GoQuery, sni);
    if sni != "" && tls then "peer=" + name + "&security=tls" + "&sni=" + name
    else if sni != "" then "peer=" + name + "&sni=" + name
    else if tls then "security=tls"
    else ""
  }

  /** The Worker in the order in which it sets them. */
  function WorkerQueryText(sni: Bytes, tls: bool): string {
    var name := Escape.Escape(Escape.JsForm, sni);
    if sni != "" && tls then "peer=" + name + "&sni=" + name + "&security=tls"
    else if sni != "" then "peer=" + name + "&sni=" + name
    else if tls then "security=tls"
    else ""
  }

  function SortedParams(sni: Bytes, tls: bool): seq<Pair> {
    (if sni != "" then [Peer(sni)] else []) + (if tls then [Security()] else []) +
    (if sni != "" then [Sni(sni)] else [])
  }

  lemma KeysAscend(sni: Bytes)
    ensures Less(PairKey(Peer(sni)), PairKey(Security())) && Less(PairKey(Security()), PairKey(Sni(sni)))
    ensures Less(PairKey(Peer(sni)), PairKey(Sni(sni)))
  {
    assert "security"[1..][0] == 'e' && "sni"[1..][0] == 'n';
  }

  lemma SortedAscend(sni: Bytes, tls: bool)
    ensures Ascending(SortedParams(sni, tls), PairKey)
  {
    KeysAscend(sni);
    hide Less, PairKey, Peer, Sni, Security;
  }

  lemma SameParams(sni: Bytes, tls: bool, x: Pair)
    ensures x in SortedParams(sni, tls) <==> x in GoParams(sni, tls)
  {
  }

  lemma ParamsSorted(sni: Bytes, tls: bool)
    ensures Sort(GoParams(sni, tls), PairKey) == SortedParams(sni, tls)
  {
    hide *;
    var params, sorted := GoParams(sni, tls), SortedParams(sni, tls);
    GoParamsApart(sni, tls);
    SortAscending(params, PairKey);
    SortElements(params, PairKey);
    SortedAscend(sni, tls);
    forall x ensures x in Sort(params, PairKey) <==> x in sorted {
      assert x in Sort(params, PairKey) <==> x in multiset(Sort(params, PairKey));
      assert x in params <==> x in multiset(params);
      SameParams(sni, tls, x);
    }
    AscendingUnique(Sort(params, PairKey), sorted, PairKey);
  }

  lemma GoParamsApart(sni: Bytes, tls: bool)
    ensures DistinctKeys(GoParams(sni, tls), PairKey)
  {
    DistinctPairs(GoParams(sni, tls), sni, tls);
  }

  lemma GoQueryWritten(sni: Bytes, tls: bool)
    ensures GoQuery(sni, tls) == GoQueryText(sni, tls)
  {
    hide PairText, Sort, GoParams, Peer, Sni, Security, QueryText, Escape.Escape;
    ParamsSorted(sni, tls);
    PeerText(Escape.GoQuery, sni);
    SniText(Escape.GoQuery, sni);
    SecurityText(Escape.GoQuery);
    if sni != "" && tls {
      assert SortedParams(sni, tls) == [Peer(sni), Security(), Sni(sni)];
      ThreePairs(Escape.GoQuery, Peer(sni), Security(), Sni(sni));
      Ampersands("peer=" + Escape.Escape(Escape.GoQuery, sni), Escape.Escape(Escape.GoQuery, sni));
    } else if sni != "" {
      assert SortedParams(sni, tls) == [Peer(sni), Sni(sni)];
      TwoPairs(Escape.GoQuery, Peer(sni), Sni(sni));
      Ampersands("peer=" + Escape.Escape(Escape.GoQuery, sni), Escape.Escape(Escape.GoQuery, sni));
    } else if tls {
      assert SortedParams(sni, tls) == [Security()];
      OnePair(Escape.GoQuery, Security());
    } else {
      NoPairs(Escape.GoQuery);
    }
  }

  lemma NoPairs(style: Escape.Style)
    ensures QueryText(style, []) == ""
  {
  }

  lemma Ampersands(a: string, name: string)
    ensures a + "&" + "security=tls" + "&" + ("sni=" + name) == a + "&security=tls" + "&sni=" + name
    ensures a + "&" + ("sni=" + name) + "&" + "security=tls" == a + "&sni=" + name + "&security=tls"
    ensures a + "&" + ("sni=" + name) == a + "&sni=" + name
  {
    assert "&" + "security=tls" == "&security=tls" && "&" + "sni=" == "&sni=";
    assert a + "&" + "security=tls" == a + "&security=tls";
    assert a + "&" + ("sni=" + name) == a + ("&" + "sni=") + name;
  }

  lemma WorkerParamsAre(sni: Bytes, tls: bool)
    ensures WorkerParams(sni, tls) ==
            (if sni != "" then [Peer(sni), Sni(sni)] else []) + if tls then [Security()] else []
  {
  }

  lemma WorkerQueryWritten(sni: Bytes, tls: bool)
    ensures QueryText(Escape.JsForm, WorkerParams(sni, tls)) == WorkerQueryText(sni, tls)
  {
    hide PairText, WorkerParams, Peer, Sni, Security, QueryText, Escape.Escape;
    WorkerParamsAre(sni, tls);
    PeerText(Escape.JsForm, sni);
    SniText(Escape.JsForm, sni);
    SecurityText(Escape.JsForm);
    if sni != "" && tls {
      assert WorkerParams(sni, tls) == [Peer(sni), Sni(sni), Security()];
      ThreePairs(Escape.JsForm, Peer(sni), Sni(sni), Security());
      Ampersands("peer=" + Escape.Escape(Escape.JsForm, sni), Escape.Escape(Escape.JsForm, sni));
    } else if sni != "" {
      assert WorkerParams(sni, tls) == [Peer(sni), Sni(sni)];
      TwoPairs(Escape.JsForm, Peer(sni), Sni(sni));
      Ampersands("peer=" + Escape.Escape(Escape.JsForm, sni), Escape.Escape(Escape.JsForm, sni));
    } else if tls {
      assert WorkerParams(sni, tls) == [Security()];
      OnePair(Escape.JsForm, Security());
    } else {
      NoPairs(Escape.JsForm);
    }
  }

  lemma GoParamsRead(sni: Bytes, tls: bool)
    ensures ParamsOf(Sort(GoParams(sni, tls), PairKey), sni, tls)
  {
    var pairs := GoParams(sni, tls);
    var sorted := Sort(pairs, PairKey);
    DistinctPairs(pairs, sni, tls);
    SortElements(pairs, PairKey);
    SortAscending(pairs, PairKey);
    forall i, j | 0 <= i < j < |sorted| ensures PairKey(sorted[i]) != PairKey(sorted[j]) {
      LessTotal(PairKey(sorted[i]), PairKey(sorted[j]));
    }
    forall kv: Pair ensures kv in sorted <==> kv in pairs {
      assert kv in sorted <==> kv in multiset(sorted);
      assert kv in pairs <==> kv in multiset(pairs);
    }
    ParamsRead(sorted, sni, tls);
  }

  lemma WorkerParamsRead(sni: Bytes, tls: bool)
    ensures ParamsOf(WorkerParams(sni, tls), sni, tls)
  {
    DistinctPairs(WorkerParams(sni, tls), sni, tls);
    ParamsRead(WorkerParams(sni, tls), sni, tls);
  }

  // ----- links are read back -----

  /** An ASCII host that cannot end early in a link. Every valid host is one, IPv6 literals included. */
  predicate LinkHost(host: string) {
    '#' !in host && '?' !in host && '\n' !in host && IsAscii(host)
  }

  lemma AuthorityRoundTrip(user: string, host: string, port: int)
    requires '@' !in user
    ensures ParseAuthority(Authority(user, host, port)) == Some((user, host, port))
  {
    var digits := PrintInt(port);
    forall c | c in digits ensures c != ':' { PrintIntChars(port, c); }
    assert Authority(user, host, port) == user + "@" + (host + ":" + digits);
    CutFirstAt(user, host + ":" + digits, '@');
    CutLastAt(host, digits, ':');
    PrintParseInt(port);
  }

  /** A reader that takes the port after the first colon, as section 3.2 of RFC 3986 allows it for a host without
      brackets, finds the host only when it has no colon of its own: never an IPv6 literal. */
  lemma UnbracketedHost(host: string, port: int)
    ensures CutFirst(host + ":" + PrintInt(port), ':') == Some((host, PrintInt(port))) <==> ':' !in host
  {
    CutFirstParts(host + ":" + PrintInt(port), ':');
    if ':' !in host { CutFirstAt(host, PrintInt(port), ':'); }
  }

  predicate Undelimited(s: string) { '#' !in s && '?' !in s }

  lemma AuthorityChars(scheme: string, user: string, host: string, port: int)
    requires Undelimited(scheme) && Undelimited(user) && LinkHost(host)
    ensures Undelimited(scheme + Authority(user, host, port))
  {
    forall c | c in PrintInt(port) ensures c != '#' && c != '?' { PrintIntChars(port, c); }
  }

  lemma LinkCut(main: string, query: string, fragment: string)
    requires Undelimited(main) && '#' !in query
    ensures CutLink(LinkText(main, query, fragment)) == Some((main, query, fragment))
  {
    var body := main + if query != "" then "?" + query else "";
    CutFirstAt(body, fragment, '#');
    if query != "" {
      CutFirstAt(main, query, '?');
      assert body == main + "?" + query;
    } else {
      CutFirstAbsent(main, '?');
      assert body == main;
    }
  }

  lemma QueryRead(form: Escape.Style, pairs: seq<Pair>)
    ensures ParseQuery(QueryText(form, pairs)) == Some(pairs) && '#' !in QueryText(form, pairs)
  {
    QueryRoundTrip(form, pairs);
    assert !Escape.IsEscapedChar('#');
  }

  lemma TrojanRead(style: Escape.Style, x: ByteProxy, pairs: seq<Pair>, query: string)
    requires x.Trojan? && LinkHost(x.host) && ParamsOf(pairs, x.sni, x.tls)
    requires ParseQuery(query) == Some(pairs) && '#' !in query
    ensures ParseLink(LinkText("trojan://" + Authority(Escape.Escape(style, x.password), x.host, x.port), query,
                               Escape.Escape(style, x.name))) == Some(x)
  {
    EscapedDelimiters(style, x.password);
    TrojanFields(style, x, pairs, query);
    TrojanLinkRead(Escape.Escape(style, x.password), x.host, x.port, query, Escape.Escape(style, x.name));
  }

  lemma TrojanLinkRoundTrip(style: Escape.Style, form: Escape.Style, x: ByteProxy, pairs: seq<Pair>)
    requires x.Trojan? && LinkHost(x.host) && ParamsOf(pairs, x.sni, x.tls)
    ensures ParseLink(LinkText("trojan://" + Authority(Escape.Escape(style, x.password), x.host, x.port),
                               QueryText(form, pairs), Escape.Escape(style, x.name))) == Some(x)
  {
    hide *;
    QueryRead(form, pairs);
    TrojanRead(style, x, pairs, QueryText(form, pairs));
  }

  lemma EscapedDelimiters(style: Escape.Style, s: Bytes)
    ensures Undelimited(Escape.Escape(style, s)) && '@' !in Escape.Escape(style, s)
  {
    hide Escape.Escape;
    forall c | c in Escape.Escape(style, s) ensures Escape.IsEscapedChar(c) { Escape.EscapedChars(style, s, c); }
  }

  /** A trojan link is cut into its authority, query and fragment. */
  lemma TrojanLinkRead(user: string, host: string, port: int, query: string, fragment: string)
    requires Undelimited(user) && LinkHost(host) && '#' !in query
    ensures ParseLink(LinkText("trojan://" + Authority(user, host, port), query, fragment)) ==
            ParseTrojan(Authority(user, host, port), query, fragment)
  {
    AuthorityChars("trojan://", user, host, port);
    LinkCut("trojan://" + Authority(user, host, port), query, fragment);
    ExpectAt("trojan://", Authority(user, host, port));
  }

  lemma TrojanFields(style: Escape.Style, x: ByteProxy, pairs: seq<Pair>, query: string)
    requires x.Trojan? && ParamsOf(pairs, x.sni, x.tls) && ParseQuery(query) == Some(pairs)
    ensures ParseTrojan(Authority(Escape.Escape(style, x.password), x.host, x.port), query,
                        Escape.Escape(style, x.name)) == Some(x)
  {
    var user := Escape.Escape(style, x.password);
    forall c | c in user ensures c != '@' { Escape.EscapedChars(style, x.password, c); }
    AuthorityRoundTrip(user, x.host, x.port);
    Escape.FormRoundTrip(style, x.password);
    Escape.FormRoundTrip(style, x.name);
  }

  /** What a shadowsocks link says: the secret is cut at its first colon. */
  function Recovered(x: Proxy): Proxy {
    match x
    case Trojan(_, _, _, _, _, _) => x
    case Shadowsocks(name, host, port, cipher, password) =>
      match CutFirst(cipher, ':')
      case None => x
      case Some((head, tail)) => Shadowsocks(name, host, port, head, tail + ":" + password)
  }

  lemma {:induction false} CutFirstParts(s: string, c: char)
    ensures match CutFirst(s, c)
            case None => c !in s
            case Some((a, b)) => s == a + [c] + b && c !in a
  {
    if s != "" && s[0] != c { CutFirstParts(s[1..], c); }
  }

  lemma SecretCut(x: ByteProxy)
    requires x.Shadowsocks?
    ensures CutFirst(Secret(x), ':') == Some((Recovered(x).cipher, Recovered(x).password))
  {
    CutFirstParts(x.cipher, ':');
    match CutFirst(x.cipher, ':')
    case None => CutFirstAt(x.cipher, x.password, ':');
    case Some((a, b)) =>
      assert Secret(x) == a + ":" + (b + ":" + x.password);
      CutFirstAt(a, b + ":" + x.password, ':');
  }

  lemma {:induction false} DigitsChars(vs: seq<int>, c: char)
    requires c in Base64.Digits(Base64.Url, vs)
    ensures IsAlnum(c) || c == '-' || c == '_'
  {
    if c != Base64.Digit(Base64.Url, vs[0]) { DigitsChars(vs[1..], c); }
  }

  lemma EncodedDelimiters(secret: Bytes)
    ensures Undelimited(Base64.Encode(Base64.Url, false, secret)) && '@' !in Base64.Encode(Base64.Url, false, secret)
  {
    var user := Base64.Encode(Base64.Url, false, secret);
    assert user == Base64.Digits(Base64.Url, Base64.Pack(secret));
    forall c | c in user ensures IsAlnum(c) || c == '-' || c == '_' { DigitsChars(Base64.Pack(secret), c); }
  }

  /** A shadowsocks link is cut into its authority and fragment. */
  lemma ShadowsocksLinkRead(user: string, host: string, port: int, fragment: string)
    requires Undelimited(user) && LinkHost(host)
    ensures ParseLink(LinkText("ss://" + Authority(user, host, port), "", fragment)) ==
            ParseShadowsocks(Authority(user, host, port), fragment)
  {
    var authority := Authority(user, host, port);
    AuthorityChars("ss://", user, host, port);
    LinkCut("ss://" + authority, "", fragment);
    assert ("ss://" + authority)[0] == 's' && "trojan://"[0] == 't';
    ExpectAt("ss://", authority);
  }

  /** The record a secret stands for: it is cut at its first colon. */
  function SecretProxy(name: string, host: string, port: int, secret: string): Option<Proxy> {
    var (cipher, password) :- CutFirst(secret, ':');
    Some(Shadowsocks(name, host, port, cipher, password))
  }

  lemma SecretRead(style: Escape.Style, name: Bytes, host: string, port: int, secret: Bytes)
    requires LinkHost(host)
    ensures ParseLink(LinkText("ss://" + Authority(Base64.Encode(Base64.Url, false, secret), host, port), "",
                               Escape.Escape(style, name))) == SecretProxy(name, host, port, secret)
  {
    var user := Base64.Encode(Base64.Url, false, secret);
    EncodedDelimiters(secret);
    ShadowsocksLinkRead(user, host, port, Escape.Escape(style, name));
    AuthorityRoundTrip(user, host, port);
    Base64.RoundTrip(Base64.Url, false, secret);
    Escape.FormRoundTrip(style, name);
  }

  /** What the Worker's link says: the secret is encoded as single-byte characters. */
  function WorkerRecovered(x: ByteProxy): Option<Proxy> {
    if x.Trojan? then Some(x)
    else
      var bytes :- Latin1(Secret(x));
      SecretProxy(x.name, x.host, x.port, bytes)
  }

  /** The secret has no character above U+00FF. */
  predicate Encodable(x: ByteProxy) { x.Shadowsocks? ==> Latin1(Secret(x)).Some? }

  predicate AsciiSecret(x: Proxy) { x.Shadowsocks? ==> IsAscii(x.cipher) && IsAscii(x.password) }

  lemma CutSame(a: string, b: string)
    requires CutFirst(a, ':').Some? && CutFirst(a, ':') == CutFirst(b, ':')
    ensures a == b
  {
    CutFirstParts(a, ':');
    CutFirstParts(b, ':');
  }

  lemma SecretAscii(x: ByteProxy)
    requires x.Shadowsocks?
    ensures IsAscii(Secret(x)) <==> AsciiSecret(x)
  {
    var s := Secret(x);
    assert forall i :: 0 <= i < |x.cipher| ==> s[i] == x.cipher[i];
    assert forall i :: 0 <= i < |x.password| ==> s[|x.cipher| + 1 + i] == x.password[i];
  }

  /** The two links say the same exactly when the secret is ASCII. */
  lemma WorkerRecoveredExactly(x: ByteProxy)
    ensures WorkerRecovered(x) == Some(Recovered(x)) <==> AsciiSecret(x)
    ensures Encodable(x) ==> WorkerRecovered(x).Some?
  {
    if x.Shadowsocks? {
      SecretCut(x);
      SecretAscii(x);
      Latin1Same(Secret(x));
      if Latin1(Secret(x)).Some? {
        var bytes := Latin1(Secret(x)).value;
        Latin1Ascii(Secret(x), ':');
        CutFirstParts(bytes, ':');
        if CutFirst(bytes, ':') == CutFirst(Secret(x), ':') { CutSame(bytes, Secret(x)); }
      }
    }
  }

  /** Go's link gives back the record, its secret cut at the first colon. */
  lemma GoLinkRoundTrip(x: ByteProxy)
    requires LinkHost(x.host)
    ensures ParseLink(GoLink(x)) == Some(Recovered(x))
  {
    if x.Trojan? {
      GoParamsRead(x.sni, x.tls);
      TrojanLinkRoundTrip(Escape.GoQuery, Escape.GoQuery, x, Sort(GoParams(x.sni, x.tls), PairKey));
    } else {
      SecretRead(Escape.GoQuery, x.name, x.host, x.port, Secret(x));
      SecretCut(x);
    }
  }

  lemma WorkerLinkRoundTrip(x: ByteProxy)
    requires LinkHost(x.host)
    ensures WorkerLink(x).Some? <==> Encodable(x)
    ensures WorkerLink(x).Some? ==> ParseLink(WorkerLink(x).value) == WorkerRecovered(x)
  {
    if x.Trojan? {
      WorkerParamsRead(x.sni, x.tls);
      TrojanLinkRoundTrip(Escape.JsComponent, Escape.JsForm, x, WorkerParams(x.sni, x.tls));
    } else {
      Base64.JsUrlEncodeIs(Secret(x));
      if Latin1(Secret(x)).Some? {
        SecretRead(Escape.JsComponent, x.name, x.host, x.port, Latin1(Secret(x)).value);
      }
    }
  }

  /** One parser undoes Go's printer; and it reads the same from the Worker's link, whatever the query order and the
      way a space is escaped, exactly when the shadowsocks secret is ASCII. Elsewhere the Worker throws or encodes
      other bytes. */
  lemma LinkRoundTrip(x: ByteProxy)
    requires LinkHost(x.host)
    ensures ParseLink(GoLink(x)) == Some(Recovered(x))
    ensures (WorkerLink(x).Some? && ParseLink(WorkerLink(x).value) == Some(Recovered(x))) <==> AsciiSecret(x)
  {
    GoLinkRoundTrip(x);
    WorkerLinkRoundTrip(x);
    WorkerRecoveredExactly(x);
  }

  /** The record is the one printed exactly when no cipher name holds a colon. */
  predicate ColonFree(x: Proxy) { x.Shadowsocks? ==> ':' !in x.cipher }

  lemma RecoveredExactly(x: Proxy)
    ensures Recovered(x) == x <==> ColonFree(x)
  {
    if x.Shadowsocks? { CutFirstParts(x.cipher, ':'); }
  }

  /** Otherwise the part behind the colon moves to the password. */
  lemma ColonMoves(name: string, host: string, port: int)
    ensures Recovered(Shadowsocks(name, host, port, "a:b", "c")) == Shadowsocks(name, host, port, "a", "b:c")
  {
    assert "a:b" == "a" + ":" + "b";
    CutFirstAt("a", "b", ':');
    assert "b" + ":" + "c" == "b:c";
  }

  // ----- link lists -----

  function GoLinks(xs: seq<ByteProxy>): seq<string> { Map(GoLink, xs) }

  /** None as soon as one link throws. */
  function WorkerLinks(xs: seq<ByteProxy>): Option<seq<string>> { Gather(Map(WorkerLink, xs)) }

  lemma WorkerLinksAll(xs: seq<ByteProxy>)
    ensures WorkerLinks(xs).Some? <==> forall i :: 0 <= i < |xs| ==> WorkerLink(xs[i]).Some?
  {
    hide WorkerLink;
    GatherAll(Map(WorkerLink, xs));
  }

  lemma WorkerLinksLast(xs: seq<ByteProxy>, x: ByteProxy)
    ensures WorkerLinks(xs + [x]) ==
            if WorkerLinks(xs).Some? && WorkerLink(x).Some? then
              Some(WorkerLinks(xs).value + [WorkerLink(x).value])
            else None
  {
    MapLast(WorkerLink, xs, x);
    GatherLast(Map(WorkerLink, xs), WorkerLink(x));
  }

  lemma WorkerLinksSome(xs: seq<ByteProxy>)
    ensures WorkerLinks(xs).Some? <==> forall i :: 0 <= i < |xs| ==> WorkerLink(xs[i]).Some?
    ensures WorkerLinks(xs).Some? ==> |WorkerLinks(xs).value| == |xs|
  {
    var found := Map(WorkerLink, xs);
    GatherAll(found);
    if WorkerLinks(xs).Some? {
      forall i | 0 <= i < |xs| ensures WorkerLink(xs[i]).Some? { assert found[i].Some?; }
    }
  }

  lemma WorkerLinksAt(xs: seq<ByteProxy>, i: nat)
    requires WorkerLinks(xs).Some? && i < |xs| == |WorkerLinks(xs).value|
    ensures WorkerLink(xs[i]) == Some(WorkerLinks(xs).value[i])
  {
    GatherAt(Map(WorkerLink, xs), i);
  }

  function AllRecovered(xs: seq<Proxy>): seq<Proxy> {
    seq(|xs|, i requires 0 <= i < |xs| => Recovered(xs[i]))
  }

  function ListText(links: seq<string>): string { Join(links, "\n") + "\n" }

  predicate OneLine(s: string) { s != "" && '\n' !in s }

  lemma LinkTextOneLine(scheme: string, user: string, host: string, port: int, query: string, fragment: string)
    requires '\n' !in scheme && '\n' !in user && '\n' !in host && '\n' !in query && '\n' !in fragment
    ensures OneLine(LinkText(scheme + Authority(user, host, port), query, fragment))
  {
    var text := LinkText(scheme + Authority(user, host, port), query, fragment);
    forall c | c in PrintInt(port) ensures c != '\n' { PrintIntChars(port, c); }
    var rest := if query != "" then "?" + query else "";
    assert '\n' !in rest;
    assert text == scheme + Authority(user, host, port) + rest + "#" + fragment;
    assert |text| > 0;
  }

  lemma EscapedOneLine(style: Escape.Style, s: Bytes)
    ensures '\n' !in Escape.Escape(style, s)
  {
    if '\n' in Escape.Escape(style, s) { Escape.EscapedChars(style, s, '\n'); assert false; }
  }

  lemma QueryOneLine(form: Escape.Style, pairs: seq<Pair>)
    ensures '\n' !in QueryText(form, pairs)
  {
    QueryRoundTrip(form, pairs);
    assert !Escape.IsEscapedChar('\n');
  }

  lemma TrojanOneLine(style: Escape.Style, form: Escape.Style, x: ByteProxy, pairs: seq<Pair>)
    requires x.Trojan? && LinkHost(x.host)
    ensures OneLine(LinkText("trojan://" + Authority(Escape.Escape(style, x.password), x.host, x.port),
                             QueryText(form, pairs), Escape.Escape(style, x.name)))
  {
    EscapedOneLine(style, x.password);
    EscapedOneLine(style, x.name);
    QueryOneLine(form, pairs);
    LinkTextOneLine("trojan://", Escape.Escape(style, x.password), x.host, x.port, QueryText(form, pairs),
                    Escape.Escape(style, x.name));
  }

  lemma ShadowsocksOneLine(style: Escape.Style, name: Bytes, host: string, port: int, secret: Bytes)
    requires LinkHost(host)
    ensures OneLine(LinkText("ss://" + Authority(Base64.Encode(Base64.Url, false, secret), host, port), "",
                             Escape.Escape(style, name)))
  {
    var user := Base64.Encode(Base64.Url, false, secret);
    assert user == Base64.Digits(Base64.Url, Base64.Pack(secret));
    forall c | c in user ensures c != '\n' { DigitsChars(Base64.Pack(secret), c); }
    EscapedOneLine(style, name);
    LinkTextOneLine("ss://", user, host, port, "", Escape.Escape(style, name));
  }

  lemma LinksOneLine(x: ByteProxy)
    requires LinkHost(x.host)
    ensures OneLine(GoLink(x)) && (WorkerLink(x).Some? ==> OneLine(WorkerLink(x).value))
  {
    if x.Trojan? {
      TrojanOneLine(Escape.GoQuery, Escape.GoQuery, x, Sort(GoParams(x.sni, x.tls), PairKey));
      TrojanOneLine(Escape.JsComponent, Escape.JsForm, x, WorkerParams(x.sni, x.tls));
    } else {
      ShadowsocksOneLine(Escape.GoQuery, x.name, x.host, x.port, Secret(x));
      Base64.JsUrlEncodeIs(Secret(x));
      if Latin1(Secret(x)).Some? {
        ShadowsocksOneLine(Escape.JsComponent, x.name, x.host, x.port, Latin1(Secret(x)).value);
      }
    }
  }

  lemma {:induction false} LinesRead(lines: seq<string>, records: seq<Proxy>)
    requires |lines| == |records|
    requires forall i :: 0 <= i < |lines| ==> lines[i] != "" && ParseLink(lines[i]) == Some(records[i])
    ensures ParseLines(lines + [""]) == Some(records)
  {
    if lines == [] {
      assert lines + [""] == [""];
    } else {
      LinesRead(lines[1..], records[1..]);
      assert (lines + [""])[1..] == lines[1..] + [""];
      assert records == [records[0]] + records[1..];
    }
  }

  /** A list of one-line links is read line by line; the empty list is a lone line feed and reads as no link. */
  lemma ListRead(lines: seq<string>, records: seq<Proxy>)
    requires |lines| == |records|
    requires forall i :: 0 <= i < |lines| ==> OneLine(lines[i]) && ParseLink(lines[i]) == Some(records[i])
    ensures ParseLinks(ListText(lines)) == Some(records)
  {
    if lines == [] {
      assert Split("\n", '\n') == [""] + Split("", '\n');
      assert ListText(lines) == "\n";
      assert ParseLines(["", ""]) == ParseLines([""]) by { assert ["", ""][1..] == [""]; }
    } else {
      UnlinesJoin(lines);
      SplitUnlines(lines);
      LinesRead(lines, records);
    }
  }

  predicate LinkHosts(xs: seq<Proxy>) {
    forall i :: 0 <= i < |xs| ==> LinkHost(xs[i].host)
  }

  /** Go's list parses to the printed proxies - type, password, host, port, sni, tls, cipher and label, in order -
      exactly when no cipher name holds a colon. */
  lemma LinkListRoundTrip(xs: seq<ByteProxy>)
    requires LinkHosts(xs)
    ensures ParseLinks(ListText(GoLinks(xs))) == Some(AllRecovered(xs))
    ensures AllRecovered(xs) == xs <==> forall i :: 0 <= i < |xs| ==> ColonFree(xs[i])
  {
    forall i | 0 <= i < |xs|
      ensures OneLine(GoLink(xs[i])) && ParseLink(GoLink(xs[i])) == Some(Recovered(xs[i]))
      ensures Recovered(xs[i]) == xs[i] <==> ColonFree(xs[i])
    {
      LinksOneLine(xs[i]);
      GoLinkRoundTrip(xs[i]);
      RecoveredExactly(xs[i]);
    }
    ListRead(GoLinks(xs), AllRecovered(xs));
    assert AllRecovered(xs) == xs ==> forall i :: 0 <= i < |xs| ==> AllRecovered(xs)[i] == xs[i];
  }

  predicate AsciiSecrets(xs: seq<Proxy>) {
    forall i :: 0 <= i < |xs| ==> AsciiSecret(xs[i])
  }

  function AllWorkerRecovered(xs: seq<ByteProxy>): (r: seq<Proxy>)
    requires forall i :: 0 <= i < |xs| ==> Encodable(xs[i])
    ensures |r| == |xs| && forall i :: 0 <= i < |xs| ==> Some(r[i]) == WorkerRecovered(xs[i])
  {
    if xs == [] then []
    else
      WorkerRecoveredExactly(xs[0]);
      [WorkerRecovered(xs[0]).value] + AllWorkerRecovered(xs[1..])
  }

  lemma WorkerListRead(xs: seq<ByteProxy>)
    requires LinkHosts(xs) && WorkerLinks(xs).Some?
    ensures forall i :: 0 <= i < |xs| ==> Encodable(xs[i])
    ensures ParseLinks(ListText(WorkerLinks(xs).value)) == Some(AllWorkerRecovered(xs))
  {
    var links := WorkerLinks(xs).value;
    WorkerLinksSome(xs);
    forall i | 0 <= i < |xs|
      ensures Encodable(xs[i]) && OneLine(links[i]) && ParseLink(links[i]) == WorkerRecovered(xs[i])
    {
      WorkerLinksAt(xs, i);
      LinksOneLine(xs[i]);
      WorkerLinkRoundTrip(xs[i]);
    }
    ListRead(links, AllWorkerRecovered(xs));
  }

  lemma AsciiEncodable(x: ByteProxy)
    ensures AsciiSecret(x) ==> Encodable(x)
  {
    if x.Shadowsocks? {
      SecretAscii(x);
      Latin1Same(Secret(x));
    }
  }

  /** The Worker's list exists exactly when no secret has a character above U+00FF, and it reads like Go's exactly
      when all secrets are ASCII. */
  lemma LinkListsAgree(xs: seq<ByteProxy>)
    requires LinkHosts(xs)
    ensures WorkerLinks(xs).Some? <==> forall i :: 0 <= i < |xs| ==> Encodable(xs[i])
    ensures (WorkerLinks(xs).Some? && ParseLinks(ListText(WorkerLinks(xs).value)) == ParseLinks(ListText(GoLinks(xs))))
            <==> AsciiSecrets(xs)
  {
    hide ParseLinks, GoLinks, WorkerLinks, ListText, WorkerLink, Recovered, WorkerRecovered, AsciiSecret, Encodable;
    LinkListRoundTrip(xs);
    WorkerLinksSome(xs);
    forall i | 0 <= i < |xs|
      ensures WorkerLink(xs[i]).Some? <==> Encodable(xs[i])
      ensures WorkerRecovered(xs[i]) == Some(Recovered(xs[i])) <==> AsciiSecret(xs[i])
      ensures AsciiSecret(xs[i]) ==> Encodable(xs[i])
    {
      WorkerLinkRoundTrip(xs[i]);
      WorkerRecoveredExactly(xs[i]);
      AsciiEncodable(xs[i]);
    }
    if WorkerLinks(xs).Some? {
      WorkerListRead(xs);
      SameElements(AllWorkerRecovered(xs), AllRecovered(xs));
    }
  }

  // ----- the printers -----

  /** The query is filled, then encoded, which sorts it. */
  method GoEncodeParams(p: Protocol) returns (encoded: string)
    ensures encoded == GoQuery(p.sni, p.tls)
  {
    var query: seq<Pair> := [];
    if p.sni != "" { query := query + [("sni", p.sni)] + [("peer", p.sni)]; }
    if p.tls { query := query + [("security", "tls")]; }
    assert query == GoParams(p.sni, p.tls);
    encoded := QueryText(Escape.GoQuery, Sort(query, PairKey));
  }

  method WorkerSetParams(p: Protocol) returns (params: seq<Pair>)
    ensures params == WorkerParams(p.sni, p.tls)
  {
    params := [];
    if p.sni != "" { params := params + [("peer", p.sni)] + [("sni", p.sni)]; }
    if p.tls { params := params + [("security", "tls")]; }
  }

  lemma AuthorityText(scheme: string, user: string, host: string, port: int)
    ensures scheme + Authority(user, host, port) == scheme + user + "@" + host + ":" + PrintInt(port)
  {
    Associate(scheme, user + "@" + host + ":", PrintInt(port));
    Associate(scheme, user + "@" + host, ":");
    Associate(scheme, user + "@", host);
    Associate(scheme, user, "@");
  }

  method GoAssembleLink(main: string, encoded: string, fragment: string) returns (link: string)
    ensures link == LinkText(main, encoded, fragment)
  {
    link := main;
    if encoded != "" { link := link + ("?" + encoded); } else { assert link + "" == link; }
    link := link + "#" + fragment;
  }

  /** One trojan entry of Go's renderLinks. */
  method GoTrojanLink(node: Node, p: Protocol) returns (link: string)
    ensures var query := GoQueryText(p.sni, p.tls);
            link == "trojan://" + Escape.Escape(Escape.GoQuery, p.password) + "@" + node.host + ":" + PrintInt(p.port) +
                    (if query != "" then "?" + query else "") + "#" +
                    Escape.Escape(Escape.GoQuery, node.name + "-Trojan")
    ensures link == GoLink(TrojanOf(node, p))
  {
    var encoded := GoEncodeParams(p);
    var user := Escape.Escape(Escape.GoQuery, p.password);
    GoQueryWritten(p.sni, p.tls);
    AuthorityText("trojan://", user, node.host, p.port);
    hide GoQuery, GoQueryText, Escape.Escape;
    link := GoAssembleLink("trojan://" + Authority(user, node.host, p.port), encoded,
                           Escape.Escape(Escape.GoQuery, TrojanName(node)));
  }

  method GoShadowsocksLink(node: Node, p: Protocol) returns (link: string)
    ensures link == "ss://" + Base64.Encode(Base64.Url, false, p.cipher + ":" + p.password) + "@" + node.host + ":" +
                    PrintInt(p.port) + "#" + Escape.Escape(Escape.GoQuery, node.name + "-SS")
    ensures link == GoLink(ShadowsocksOf(node, p))
  {
    var userInfo := Base64.Encode(Base64.Url, false, p.cipher + ":" + p.password);
    AuthorityText("ss://", userInfo, node.host, p.port);
    hide Escape.Escape, Base64.Encode;
    link := GoAssembleLink("ss://" + Authority(userInfo, node.host, p.port), "",
                           Escape.Escape(Escape.GoQuery, ShadowsocksName(node)));
    assert "ss://" + Authority(userInfo, node.host, p.port) + "" == "ss://" + Authority(userInfo, node.host, p.port);
  }

  /** Go's renderLinks. */
  method GoRenderLinks(nodes: seq<Node>) returns (text: string)
    ensures text == Join(GoLinks(Proxies(nodes)), "\n") + "\n"
    ensures text == ListText(GoLinks(Proxies(nodes)))
  {
    var links: seq<string> := [];
    for i := 0 to |nodes|
      invariant links == GoLinks(Proxies(nodes[..i]))
    {
      MetStart(nodes, i);
      for j := 0 to |nodes[i].protocols|
        invariant links == GoLinks(Met(nodes, i, j))
      {
        var p := nodes[i].protocols[j];
        MetStep(nodes, i, j);
        if p.kind == "trojan" {
          var link := GoTrojanLink(nodes[i], p);
          MapLast(GoLink, Met(nodes, i, j), ProxyOf(nodes[i], p)[0]);
          links := links + [link];
        } else if p.kind == "shadowsocks" {
          var link := GoShadowsocksLink(nodes[i], p);
          MapLast(GoLink, Met(nodes, i, j), ProxyOf(nodes[i], p)[0]);
          links := links + [link];
        }
      }
      MetEnd(nodes, i);
    }
    assert nodes[..|nodes|] == nodes;
    text := Join(links, "\n") + "\n";
  }

  method WorkerAssembleLink(main: string, query: string, fragment: string) returns (link: string)
    ensures link == LinkText(main, query, fragment)
  {
    link := main + (if query != "" then "?" + query else "") + "#" + fragment;
  }

  method WorkerTrojanLink(node: Node, p: Protocol) returns (link: string)
    ensures var query := WorkerQueryText(p.sni, p.tls);
            link == "trojan://" + Escape.Escape(Escape.JsComponent, p.password) + "@" + node.host + ":" +
                    PrintInt(p.port) + (if query != "" then "?" + query else "") + "#" +
                    Escape.Escape(Escape.JsComponent, node.name + "-Trojan")
    ensures Some(link) == WorkerLink(TrojanOf(node, p))
  {
    var params := WorkerSetParams(p);
    var user := Escape.Escape(Escape.JsComponent, p.password);
    WorkerQueryWritten(p.sni, p.tls);
    AuthorityText("trojan://", user, node.host, p.port);
    hide QueryText, WorkerQueryText, WorkerParams, Escape.Escape;
    link := WorkerAssembleLink("trojan://" + Authority(user, node.host, p.port),
                               QueryText(Escape.JsForm, params), Escape.Escape(Escape.JsComponent, TrojanName(node)));
  }

  method WorkerShadowsocksLink(node: Node, p: Protocol) returns (link: Option<string>)
    ensures link == match Base64.JsUrlEncode(p.cipher + ":" + p.password)
                    case None => None
                    case Some(user) =>
                      Some("ss://" + user + "@" + node.host + ":" + PrintInt(p.port) + "#" +
                           Escape.Escape(Escape.JsComponent, node.name + "-SS"))
    ensures link == WorkerLink(ShadowsocksOf(node, p))
  {
    var userInfo := Base64.JsUrlEncode(p.cipher + ":" + p.password);
    hide Escape.Escape, Base64.JsUrlEncode;
    if userInfo == None { return None; }
    AuthorityText("ss://", userInfo.value, node.host, p.port);
    var text := WorkerAssembleLink("ss://" + Authority(userInfo.value, node.host, p.port), "",
                                   Escape.Escape(Escape.JsComponent, ShadowsocksName(node)));
    assert "ss://" + Authority(userInfo.value, node.host, p.port) + "" ==
           "ss://" + Authority(userInfo.value, node.host, p.port);
    return Some(text);
  }

  function WorkerListText(xs: seq<ByteProxy>): Option<string> {
    var links :- WorkerLinks(xs);
    Some(ListText(links))
  }

  /** One round of the Worker's loop; None when it throws. */
  method WorkerRound(links: seq<string>, node: Node, p: Protocol, ghost met: seq<ByteProxy>)
    returns (links': Option<seq<string>>)
    requires WorkerLinks(met) == Some(links)
    ensures links' == WorkerLinks(met + ProxyOf(node, p))
  {
    if p.kind == "trojan" {
      var link := WorkerTrojanLink(node, p);
      WorkerLinksLast(met, TrojanOf(node, p));
      return Some(links + [link]);
    }
    if p.kind == "shadowsocks" {
      var link := WorkerShadowsocksLink(node, p);
      WorkerLinksLast(met, ShadowsocksOf(node, p));
      return if link == None then None else Some(links + [link.value]);
    }
    assert met + ProxyOf(node, p) == met;
    return Some(links);
  }

  lemma {:induction false} SpoiltEarlier(xs: seq<ByteProxy>, ys: seq<ByteProxy>)
    requires WorkerLinks(xs) == None
    ensures WorkerLinks(xs + ys) == None
  {
    hide *;
    WorkerLinksSome(xs);
    WorkerLinksSome(xs + ys);
    var i :| 0 <= i < |xs| && WorkerLink(xs[i]) == None;
    assert (xs + ys)[i] == xs[i];
  }

  /** One link that throws spoils the list. */
  lemma Spoilt(nodes: seq<Node>, i: nat, j: nat)
    requires i < |nodes| && j < |nodes[i].protocols| && WorkerLinks(Met(nodes, i, j + 1)) == None
    ensures WorkerLinks(Proxies(nodes)) == None
  {
    hide *;
    var rest := MetPrefix(nodes, i, j + 1);
    SpoiltEarlier(Met(nodes, i, j + 1), rest);
  }

  /** The Worker's renderLinks; None when it throws. */
  method WorkerRenderLinks(nodes: seq<Node>) returns (text: Option<string>)
    ensures text.Some? <==> forall i :: 0 <= i < |Proxies(nodes)| ==> WorkerLink(Proxies(nodes)[i]).Some?
    ensures text.Some? ==> WorkerLinks(Proxies(nodes)).Some? &&
                           text.value == Join(WorkerLinks(Proxies(nodes)).value, "\n") + "\n"
    ensures text == WorkerListText(Proxies(nodes))
  {
    WorkerLinksAll(Proxies(nodes));
    var links: seq<string> := [];
    for i := 0 to |nodes|
      invariant WorkerLinks(Proxies(nodes[..i])) == Some(links)
    {
      MetStart(nodes, i);
      for j := 0 to |nodes[i].protocols|
        invariant WorkerLinks(Met(nodes, i, j)) == Some(links)
      {
        MetStep(nodes, i, j);
        var extended := WorkerRound(links, nodes[i], nodes[i].protocols[j], Met(nodes, i, j));
        if extended == None {
          Spoilt(nodes, i, j);
          return None;
        }
        links := extended.value;
      }
      MetEnd(nodes, i);
    }
    assert nodes[..|nodes|] == nodes;
    text := Some(Join(links, "\n") + "\n");
  }
}
