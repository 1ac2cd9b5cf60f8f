/** Admission of a node by the Go registry, by the Cloudflare Worker, and the host check of the installer. */
module Validators {
  import opened Text
  import opened Numbers
  import opened Nodes

  // ----- hosts -----

  predicate HostChar(c: char) { IsAlnum(c) || c == '.' || c == '-' }

  /** ^[A-Za-z0-9][A-Za-z0-9.-]{0,252}[A-Za-z0-9]$ */
  predicate HostPattern(s: string) {
    2 <= |s| <= 254 && IsAlnum(s[0]) && IsAlnum(s[|s| - 1]) && forall i :: 0 <= i < |s| ==> HostChar(s[i])
  }

  /** ^[A-Za-z0-9][A-Za-z0-9._-]{1,63}$ */
  predicate NodeIDPattern(s: string) {
    2 <= |s| <= 64 && IsAlnum(s[0]) && forall i :: 1 <= i < |s| ==> HostChar(s[i]) || s[i] == '_'
  }

  predicate IsOctet(s: string) {
    1 <= |s| <= 3 && AllDigits(s) && NatValue(s) <= 255 && (|s| == 1 || s[0] != '0')
  }

  /** IPv4 as net.ParseIP reads it: four decimal octets without leading zeros. */
  predicate IsIPv4(s: string) {
    var parts := Split(s, '.');
    |parts| == 4 && forall i :: 0 <= i < 4 ==> IsOctet(parts[i])
  }

  predicate IsHexGroup(s: string) {
    1 <= |s| <= 4 && forall i :: 0 <= i < |s| ==> IsDigit(s[i]) || 'a' <= s[i] <= 'f' || 'A' <= s[i] <= 'F'
  }

  /** The number of 16-bit groups in a colon-separated list, which may end in an IPv4 address worth two. */
  function GroupCount(s: string, mayEndInIPv4: bool): Option<nat> {
    if s == "" then Some(0)
    else
      var parts := Split(s, ':');
      var last := |parts| - 1;
      if exists i :: 0 <= i < last && !IsHexGroup(parts[i]) then None
      else if IsHexGroup(parts[last]) then Some(|parts|)
      else if mayEndInIPv4 && IsIPv4(parts[last]) then Some(|parts| + 1)
      else None
  }

  /** The texts around the first double colon. */
  function CutDoubleColon(s: string): Option<(string, string)> {
    if |s| < 2 then None
    else if s[0] == ':' && s[1] == ':' then Some(("", s[2..]))
    else
      var (a, b) :- CutDoubleColon(s[1..]);
      Some(([s[0]] + a, b))
  }

  /** IPv6 as net.ParseIP reads it: eight groups, or fewer around one double colon; no zone. */
  predicate IsIPv6(s: string) {
    match CutDoubleColon(s)
    case None => s != "" && GroupCount(s, true) == Some(8)
    case Some((a, b)) =>
      var left, right := GroupCount(a, false), GroupCount(b, true);
      left.Some? && right.Some? && left.value + right.value <= 7
  }

  predicate GoValidHost(h: string) {
    |h| <= 253 && h != "" && (IsIPv4(h) || IsIPv6(h) || (HostPattern(h) && '.' in h))
  }

  /** ^\d{1,3}(\.\d{1,3}){3}$ */
  predicate DottedQuad(s: string) {
    var parts := Split(s, '.');
    |parts| == 4 && forall i :: 0 <= i < 4 ==> 1 <= |parts[i]| <= 3 && AllDigits(parts[i])
  }

  predicate WorkerValidHost(h: string) {
    h != "" && Utf16Length(h) <= 253 && (DottedQuad(h) || ('.' in h && HostPattern(h)))
  }

  /** ^[A-Za-z0-9][A-Za-z0-9.-]{1,252}[A-Za-z0-9]$ and a dot somewhere */
  predicate InstallerValidHost(h: string) {
    3 <= |h| <= 254 && IsAlnum(h[0]) && IsAlnum(h[|h| - 1]) && (forall i :: 0 <= i < |h| ==> HostChar(h[i])) && '.' in h
  }

  // ----- nodes -----

  datatype Problem =
    | BadSchema | BadNodeID | BadName | BadHost | NoProtocols
    | BadPort(kind: string) | NoTrojanPassword | BadSNI | NoShadowsocksSecret | Unsupported(kind: string)

  function GoProtocolProblem(p: Protocol): Option<Problem> {
    if p.port < 1 || p.port > 65535 then Some(BadPort(p.kind))
    else if p.kind == "trojan" then
      if p.password == "" then Some(NoTrojanPassword)
      else if p.sni != "" && !GoValidHost(p.sni) then Some(BadSNI)
      else None
    else if p.kind == "shadowsocks" then
      if p.cipher == "" || p.password == "" then Some(NoShadowsocksSecret) else None
    else Some(Unsupported(p.kind))
  }

  function GoProtocolsProblem(ps: seq<Protocol>): Option<Problem> {
    if ps == [] then None
    else if GoProtocolProblem(ps[0]).Some? then GoProtocolProblem(ps[0])
    else GoProtocolsProblem(ps[1..])
  }

  function GoProblem(node: Node): Option<Problem> {
    if node.schemaVersion != 1 then Some(BadSchema)
    else if !NodeIDPattern(node.nodeID) then Some(BadNodeID)
    else if node.name == "" || |node.name| > 80 then Some(BadName)
    else if !GoValidHost(node.host) then Some(BadHost)
    else if |node.protocols| == 0 then Some(NoProtocols)
    else GoProtocolsProblem(node.protocols)
  }

  function WorkerProtocolProblem(p: Protocol): Option<Problem> {
    if p.port < 1 || p.port > 65535 then Some(BadPort(p.kind))
    else if p.kind == "trojan" then
      if p.password == "" then Some(NoTrojanPassword)
      else if p.sni != "" && !WorkerValidHost(p.sni) then Some(BadSNI)
      else None
    else if p.kind == "shadowsocks" then
      if p.cipher == "" || p.password == "" then Some(NoShadowsocksSecret) else None
    else Some(Unsupported(p.kind))
  }

  function WorkerProtocolsProblem(ps: seq<Protocol>): Option<Problem> {
    if ps == [] then None
    else if WorkerProtocolProblem(ps[0]).Some? then WorkerProtocolProblem(ps[0])
    else WorkerProtocolsProblem(ps[1..])
  }

  function WorkerProblem(node: Node): Option<Problem> {
    if node.schemaVersion != 1 then Some(BadSchema)
    else if !NodeIDPattern(node.nodeID) then Some(BadNodeID)
    else if node.name == "" || Utf16Length(node.name) > 80 then Some(BadName)
    else if !WorkerValidHost(node.host) then Some(BadHost)
    else if |node.protocols| == 0 then Some(NoProtocols)
    else WorkerProtocolsProblem(node.protocols)
  }

  predicate ValidNode(node: Node) { GoProblem(node) == None }

  predicate ValidNodes(nodes: seq<Node>) {
    forall i :: 0 <= i < |nodes| ==> ValidNode(nodes[i])
  }

  predicate IPv6SNI(p: Protocol) { p.kind == "trojan" && IsIPv6(p.sni) }

  /** Some host the node names is an IPv6 literal. */
  predicate UsesIPv6(node: Node) {
    IsIPv6(node.host) || exists i :: 0 <= i < |node.protocols| && IPv6SNI(node.protocols[i])
  }

  // ----- what the patterns accept -----

  /** The character lies in one of the ranges, each written as its first and its last character. */
  predicate InRanges(c: char, ranges: string) {
    exists i :: 0 <= i < |ranges| / 2 && ranges[2 * i] <= c <= ranges[2 * i + 1]
  }

  predicate AllInRanges(s: string, ranges: string) {
    forall i :: 0 <= i < |s| ==> InRanges(s[i], ranges)
  }

  lemma Classes(c: char)
    ensures InRanges(c, "AZaz09") <==> IsAlnum(c)
    ensures InRanges(c, "AZaz09..--") <==> HostChar(c)
    ensures InRanges(c, "AZaz09..__--") <==> HostChar(c) || c == '_'
  {
    var letters, host, id := "AZaz09", "AZaz09..--", "AZaz09..__--";
    assert letters[2 * 0] == 'A' && letters[2 * 1] == 'a' && letters[2 * 2] == '0';
    assert host[2 * 0] == 'A' && host[2 * 1] == 'a' && host[2 * 2] == '0' && host[2 * 3] == '.' && host[2 * 4] == '-';
    assert id[2 * 0] == 'A' && id[2 * 1] == 'a' && id[2 * 2] == '0' && id[2 * 3] == '.' && id[2 * 4] == '_' &&
           id[2 * 5] == '-';
  }

  /** [A-Za-z0-9][A-Za-z0-9._-]{1,63} */
  predicate NodeIDParts(s: string, first: char, rest: string) {
    s == [first] + rest && InRanges(first, "AZaz09") && 1 <= |rest| <= 63 && AllInRanges(rest, "AZaz09..__--")
  }

  lemma NodeIDMeaning(s: string)
    ensures NodeIDPattern(s) <==> exists first, rest :: NodeIDParts(s, first, rest)
  {
    hide InRanges, HostChar, IsAlnum;
    if s != "" { assert s == [s[0]] + s[1..]; Classes(s[0]); }
    forall c ensures InRanges(c, "AZaz09..__--") <==> HostChar(c) || c == '_' { Classes(c); }
    if NodeIDPattern(s) { assert NodeIDParts(s, s[0], s[1..]); }
    if first, rest :| NodeIDParts(s, first, rest) { assert rest == s[1..]; }
  }

  /** [A-Za-z0-9][A-Za-z0-9.-]{least,252}[A-Za-z0-9] */
  predicate HostParts(s: string, least: nat, first: char, middle: string, last: char) {
    s == [first] + middle + [last] && InRanges(first, "AZaz09") && InRanges(last, "AZaz09") &&
    least <= |middle| <= 252 && AllInRanges(middle, "AZaz09..--")
  }

  lemma HostMeaning(s: string)
    ensures HostPattern(s) <==> exists first, middle, last :: HostParts(s, 0, first, middle, last)
    ensures InstallerValidHost(s) <==>
            '.' in s && exists first, middle, last :: HostParts(s, 1, first, middle, last)
  {
    hide InRanges, IsAlnum;
    forall c
      ensures InRanges(c, "AZaz09..--") <==> HostChar(c)
      ensures InRanges(c, "AZaz09") <==> IsAlnum(c)
    {
      Classes(c);
    }
    if |s| >= 2 {
      var first, middle, last := s[0], s[1..|s| - 1], s[|s| - 1];
      assert s == [first] + middle + [last];
      assert AllInRanges(middle, "AZaz09..--") && IsAlnum(first) && IsAlnum(last) ==>
          forall i :: 0 <= i < |s| ==> HostChar(s[i]) by {
        assert forall i :: 1 <= i < |s| - 1 ==> s[i] == middle[i - 1];
      }
      assert HostPattern(s) ==> HostParts(s, 0, first, middle, last);
      assert InstallerValidHost(s) ==> HostParts(s, 1, first, middle, last);
      assert forall a, m, z :: s == [a] + m + [z] ==> a == first && m == middle && z == last by {
        forall a, m, z | s == [a] + m + [z] ensures a == first && m == middle && z == last {
          assert ([a] + m + [z])[1..|s| - 1] == m;
        }
      }
    }
  }

  /** Four numbers below 256 in decimal, joined by dots. */
  predicate QuadParts(s: string, a: nat, b: nat, c: nat, d: nat) {
    a < 256 && b < 256 && c < 256 && d < 256 &&
    s == PrintInt(a) + "." + PrintInt(b) + "." + PrintInt(c) + "." + PrintInt(d)
  }

  lemma OctetMeaning(s: string)
    ensures IsOctet(s) <==> exists n: nat :: n < 256 && s == PrintInt(n)
  {
    if IsOctet(s) { PrintNatValue(s); assert s == PrintInt(NatValue(s)); }
    if n: nat :| n < 256 && s == PrintInt(n) {
      PrintNatDigits(n);
      OctetLength(n);
    }
  }

  lemma OctetLength(n: nat)
    requires n < 256
    ensures |PrintNat(n)| <= 3 && (|PrintNat(n)| == 1 || PrintNat(n)[0] != '0')
  {
    if n >= 10 { assert PrintNat(n) == PrintNat(n / 10) + [DigitChar(n % 10)]; }
    if n >= 100 { assert PrintNat(n / 10) == [DigitChar(n / 100)] + [DigitChar(n / 10 % 10)]; }
  }

  lemma JoinedFour(h: string, a: string, b: string, c: string, d: string)
    requires Split(h, '.') == [a, b, c, d]
    ensures h == a + "." + b + "." + c + "." + d
  {
    JoinSplit(h, '.');
    assert Join([c, d], ".") == c + "." + d;
    assert Join([b, c, d], ".") == b + "." + (c + "." + d);
    assert h == a + "." + (b + "." + (c + "." + d));
  }

  lemma SplitFour(a: string, b: string, c: string, d: string)
    requires '.' !in a && '.' !in b && '.' !in c && '.' !in d
    ensures Split(a + "." + b + "." + c + "." + d, '.') == [a, b, c, d]
  {
    SplitLast(d, '.');
    SplitPiece(c, d, '.');
    SplitPiece(b, c + "." + d, '.');
    SplitPiece(a, b + "." + (c + "." + d), '.');
    assert a + "." + b + "." + c + "." + d == a + "." + (b + "." + (c + "." + d));
  }

  lemma NoDot(n: nat)
    ensures '.' !in PrintInt(n)
  {
    PrintNatDigits(n);
  }

  /** An IPv4 literal is four numbers below 256, printed in decimal and joined by dots. */
  lemma IPv4Meaning(s: string)
    ensures IsIPv4(s) <==> exists a: nat, b: nat, c: nat, d: nat :: QuadParts(s, a, b, c, d)
  {
    hide IsOctet, PrintInt;
    var parts := Split(s, '.');
    if IsIPv4(s) {
      OctetMeaning(parts[0]);
      OctetMeaning(parts[1]);
      OctetMeaning(parts[2]);
      OctetMeaning(parts[3]);
      var a: nat :| a < 256 && parts[0] == PrintInt(a);
      var b: nat :| b < 256 && parts[1] == PrintInt(b);
      var c: nat :| c < 256 && parts[2] == PrintInt(c);
      var d: nat :| d < 256 && parts[3] == PrintInt(d);
      assert parts == [parts[0], parts[1], parts[2], parts[3]];
      JoinedFour(s, parts[0], parts[1], parts[2], parts[3]);
      assert QuadParts(s, a, b, c, d);
    }
    if a: nat, b: nat, c: nat, d: nat :| QuadParts(s, a, b, c, d) {
      NoDot(a);
      NoDot(b);
      NoDot(c);
      NoDot(d);
      SplitFour(PrintInt(a), PrintInt(b), PrintInt(c), PrintInt(d));
      OctetMeaning(parts[0]);
      OctetMeaning(parts[1]);
      OctetMeaning(parts[2]);
      OctetMeaning(parts[3]);
    }
  }

  predicate HexGroups(groups: seq<string>) {
    forall i :: 0 <= i < |groups| ==> 1 <= |groups[i]| <= 4 && AllInRanges(groups[i], "09afAF")
  }

  lemma HexGroupMeaning(s: string)
    ensures IsHexGroup(s) <==> 1 <= |s| <= 4 && AllInRanges(s, "09afAF")
    ensures IsHexGroup(s) ==> ':' !in s
  {
    var hex := "09afAF";
    assert hex[2 * 0] == '0' && hex[2 * 1] == 'a' && hex[2 * 2] == 'A';
  }

  /** Over a text without a colon the search for a double colon goes on behind it. */
  lemma {:induction false} DoubleColonOver(g: string, rest: string)
    requires ':' !in g
    ensures CutDoubleColon(g + rest).Some? <==> CutDoubleColon(rest).Some?
    ensures CutDoubleColon(rest).Some? ==>
              CutDoubleColon(g + rest) == Some((g + CutDoubleColon(rest).value.0, CutDoubleColon(rest).value.1))
  {
    var s := g + rest;
    if g == "" {
      assert s == rest;
      if CutDoubleColon(rest).Some? { assert g + CutDoubleColon(rest).value.0 == CutDoubleColon(rest).value.0; }
    } else {
      assert s[0] == g[0] && g[0] in g && s[1..] == g[1..] + rest;
      DoubleColonOver(g[1..], rest);
      assert [g[0]] + g[1..] == g;
      if CutDoubleColon(rest).Some? { Associate([g[0]], g[1..], CutDoubleColon(rest).value.0); }
    }
  }

  lemma OneColon(rest: string)
    requires rest != "" && rest[0] != ':'
    ensures CutDoubleColon(":" + rest).Some? <==> CutDoubleColon(rest).Some?
    ensures CutDoubleColon(rest).Some? ==>
              CutDoubleColon(":" + rest) == Some((":" + CutDoubleColon(rest).value.0, CutDoubleColon(rest).value.1))
  {
    var s := ":" + rest;
    assert s[1] == rest[0] && s[1..] == rest && [s[0]] == ":";
  }

  /** And over a group with its colon. */
  lemma DoubleColonBehind(g: string, rest: string)
    requires g != "" && ':' !in g && rest != "" && rest[0] != ':'
    ensures CutDoubleColon(g + ":" + rest).Some? <==> CutDoubleColon(rest).Some?
    ensures CutDoubleColon(rest).Some? ==>
              CutDoubleColon(g + ":" + rest) ==
              Some((g + ":" + CutDoubleColon(rest).value.0, CutDoubleColon(rest).value.1))
  {
    hide CutDoubleColon;
    Associate(g, ":", rest);
    OneColon(rest);
    DoubleColonOver(g, ":" + rest);
    if CutDoubleColon(rest).Some? { Associate(g, ":", CutDoubleColon(rest).value.0); }
  }

  /** Pieces without colons, none of them empty. */
  predicate Pieces(ps: seq<string>) {
    forall i :: 0 <= i < |ps| ==> ps[i] != "" && ':' !in ps[i]
  }

  lemma {:induction false} DoubleColonAfter(ps: seq<string>, right: string)
    requires Pieces(ps)
    ensures CutDoubleColon(Join(ps, ":") + "::" + right) == Some((Join(ps, ":"), right))
  {
    var tail := "::" + right;
    assert tail[2..] == right;
    if ps == [] {
      assert "" + "::" + right == tail;
    } else if |ps| == 1 {
      DoubleColonOver(ps[0], tail);
      assert ps[0] + "::" + right == ps[0] + tail && ps[0] + "" == ps[0];
    } else {
      var rest := Join(ps[1..], ":") + "::" + right;
      DoubleColonAfter(ps[1..], right);
      assert rest[0] == ps[1][0];
      assert Join(ps, ":") + "::" + right == ps[0] + ":" + rest;
      DoubleColonBehind(ps[0], rest);
    }
  }

  lemma {:induction false} NoDoubleColon(ps: seq<string>)
    requires Pieces(ps)
    ensures CutDoubleColon(Join(ps, ":")) == None
  {
    if |ps| == 1 {
      assert ps[0] + "" == ps[0];
      DoubleColonOver(ps[0], "");
    } else if |ps| > 1 {
      var rest := Join(ps[1..], ":");
      NoDoubleColon(ps[1..]);
      assert rest[0] == ps[1][0];
      DoubleColonBehind(ps[0], rest);
    }
  }

  lemma GroupPieces(groups: seq<string>, quad: seq<string>)
    requires HexGroups(groups) && |quad| <= 1 && (quad != [] ==> IsIPv4(quad[0]))
    ensures Pieces(groups + quad) && forall i :: 0 <= i < |groups| ==> IsHexGroup(groups[i])
  {
    hide IsHexGroup, IsIPv4, InRanges;
    forall i | 0 <= i < |groups| ensures IsHexGroup(groups[i]) && ':' !in groups[i] { HexGroupMeaning(groups[i]); }
    if quad != [] { QuadChars(quad[0]); }
  }

  lemma SplitPieces(ps: seq<string>)
    requires Pieces(ps) && ps != []
    ensures Split(Join(ps, ":"), ':') == ps && Join(ps, ":") != ""
  {
    SplitJoin(ps, ':');
    if |ps| > 1 { assert Join(ps, ":")[|ps[0]|] == ':'; }
  }

  /** Groups, the last of which may be an IPv4 literal, are counted. */
  lemma GroupsCounted(groups: seq<string>, quad: seq<string>, mayEndInIPv4: bool)
    requires HexGroups(groups) && |quad| <= 1 && (quad != [] ==> mayEndInIPv4 && IsIPv4(quad[0]))
    ensures Pieces(groups + quad)
    ensures GroupCount(Join(groups + quad, ":"), mayEndInIPv4) == Some(|groups| + 2 * |quad|)
  {
    hide IsHexGroup, IsIPv4, HexGroups, Join, Split, Pieces;
    var ps := groups + quad;
    GroupPieces(groups, quad);
    if ps == [] {
      NothingJoined();
    } else {
      SplitPieces(ps);
      if quad != [] { QuadChars(quad[0]); }
    }
  }

  lemma NothingJoined()
    ensures Join([], ":") == ""
  {
  }

  lemma QuadChars(h: string)
    requires IsIPv4(h)
    ensures h != "" && ':' !in h && !IsHexGroup(h)
  {
    assert !HostChar(':') && !IsDigit('.');
    IPv4IsDottedQuad(h);
    DottedQuadIsHost(h);
    var i :| 0 <= i < |h| && h[i] == '.';
  }

  /** An IPv6 literal is eight groups of one to four hexadecimal digits, or at most seven around one double colon; an
      IPv4 literal at the end counts for two. */
  lemma IPv6Meaning(left: seq<string>, right: seq<string>, quad: seq<string>)
    requires HexGroups(left) && HexGroups(right) && |quad| <= 1 && (quad != [] ==> IsIPv4(quad[0]))
    ensures IsIPv6(Join(left + quad, ":")) <==> |left| + 2 * |quad| == 8
    ensures IsIPv6(Join(left, ":") + "::" + Join(right + quad, ":")) <==> |left| + |right| + 2 * |quad| <= 7
  {
    hide HexGroups, GroupCount, IsIPv4;
    GroupsCounted(left, quad, true);
    NoDoubleColon(left + quad);
    GroupsCounted(left, [], false);
    assert left + [] == left;
    GroupsCounted(right, quad, true);
    DoubleColonAfter(left, Join(right + quad, ":"));
  }

  // ----- hosts: the three checks related -----

  /** Every character of a text is the separator or lies in one of its pieces. */
  lemma {:induction false} SplitChars(s: string, sep: char, c: char)
    requires c in s && c != sep
    ensures exists i :: 0 <= i < |Split(s, sep)| && c in Split(s, sep)[i]
  {
    var parts, rest := Split(s, sep), Split(s[1..], sep);
    if c == s[0] {
      assert c in parts[0];
    } else {
      SplitChars(s[1..], sep, c);
      var i :| 0 <= i < |rest| && c in rest[i];
      var j := if s[0] == sep then i + 1 else i;
      assert c in parts[j];
    }
  }

  lemma {:induction false} SplitAbsent(s: string, sep: char)
    requires |Split(s, sep)| > 1
    ensures sep in s
  {
    if s[0] != sep { SplitAbsent(s[1..], sep); }
  }

  /** A dotted quad is four digit runs joined by dots, so the host pattern accepts it. */
  lemma DottedQuadIsHost(h: string)
    requires DottedQuad(h)
    ensures HostPattern(h) && '.' in h
  {
    var parts := Split(h, '.');
    JoinSplit(h, '.');
    var a, b, c, d := parts[0], parts[1], parts[2], parts[3];
    assert parts == [a, b, c, d];
    assert Join([c, d], ".") == c + "." + d;
    assert Join([b, c, d], ".") == b + "." + (c + "." + d);
    assert h == a + "." + (b + "." + (c + "." + d));
    SplitAbsent(h, '.');
    assert h[0] == a[0] && h[|h| - 1] == d[|d| - 1];
    forall i | 0 <= i < |h| ensures HostChar(h[i]) {
      if h[i] != '.' {
        SplitChars(h, '.', h[i]);
        var k :| 0 <= k < 4 && h[i] in parts[k];
      }
    }
  }

  lemma IPv4IsDottedQuad(h: string)
    requires IsIPv4(h)
    ensures DottedQuad(h)
  {
  }

  predicate AddressChar(c: char) { IsAlnum(c) || c == '.' || c == ':' }

  lemma GroupChars(s: string, mayEndInIPv4: bool, c: char)
    requires GroupCount(s, mayEndInIPv4).Some? && c in s
    ensures AddressChar(c)
  {
    if c != ':' {
      SplitChars(s, ':', c);
      var parts := Split(s, ':');
      var i :| 0 <= i < |parts| && c in parts[i];
      if !IsHexGroup(parts[i]) {
        IPv4IsDottedQuad(parts[i]);
        DottedQuadIsHost(parts[i]);
        if c != '.' { SplitChars(parts[i], '.', c); }
      }
    }
  }

  lemma {:induction false} CutDoubleColonAt(s: string)
    requires CutDoubleColon(s).Some?
    ensures s == CutDoubleColon(s).value.0 + "::" + CutDoubleColon(s).value.1
  {
    if !(s[0] == ':' && s[1] == ':') {
      CutDoubleColonAt(s[1..]);
    }
  }

  /** An IPv6 literal has a colon and nothing that could end a host in a link. */
  lemma IPv6Chars(h: string)
    requires IsIPv6(h)
    ensures ':' in h && forall c :: c in h ==> AddressChar(c)
  {
    match CutDoubleColon(h)
    case None =>
      forall c | c in h ensures AddressChar(c) { GroupChars(h, true, c); }
      SplitAbsent(h, ':');
    case Some((a, b)) =>
      CutDoubleColonAt(h);
      assert "::"[0] == ':' && h[|a|] == ':';
      forall c | c in h ensures AddressChar(c) {
        if c in a { GroupChars(a, false, c); }
        if c in b { GroupChars(b, true, c); }
      }
  }

  lemma HostIsAscii(h: string)
    requires HostPattern(h)
    ensures Utf16Length(h) == |h|
  {
    assert forall i :: 0 <= i < |h| ==> HostChar(h[i]);
    Utf16Ascii(h);
  }

  /** The Worker accepts exactly the hosts Go accepts, except the IPv6 literals. */
  lemma HostAgreement(h: string)
    ensures WorkerValidHost(h) <==> GoValidHost(h) && !IsIPv6(h)
  {
    if DottedQuad(h) { DottedQuadIsHost(h); }
    if IsIPv4(h) { IPv4IsDottedQuad(h); }
    if HostPattern(h) { HostIsAscii(h); }
    if IsIPv6(h) {
      IPv6Chars(h);
      var i :| 0 <= i < |h| && h[i] == ':';
      assert !HostChar(h[i]);
    }
  }

  lemma LoopbackIsIPv6()
    ensures IsIPv6("::1")
  {
    assert CutDoubleColon("::1") == Some(("", "1"));
    SplitLast("1", ':');
    assert IsHexGroup("1");
    assert GroupCount("1", true) == Some(1);
  }

  /** An IPv6 literal on which the two differ. */
  lemma LoopbackDiffers()
    ensures GoValidHost("::1") && !WorkerValidHost("::1")
  {
    LoopbackIsIPv6();
    HostAgreement("::1");
  }

  /** The installer's check, cut at 253 characters, is the Worker's. */
  lemma InstallerHostAgreement(h: string)
    ensures WorkerValidHost(h) <==> InstallerValidHost(h) && |h| <= 253
  {
    if DottedQuad(h) { DottedQuadIsHost(h); }
    if HostPattern(h) { HostIsAscii(h); }
    assert '.' in h && |h| == 2 ==> h[0] == '.' || h[1] == '.';
  }

  lemma ValidHostChars(h: string, c: char)
    requires GoValidHost(h) && c in h
    ensures AddressChar(c) || c == '-'
  {
    if IsIPv6(h) {
      IPv6Chars(h);
    } else {
      if IsIPv4(h) { IPv4IsDottedQuad(h); DottedQuadIsHost(h); }
      assert HostChar(c);
    }
  }

  // ----- nodes: what a valid one is -----

  /** A protocol entry the registry takes. */
  predicate Sound(p: Protocol) {
    1 <= p.port <= 65535 && p.password != "" &&
    ((p.kind == "trojan" && (p.sni == "" || GoValidHost(p.sni))) || (p.kind == "shadowsocks" && p.cipher != ""))
  }

  lemma SoundProtocol(p: Protocol)
    ensures GoProtocolProblem(p) == None <==> Sound(p)
  {
  }

  lemma {:induction false} SoundProtocols(ps: seq<Protocol>)
    ensures GoProtocolsProblem(ps) == None <==> forall i :: 0 <= i < |ps| ==> Sound(ps[i])
  {
    if ps != [] {
      SoundProtocol(ps[0]);
      SoundProtocols(ps[1..]);
      assert forall i :: 1 <= i < |ps| ==> ps[i] == ps[1..][i - 1];
    }
  }

  /** All of a node but its name is in order for Go. */
  predicate SoundBody(node: Node) {
    node.schemaVersion == 1 && NodeIDPattern(node.nodeID) && GoValidHost(node.host) && node.protocols != [] &&
    forall i :: 0 <= i < |node.protocols| ==> Sound(node.protocols[i])
  }

  /** No problem is reported exactly when every part of the node is in order. */
  lemma ValidMeaning(node: Node)
    ensures ValidNode(node) <==> SoundBody(node) && 1 <= |node.name| <= 80
  {
    SoundProtocols(node.protocols);
  }

  // ----- nodes: the two validators related -----

  lemma {:induction false} ProtocolsAgreement(ps: seq<Protocol>)
    ensures (forall i :: 0 <= i < |ps| ==> !IPv6SNI(ps[i])) ==> WorkerProtocolsProblem(ps) == GoProtocolsProblem(ps)
    ensures GoProtocolsProblem(ps) == None && WorkerProtocolsProblem(ps) == None
            ==> forall i :: 0 <= i < |ps| ==> !IPv6SNI(ps[i])
    ensures WorkerProtocolsProblem(ps) == None ==> GoProtocolsProblem(ps) == None
  {
    if ps != [] {
      HostAgreement(ps[0].sni);
      ProtocolsAgreement(ps[1..]);
      assert IPv6SNI(ps[0]) ==> ps[0].sni != "" by { if IPv6SNI(ps[0]) { IPv6Chars(ps[0].sni); } }
      assert forall i :: 1 <= i < |ps| ==> ps[i] == ps[1..][i - 1];
    }
  }

  predicate WorkerAccepts(node: Node) { WorkerProblem(node) == None }

  lemma WorkerMeaning(node: Node)
    ensures WorkerAccepts(node) <==>
            SoundBody(node) && !UsesIPv6(node) && node.name != "" && Utf16Length(node.name) <= 80
  {
    HostAgreement(node.host);
    ProtocolsAgreement(node.protocols);
    SoundProtocols(node.protocols);
  }

  /** Longer than 80 bytes, but not than 80 UTF-16 units: too long for Go only. */
  predicate LongForGo(name: string) { |name| > 80 && Utf16Length(name) <= 80 }

  /** The nodes on which the two validators part: otherwise sound, and either named briefly enough for Go and with an
      IPv6 literal, or without one and with a name too long for Go only. */
  predicate Disputed(node: Node) {
    SoundBody(node) && node.name != "" &&
    if UsesIPv6(node) then |node.name| <= 80 else LongForGo(node.name)
  }

  /** The two validators give one verdict exactly on the nodes that are not disputed; and where there is neither an IPv6
      literal nor such a name, one and the same reason. */
  lemma NodeAgreement(node: Node)
    ensures (WorkerAccepts(node) <==> ValidNode(node)) <==> !Disputed(node)
    ensures WorkerAccepts(node) && !ValidNode(node) ==> LongForGo(node.name)
    ensures !UsesIPv6(node) && !LongForGo(node.name) ==> WorkerProblem(node) == GoProblem(node)
  {
    ValidMeaning(node);
    WorkerMeaning(node);
    Utf16Shorter(node.name);
    HostAgreement(node.host);
    ProtocolsAgreement(node.protocols);
  }

  /** A character of three bytes, repeated. */
  function Ideographs(n: nat): Bytes {
    if n == 0 then "" else [0xE5 as char, 0xAF as char, 0x86 as char] + Ideographs(n - 1)
  }

  lemma {:induction false} IdeographsLength(n: nat)
    ensures |Ideographs(n)| == 3 * n && Utf16Length(Ideographs(n)) == n
  {
    if n > 0 {
      IdeographsLength(n - 1);
      assert CharBytes(Ideographs(n)) == 3 && Ideographs(n)[3..] == Ideographs(n - 1);
    }
  }

  /** A name of 27 such characters is too long for Go only. */
  lemma LongNameDiffers()
    ensures LongForGo(Ideographs(27))
  {
    IdeographsLength(27);
  }
}
