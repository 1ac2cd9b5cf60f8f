/** The Shadowrocket configuration: both printers, and the parser that undoes them. */
module Shadowrocket {
  import opened Text
  import opened Numbers
  import opened Nodes
  import Groups

  // ----- sanitising -----

  function Flatten(value: string): string {
    ReplaceAll(ReplaceAll(ReplaceAll(value, ",", " "), "\n", " "), "\r", " ")
  }

  function SafeName(side: Side, value: string): string {
    TrimSpace(side, Flatten(value))
  }

  function SafeValue(value: string): string {
    ReplaceAll(ReplaceAll(ReplaceAll(value, ",", "%2C"), "\n", ""), "\r", "")
  }

  /** What a client does to get a comma back. */
  function Unescape(value: string): string { ReplaceAll(value, "%2C", ",") }

  // ----- records and lines -----

  datatype Entry =
    | TrojanEntry(name: string, host: string, port: int, password: string, sni: string)
    | ShadowsocksEntry(name: string, host: string, port: int, cipher: string, password: string)

  function EntryOf(side: Side, x: Proxy): Entry {
    match x
    case Trojan(name, host, port, password, sni, _) =>
      TrojanEntry(SafeName(side, name), SafeValue(host), port, SafeValue(password), SafeValue(EffectiveSNI(sni, host)))
    case Shadowsocks(name, host, port, cipher, password) =>
      ShadowsocksEntry(SafeName(side, name), SafeValue(host), port, SafeValue(cipher), SafeValue(password))
  }

  function Fields(e: Entry): seq<string> {
    match e
    case TrojanEntry(name, host, port, password, sni) =>
      [name + " = trojan", host, PrintInt(port), "password=" + password, "over-tls=true", "tls-verification=true",
       "sni=" + sni]
    case ShadowsocksEntry(name, host, port, cipher, password) =>
      [name + " = ss", host, PrintInt(port), "encrypt-method=" + cipher, "password=" + password]
  }

  function EntryLine(e: Entry): string { Join(Fields(e), ", ") }

  function Entries(side: Side, xs: seq<Proxy>): seq<Entry> {
    if xs == [] then [] else Entries(side, xs[..|xs| - 1]) + [EntryOf(side, xs[|xs| - 1])]
  }

  function EntryTexts(es: seq<Entry>): seq<string> {
    if es == [] then [] else EntryTexts(es[..|es| - 1]) + [EntryLine(es[|es| - 1])]
  }

  function EntryNames(es: seq<Entry>): seq<string> {
    if es == [] then [] else EntryNames(es[..|es| - 1]) + [es[|es| - 1].name]
  }

  function GroupLine(names: seq<string>): string {
    Join(["PROXY = select"] + names + ["DIRECT"], ", ")
  }

  const HEADER: seq<string> := [
    "[General]",
    "bypass-system = true",
    "skip-proxy = 127.0.0.1, 192.168.0.0/16, 10.0.0.0/8, 172.16.0.0/12, localhost, *.local",
    "",
    "[Proxy]"]

  const FOOTER: seq<string> := [
    "",
    "[Rule]",
    "RULE-SET,https://cdn.jsdelivr.net/gh/blackmatrix7/ios_rule_script@master/rule/Shadowrocket/Lan/Lan.list,DIRECT",
    "RULE-SET,https://cdn.jsdelivr.net/gh/blackmatrix7/ios_rule_script@master/rule/Shadowrocket/China/China.list,DIRECT",
    "GEOIP,CN,DIRECT",
    "FINAL,PROXY"]

  /** A configuration between fixed texts, line by line. */
  function ConfLines(header: seq<string>, footer: seq<string>, es: seq<Entry>): seq<string> {
    header + EntryTexts(es) + ["", "[Proxy Group]", GroupLine(EntryNames(es))] + footer
  }

  function ConfText(side: Side, xs: seq<Proxy>): string { Unlines(ConfLines(HEADER, FOOTER, Entries(side, xs))) }

  // ----- the parser -----

  /** Cut at the last ` = `. */
  function CutEquals(s: string): Option<(string, string)> {
    if |s| < 3 then None
    else if s[|s| - 3..] == " = " then Some((s[..|s| - 3], ""))
    else
      var (a, b) :- CutEquals(s[..|s| - 1]);
      Some((a, b + [s[|s| - 1]]))
  }

  function Unspace(s: string): Option<string> { Expect(" ", s) }

  function ParseEntry(line: string): Option<Entry> { ParsePieces(Split(line, ',')) }

  function ParsePieces(pieces: seq<string>): Option<Entry>
    requires pieces != []
  {
    var (name, kind) :- CutEquals(pieces[0]);
    if kind == "trojan" && |pieces| == 7 then ParseTrojan(name, pieces)
    else if kind == "ss" && |pieces| == 5 then ParseShadowsocks(name, pieces)
    else None
  }

  function ParseTrojan(name: string, pieces: seq<string>): Option<Entry>
    requires |pieces| == 7
  {
    var host :- Unspace(pieces[1]);
    var digits :- Unspace(pieces[2]);
    var port :- ParseInt(digits);
    var password :- Expect(" password=", pieces[3]);
    var sni :- Expect(" sni=", pieces[6]);
    if pieces[4] == " over-tls=true" && pieces[5] == " tls-verification=true"
    then Some(TrojanEntry(name, host, port, password, sni)) else None
  }

  function ParseShadowsocks(name: string, pieces: seq<string>): Option<Entry>
    requires |pieces| == 5
  {
    var host :- Unspace(pieces[1]);
    var digits :- Unspace(pieces[2]);
    var port :- ParseInt(digits);
    var cipher :- Expect(" encrypt-method=", pieces[3]);
    var password :- Expect(" password=", pieces[4]);
    Some(ShadowsocksEntry(name, host, port, cipher, password))
  }

  /** Reads entries up to the first blank line. */
  function ParseBlock(lines: seq<string>): Option<(seq<Entry>, seq<string>)> {
    if lines == [] then None
    else if lines[0] == "" then Some(([], lines[1..]))
    else
      var first :- ParseEntry(lines[0]);
      var (more, rest) :- ParseBlock(lines[1..]);
      Some(([first] + more, rest))
  }

  function UnspaceAll(pieces: seq<string>): Option<seq<string>> {
    if pieces == [] then Some([])
    else
      var first :- Unspace(pieces[0]);
      var rest :- UnspaceAll(pieces[1..]);
      Some([first] + rest)
  }

  function ParseGroup(line: string): Option<seq<string>> {
    var pieces := Split(line, ',');
    if pieces[0] != "PROXY = select" || |pieces| < 2 || pieces[|pieces| - 1] != " DIRECT" then None
    else UnspaceAll(pieces[1..|pieces| - 1])
  }

  datatype Conf = Conf(entries: seq<Entry>, group: seq<string>)

  /** Reads a configuration between a fixed opening and a fixed ending. */
  function ParseFrame(header: string, footer: string, s: string): Option<Conf> {
    var body :- Expect(header, s);
    var (entries, rest) :- ParseBlock(Split(body, '\n'));
    if |rest| < 2 || rest[0] != "[Proxy Group]" || rest[2..] != Split(footer, '\n') then None
    else
      var group :- ParseGroup(rest[1]);
      Some(Conf(entries, group))
  }

  /** The whole file: what a client expects of its fixed lines, written out once more. */
  function ParseConf(s: string): Option<Conf> {
    ParseFrame(
      Unlines([
        "[General]",
        "bypass-system = true",
        "skip-proxy = 127.0.0.1, 192.168.0.0/16, 10.0.0.0/8, 172.16.0.0/12, localhost, *.local",
        "",
        "[Proxy]"]),
      Unlines([
        "",
        "[Rule]",
        "RULE-SET,https://cdn.jsdelivr.net/gh/blackmatrix7/ios_rule_script@master/rule/Shadowrocket/Lan/Lan.list,DIRECT",
        "RULE-SET,https://cdn.jsdelivr.net/gh/blackmatrix7/ios_rule_script@master/rule/Shadowrocket/China/China.list,DIRECT",
        "GEOIP,CN,DIRECT",
        "FINAL,PROXY"]),
      s)
  }

  // ----- sanitised texts hold no separator -----

  predicate Clean(s: string) { ',' !in s && '\n' !in s && '\r' !in s }

  lemma SafeValueClean(v: string)
    ensures Clean(SafeValue(v))
  {
    var v1 := ReplaceAll(v, ",", "%2C");
    var v2 := ReplaceAll(v1, "\n", "");
    forall c | c == ',' || c == '\n' || c == '\r' ensures c !in SafeValue(v) {
      ReplaceCharChars(v, ',', "%2C", c);
      ReplaceCharChars(v1, '\n', "", c);
      ReplaceCharChars(v2, '\r', "", c);
    }
  }

  lemma FlattenClean(v: string)
    ensures Clean(Flatten(v))
  {
    var v1 := ReplaceAll(v, ",", " ");
    var v2 := ReplaceAll(v1, "\n", " ");
    forall c | c == ',' || c == '\n' || c == '\r' ensures c !in Flatten(v) {
      ReplaceCharChars(v, ',', " ", c);
      ReplaceCharChars(v1, '\n', " ", c);
      ReplaceCharChars(v2, '\r', " ", c);
    }
  }

  lemma SafeNameClean(side: Side, v: string)
    ensures Clean(SafeName(side, v))
  {
    FlattenClean(v);
    forall c | c in SafeName(side, v) ensures c in Flatten(v) { TrimSpaceChars(side, Flatten(v), c); }
  }

  predicate CleanEntry(e: Entry) {
    Clean(e.name) && Clean(e.host) && Clean(e.password) && if e.TrojanEntry? then Clean(e.sni) else Clean(e.cipher)
  }

  lemma EntryOfClean(side: Side, x: Proxy)
    ensures CleanEntry(EntryOf(side, x))
  {
    SafeNameClean(side, x.name);
    SafeValueClean(x.host);
    SafeValueClean(x.password);
    if x.Trojan? { SafeValueClean(EffectiveSNI(x.sni, x.host)); } else { SafeValueClean(x.cipher); }
  }

  // ----- lines are read back -----

  lemma {:induction false} CutEqualsAt(a: string, b: string)
    requires ' ' !in b
    ensures CutEquals(a + " = " + b) == Some((a, b))
  {
    var s := a + " = " + b;
    if b == "" {
      assert s[|s| - 3..] == " = " && s[..|s| - 3] == a;
    } else {
      assert s[|s| - 3..][2] == b[|b| - 1] && b[|b| - 1] in b && " = "[2] == ' ';
      assert s[..|s| - 1] == a + " = " + b[..|b| - 1];
      CutEqualsAt(a, b[..|b| - 1]);
      assert b == b[..|b| - 1] + [b[|b| - 1]];
    }
  }

  function Spaced(fields: seq<string>): (r: seq<string>)
    ensures |r| == |fields|
  {
    if fields == [] then [] else [" " + fields[0]] + Spaced(fields[1..])
  }

  lemma {:induction false} SpacedAt(fields: seq<string>)
    ensures forall i :: 0 <= i < |fields| ==> Spaced(fields)[i] == " " + fields[i]
  {
    if fields != [] { SpacedAt(fields[1..]); }
  }

  /** Fields without commas, printed with `, ` between them, are the pieces between the commas. */
  lemma {:induction false} SplitFields(fields: seq<string>)
    requires fields != [] && forall i :: 0 <= i < |fields| ==> ',' !in fields[i]
    ensures Split(Join(fields, ", "), ',') == [fields[0]] + Spaced(fields[1..])
  {
    if |fields| == 1 {
      SplitLast(fields[0], ',');
    } else {
      var rest := Join(fields[1..], ", ");
      SplitFields(fields[1..]);
      assert Join(fields, ", ") == fields[0] + "," + (" " + rest);
      SplitPiece(fields[0], " " + rest, ',');
      SplitAfterSpace(rest);
      assert Spaced(fields[1..]) == [" " + fields[1]] + Spaced(fields[1..][1..]);
    }
  }

  lemma SplitAfterSpace(s: string)
    ensures Split(" " + s, ',') == [" " + Split(s, ',')[0]] + Split(s, ',')[1..]
  {
    assert (" " + s)[1..] == s;
  }

  lemma SpacedPort(port: int)
    ensures Unspace(" " + PrintInt(port)) == Some(PrintInt(port)) && ParseInt(PrintInt(port)) == Some(port)
  {
    ExpectAt(" ", PrintInt(port));
    PrintParseInt(port);
  }

  lemma SpacedKey(key: string, value: string)
    ensures Expect(" " + key, " " + (key + value)) == Some(value)
  {
    Associate(" ", key, value);
    ExpectAt(" " + key, value);
  }

  predicate PiecesOf(p: seq<string>, e: Entry) {
    |p| == |Fields(e)| && forall i :: 1 <= i < |p| ==> p[i] == " " + Fields(e)[i]
  }

  lemma TrojanParts(name: string, p: seq<string>, host: string, port: int, password: string, sni: string)
    requires |p| == 7 && p[4] == " over-tls=true" && p[5] == " tls-verification=true"
    requires Unspace(p[1]) == Some(host) && Unspace(p[2]) == Some(PrintInt(port)) &&
             ParseInt(PrintInt(port)) == Some(port)
    requires Expect(" password=", p[3]) == Some(password) && Expect(" sni=", p[6]) == Some(sni)
    ensures ParseTrojan(name, p) == Some(TrojanEntry(name, host, port, password, sni))
  {
  }

  lemma TrojanLiterals(p: seq<string>, e: Entry)
    requires e.TrojanEntry? && PiecesOf(p, e)
    ensures |p| == 7 && p[4] == " over-tls=true" && p[5] == " tls-verification=true"
    ensures p[3] == " " + ("password=" + e.password) && p[6] == " " + ("sni=" + e.sni)
    ensures p[1] == " " + e.host && p[2] == " " + PrintInt(e.port)
  {
    assert " " + "over-tls=true" == " over-tls=true" && " " + "tls-verification=true" == " tls-verification=true";
  }

  lemma TrojanPieces(e: Entry, p: seq<string>)
    requires e.TrojanEntry? && PiecesOf(p, e)
    ensures |p| == 7 && ParseTrojan(e.name, p) == Some(e)
  {
    TrojanLiterals(p, e);
    ExpectAt(" ", e.host);
    SpacedPort(e.port);
    SpacedKey("password=", e.password);
    SpacedKey("sni=", e.sni);
    assert " password=" == " " + "password=" && " sni=" == " " + "sni=";
    TrojanParts(e.name, p, e.host, e.port, e.password, e.sni);
  }

  lemma ShadowsocksPieces(e: Entry, p: seq<string>)
    requires e.ShadowsocksEntry? && PiecesOf(p, e)
    ensures |p| == 5 && ParseShadowsocks(e.name, p) == Some(e)
  {
    ExpectAt(" ", e.host);
    SpacedPort(e.port);
    SpacedKey("encrypt-method=", e.cipher);
    SpacedKey("password=", e.password);
    assert " encrypt-method=" == " " + "encrypt-method=" && " password=" == " " + "password=";
  }

  lemma FieldsClean(e: Entry)
    requires CleanEntry(e)
    ensures forall i :: 0 <= i < |Fields(e)| ==> ',' !in Fields(e)[i] && '\n' !in Fields(e)[i]
  {
    forall c | c in PrintInt(e.port) ensures c != ',' && c != '\n' { PrintIntChars(e.port, c); }
  }

  lemma EntryPieces(e: Entry)
    requires CleanEntry(e)
    ensures PiecesOf(Split(EntryLine(e), ','), e) && Split(EntryLine(e), ',')[0] == Fields(e)[0]
  {
    var f := Fields(e);
    FieldsClean(e);
    SplitFields(f);
    SpacedAt(f[1..]);
    var p := Split(EntryLine(e), ',');
    assert forall i :: 1 <= i < |f| ==> f[i] == f[1..][i - 1] && p[i] == Spaced(f[1..])[i - 1];
  }

  lemma EntryKind(e: Entry)
    requires CleanEntry(e)
    ensures CutEquals(Fields(e)[0]) == Some((e.name, if e.TrojanEntry? then "trojan" else "ss"))
  {
    var kind := if e.TrojanEntry? then "trojan" else "ss";
    assert Fields(e)[0] == e.name + " = " + kind;
    CutEqualsAt(e.name, kind);
  }

  lemma EntryOneLine(e: Entry)
    requires CleanEntry(e)
    ensures EntryLine(e) != "" && '\n' !in EntryLine(e)
  {
    var f := Fields(e);
    FieldsClean(e);
    JoinAvoids(f, ", ", '\n');
    assert EntryLine(e) == f[0] + ", " + Join(f[1..], ", ");
  }

  lemma PiecesRead(e: Entry, p: seq<string>)
    requires PiecesOf(p, e) && p != []
    requires CutEquals(p[0]) == Some((e.name, if e.TrojanEntry? then "trojan" else "ss"))
    ensures ParsePieces(p) == Some(e)
  {
    if e.TrojanEntry? { TrojanPieces(e, p); } else { ShadowsocksPieces(e, p); }
  }

  /** A printed line splits into exactly its printed fields. */
  lemma EntryRead(e: Entry)
    requires CleanEntry(e)
    ensures ParseEntry(EntryLine(e)) == Some(e)
  {
    EntryPieces(e);
    EntryKind(e);
    PiecesRead(e, Split(EntryLine(e), ','));
  }

  lemma {:induction false} JoinAvoids(parts: seq<string>, sep: string, c: char)
    requires c !in sep && forall i :: 0 <= i < |parts| ==> c !in parts[i]
    ensures c !in Join(parts, sep)
  {
    if |parts| > 1 { JoinAvoids(parts[1..], sep, c); }
  }

  // ----- documents are read back -----

  predicate AllClean(es: seq<Entry>) {
    forall i :: 0 <= i < |es| ==> CleanEntry(es[i])
  }

  lemma {:induction false} EntryTextsCons(es: seq<Entry>)
    requires es != []
    ensures EntryTexts(es) == [EntryLine(es[0])] + EntryTexts(es[1..])
  {
    if |es| == 1 {
      assert es[..0] == [];
    } else {
      var init := es[..|es| - 1];
      EntryTextsCons(init);
      assert init[1..] == es[1..][..|es[1..]| - 1];
      Associate([EntryLine(es[0])], EntryTexts(init[1..]), [EntryLine(es[|es| - 1])]);
    }
  }

  lemma BlockStep(line: string, lines: seq<string>, first: Entry, more: seq<Entry>, rest: seq<string>)
    requires line != "" && ParseEntry(line) == Some(first) && ParseBlock(lines) == Some((more, rest))
    ensures ParseBlock([line] + lines) == Some(([first] + more, rest))
  {
    assert ([line] + lines)[1..] == lines;
  }

  lemma EntryStep(e: Entry, more: seq<Entry>, lines: seq<string>, rest: seq<string>)
    requires CleanEntry(e) && ParseBlock(lines) == Some((more, rest))
    ensures ParseBlock([EntryLine(e)] + lines) == Some(([e] + more, rest))
  {
    EntryRead(e);
    EntryOneLine(e);
    BlockStep(EntryLine(e), lines, e, more, rest);
  }

  lemma BlockEnd(rest: seq<string>)
    ensures ParseBlock([""] + rest) == Some(([], rest))
  {
    assert ([""] + rest)[1..] == rest;
  }

  /** The proxy section is read up to the first blank line. */
  lemma {:induction false} BlockRead(es: seq<Entry>, rest: seq<string>)
    requires AllClean(es)
    ensures ParseBlock(EntryTexts(es) + ([""] + rest)) == Some((es, rest))
  {
    if es == [] {
      assert EntryTexts(es) + ([""] + rest) == [""] + rest;
      BlockEnd(rest);
    } else {
      EntryTextsCons(es);
      Associate([EntryLine(es[0])], EntryTexts(es[1..]), [""] + rest);
      BlockRead(es[1..], rest);
      EntryStep(es[0], es[1..], EntryTexts(es[1..]) + ([""] + rest), rest);
      assert es == [es[0]] + es[1..];
    }
  }

  predicate NamesClean(names: seq<string>) {
    forall i :: 0 <= i < |names| ==> Clean(names[i])
  }

  lemma {:induction false} UnspaceAllRead(names: seq<string>)
    ensures UnspaceAll(Spaced(names)) == Some(names)
  {
    if names != [] {
      ExpectAt(" ", names[0]);
      UnspaceAllRead(names[1..]);
      assert names == [names[0]] + names[1..];
    }
  }

  lemma GroupFields(names: seq<string>)
    requires NamesClean(names)
    ensures forall i :: 0 <= i < |names| + 2 ==>
              ',' !in (["PROXY = select"] + names + ["DIRECT"])[i] &&
                '\n' !in (["PROXY = select"] + names + ["DIRECT"])[i]
  {
    var fields := ["PROXY = select"] + names + ["DIRECT"];
    forall i | 0 <= i < |fields| ensures ',' !in fields[i] && '\n' !in fields[i] {
      if 1 <= i <= |names| { assert fields[i] == names[i - 1]; }
    }
  }

  lemma GroupPieces(names: seq<string>)
    requires NamesClean(names)
    ensures Split(GroupLine(names), ',') == ["PROXY = select"] + Spaced(names) + [" DIRECT"]
  {
    var fields := ["PROXY = select"] + names + ["DIRECT"];
    GroupFields(names);
    SplitFields(fields);
    assert fields[1..] == names + ["DIRECT"];
    SpacedAppend(names, ["DIRECT"]);
    assert ["DIRECT"][1..] == [] && Spaced(["DIRECT"]) == [" " + "DIRECT"];
    assert " " + "DIRECT" == " DIRECT";
    Associate(["PROXY = select"], Spaced(names), [" DIRECT"]);
    assert fields[0] == "PROXY = select";
  }

  lemma GroupRead(names: seq<string>)
    requires NamesClean(names)
    ensures ParseGroup(GroupLine(names)) == Some(names) && '\n' !in GroupLine(names)
  {
    GroupFields(names);
    GroupPieces(names);
    JoinAvoids(["PROXY = select"] + names + ["DIRECT"], ", ", '\n');
    UnspaceAllRead(names);
    var pieces := Split(GroupLine(names), ',');
    assert pieces[1..|pieces| - 1] == Spaced(names);
  }

  lemma {:induction false} SpacedAppend(a: seq<string>, b: seq<string>)
    ensures Spaced(a + b) == Spaced(a) + Spaced(b)
  {
    if a == [] {
      assert a + b == b;
    } else {
      assert (a + b)[0] == a[0] && (a + b)[1..] == a[1..] + b;
      SpacedAppend(a[1..], b);
    }
  }

  predicate LinesWhole(lines: seq<string>) {
    forall i :: 0 <= i < |lines| ==> '\n' !in lines[i]
  }

  lemma {:induction false} EntryTextsWhole(es: seq<Entry>)
    requires AllClean(es)
    ensures LinesWhole(EntryTexts(es)) && NamesClean(EntryNames(es))
  {
    if es != [] {
      EntryTextsWhole(es[..|es| - 1]);
      EntryOneLine(es[|es| - 1]);
    }
  }

  /** The lines between the fixed texts. */
  function Body(es: seq<Entry>): seq<string> {
    EntryTexts(es) + ["", "[Proxy Group]", GroupLine(EntryNames(es))]
  }

  lemma FrameText(header: seq<string>, footer: seq<string>, es: seq<Entry>)
    ensures Unlines(ConfLines(header, footer, es)) == Unlines(header) + (Unlines(Body(es)) + Unlines(footer))
  {
    assert ConfLines(header, footer, es) == header + (Body(es) + footer);
    UnlinesAppend(header, Body(es) + footer);
    UnlinesAppend(Body(es), footer);
  }

  lemma BodySplit(es: seq<Entry>, rest: string)
    requires AllClean(es)
    ensures Split(Unlines(Body(es)) + rest, '\n') == Body(es) + Split(rest, '\n')
  {
    EntryTextsWhole(es);
    GroupRead(EntryNames(es));
    assert LinesWhole(Body(es));
    SplitUnlinesThen(Body(es), rest);
  }

  lemma FrameRoundTrip(header: seq<string>, footer: seq<string>, es: seq<Entry>)
    requires AllClean(es)
    ensures ParseFrame(Unlines(header), Unlines(footer), Unlines(ConfLines(header, footer, es))) ==
            Some(Conf(es, EntryNames(es)))
  {
    FrameText(header, footer, es);
    BodySplit(es, Unlines(footer));
    FrameTail(es, GroupLine(EntryNames(es)), Split(Unlines(footer), '\n'));
    GroupOfEntries(es);
    FrameChain(Unlines(header), Unlines(footer), Unlines(Body(es)) + Unlines(footer), es, GroupLine(EntryNames(es)));
  }

  lemma GroupOfEntries(es: seq<Entry>)
    requires AllClean(es)
    ensures ParseGroup(GroupLine(EntryNames(es))) == Some(EntryNames(es))
  {
    EntryTextsWhole(es);
    GroupRead(EntryNames(es));
  }

  lemma FrameChain(header: string, footer: string, body: string, es: seq<Entry>, group: string)
    requires ParseBlock(Split(body, '\n')) == Some((es, ["[Proxy Group]", group] + Split(footer, '\n')))
    requires ParseGroup(group) == Some(EntryNames(es))
    ensures ParseFrame(header, footer, header + body) == Some(Conf(es, EntryNames(es)))
  {
    ExpectAt(header, body);
    var rest := ["[Proxy Group]", group] + Split(footer, '\n');
    assert rest[2..] == Split(footer, '\n');
  }

  lemma FrameTail(es: seq<Entry>, group: string, end: seq<string>)
    requires AllClean(es)
    ensures ParseBlock(EntryTexts(es) + ["", "[Proxy Group]", group] + end) ==
            Some((es, ["[Proxy Group]", group] + end))
    ensures (["[Proxy Group]", group] + end)[2..] == end
  {
    hide *;
    BlockRead(es, ["[Proxy Group]", group] + end);
    assert EntryTexts(es) + ["", "[Proxy Group]", group] + end ==
           EntryTexts(es) + ([""] + (["[Proxy Group]", group] + end));
  }

  lemma {:induction false} EntriesClean(side: Side, xs: seq<Proxy>)
    ensures AllClean(Entries(side, xs))
  {
    if xs != [] {
      EntriesClean(side, xs[..|xs| - 1]);
      EntryOfClean(side, xs[|xs| - 1]);
    }
  }

  /** Whatever the names and values hold, every printed line splits into exactly its printed fields, and the group lists
      exactly the printed names, in order. */
  lemma ConfRoundTrip(side: Side, xs: seq<Proxy>)
    ensures ParseConf(ConfText(side, xs)) == Some(Conf(Entries(side, xs), EntryNames(Entries(side, xs))))
  {
    EntriesClean(side, xs);
    FrameRoundTrip(HEADER, FOOTER, Entries(side, xs));
  }

  lemma {:induction false} EntryNamesAt(es: seq<Entry>, i: nat)
    requires i < |es|
    ensures |EntryNames(es)| == |es| && EntryNames(es)[i] == es[i].name
    decreases |es|
  {
    var init := es[..|es| - 1];
    if |init| > 0 { EntryNamesAt(init, if i < |init| then i else 0); }
  }

  /** The PROXY group lists exactly the names of the proxy lines, in order. */
  lemma GroupNamesEntries(side: Side, xs: seq<Proxy>, i: nat)
    requires i < |Entries(side, xs)|
    ensures ParseConf(ConfText(side, xs)).Some?
    ensures var conf := ParseConf(ConfText(side, xs)).value;
            |conf.group| == |conf.entries| == |Entries(side, xs)| && conf.group[i] == conf.entries[i].name
  {
    hide *;
    ConfRoundTrip(side, xs);
    EntryNamesAt(Entries(side, xs), i);
  }

  // ----- what sanitising loses -----

  predicate HasEscape(v: string) {
    |v| >= 3 && ("%2C" <= v || HasEscape(v[1..]))
  }

  lemma EscapeHead(c: char, s: string)
    ensures "%2C" <= [c] + s <==> c == '%' && "2C" <= s
  {
    var t := [c] + s;
    if "%2C" <= t {
      assert "%2C"[0] == t[0] && "%2C"[1] == t[1] && "%2C"[2] == t[2];
      assert s[0] == t[1] && s[1] == t[2];
    }
    if c == '%' && "2C" <= s {
      assert "2C"[0] == s[0] && "2C"[1] == s[1];
      assert t[..3] == "%2C";
    }
  }

  lemma UnescapeHead(v: string)
    ensures Unescape(v) != "" ==> v != "" && (Unescape(v)[0] == v[0] || Unescape(v)[0] == ',')
  {
  }

  lemma UnescapeStart(v: string)
    requires "2C" <= Unescape(v)
    ensures "2C" <= v
  {
    var u := Unescape(v);
    assert u[0] == '2' && u[1] == 'C';
    if |v| >= 3 {
      assert !("%2C" <= v) && u[1..] == Unescape(v[1..]);
      UnescapeHead(v[1..]);
    }
  }

  lemma {:induction false} UnescapeLeavesNone(v: string)
    ensures !HasEscape(Unescape(v))
    decreases |v|
  {
    var u := Unescape(v);
    if |v| >= 3 {
      if "%2C" <= v {
        UnescapeLeavesNone(v[3..]);
        assert u[0] == ',' && u[1..] == Unescape(v[3..]);
      } else {
        UnescapeLeavesNone(v[1..]);
        assert u[0] == v[0] && u[1..] == Unescape(v[1..]);
        assert v == [v[0]] + v[1..] && u == [u[0]] + u[1..];
        EscapeHead(v[0], v[1..]);
        EscapeHead(u[0], u[1..]);
        if "2C" <= u[1..] { UnescapeStart(v[1..]); }
      }
    }
  }

  lemma SafeValueCons(c: char, rest: string)
    ensures SafeValue([c] + rest) ==
            (if c == ',' then "%2C" else if c == '\n' || c == '\r' then "" else [c]) + SafeValue(rest)
  {
    var r1 := ReplaceAll(rest, ",", "%2C");
    var first := if c == ',' then "%2C" else [c];
    ReplaceCharAppend([c], rest, ',', "%2C");
    ReplaceOne(c, ',', "%2C");
    ReplaceCharAppend(first, r1, '\n', "");
    var second := if c == '\n' then "" else first;
    assert ReplaceAll(first, "\n", "") == second by {
      if c == ',' { ReplaceAbsentChar("%2C", '\n', ""); } else { ReplaceOne(c, '\n', ""); }
    }
    ReplaceCharAppend(second, ReplaceAll(r1, "\n", ""), '\r', "");
    if c == ',' { ReplaceAbsentChar("%2C", '\r', ""); } else if c != '\n' { ReplaceOne(c, '\r', ""); }
  }

  lemma SafeValueStart(v: string)
    requires '\n' !in v && '\r' !in v && "2C" <= SafeValue(v)
    ensures "2C" <= v
  {
    var s := SafeValue(v);
    assert s[0] == '2' && s[1] == 'C';
    assert v != "" && v == [v[0]] + v[1..] && v[0] in v;
    SafeValueCons(v[0], v[1..]);
    assert s[1..] == SafeValue(v[1..]);
    assert v[1..] != "" && v[1..] == [v[1]] + v[2..] && v[1] in v;
    SafeValueCons(v[1], v[2..]);
  }

  lemma {:induction false} Restores(v: string)
    requires '\n' !in v && '\r' !in v && !HasEscape(v)
    ensures Unescape(SafeValue(v)) == v
  {
    if v != "" {
      var c, rest := v[0], v[1..];
      assert v == [c] + rest && c in v;
      SafeValueCons(c, rest);
      Restores(rest);
      var w := SafeValue(rest);
      if c == ',' {
        assert SafeValue(v)[3..] == w;
      } else {
        assert SafeValue(v) == [c] + w && ([c] + w)[1..] == w;
        EscapeHead(c, w);
        EscapeHead(c, rest);
        if "2C" <= w {
          assert '\n' !in rest && '\r' !in rest;
          SafeValueStart(rest);
        }
      }
    }
  }

  lemma {:induction false} UnescapeChars(v: string, c: char)
    requires c in Unescape(v)
    ensures c in v || c == ','
    decreases |v|
  {
    if |v| >= 3 {
      if "%2C" <= v {
        if c != ',' { UnescapeChars(v[3..], c); }
      } else if c != v[0] {
        UnescapeChars(v[1..], c);
      }
    }
  }

  /** A value comes back from the configuration exactly when it has no line break and no literal `%2C`. */
  predicate Restorable(v: string) { '\n' !in v && '\r' !in v && !HasEscape(v) }

  lemma SafeValueRestored(v: string)
    ensures Unescape(SafeValue(v)) == v <==> Restorable(v)
  {
    if Restorable(v) {
      Restores(v);
    } else {
      UnescapeLeavesNone(SafeValue(v));
      SafeValueClean(v);
      forall c | c == '\n' || c == '\r' ensures c !in Unescape(SafeValue(v)) {
        if c in Unescape(SafeValue(v)) { UnescapeChars(SafeValue(v), c); }
      }
    }
  }

  lemma {:induction false} TrimRightLength(side: Side, s: string)
    ensures |TrimRight(side, s)| <= |s| && (SpaceSuffix(side, s) > 0 ==> |TrimRight(side, s)| < |s|)
    decreases |s|
  {
    if SpaceSuffix(side, s) > 0 { TrimRightLength(side, s[..|s| - SpaceSuffix(side, s)]); }
  }

  /** A name is printed as it is exactly when it has no comma, no line break and no white space at its ends. */
  lemma SafeNameUnchanged(side: Side, v: string)
    ensures SafeName(side, v) == v <==> Clean(v) && SpacePrefix(side, v) == 0 && SpaceSuffix(side, v) == 0
  {
    SafeNameClean(side, v);
    if Clean(v) {
      ReplaceAbsentChar(v, ',', " ");
      ReplaceAbsentChar(v, '\n', " ");
      ReplaceAbsentChar(v, '\r', " ");
      TrimLeftLength(side, v);
      TrimRightLength(side, TrimLeft(side, v));
    }
  }

  lemma FlattenAppend(a: string, b: string)
    ensures Flatten(a + b) == Flatten(a) + Flatten(b)
  {
    ReplaceCharAppend(a, b, ',', " ");
    var a1, b1 := ReplaceAll(a, ",", " "), ReplaceAll(b, ",", " ");
    ReplaceCharAppend(a1, b1, '\n', " ");
    ReplaceCharAppend(ReplaceAll(a1, "\n", " "), ReplaceAll(b1, "\n", " "), '\r', " ");
  }

  lemma FlattenOne(c: char)
    ensures Flatten([c]) == if c == ',' || c == '\n' || c == '\r' then " " else [c]
  {
    ReplaceOne(c, ',', " ");
    if c == ',' {
      ReplaceAbsentChar(" ", '\n', " ");
      ReplaceAbsentChar(" ", '\r', " ");
    } else {
      ReplaceOne(c, '\n', " ");
      if c == '\n' { ReplaceAbsentChar(" ", '\r', " "); } else { ReplaceOne(c, '\r', " "); }
    }
  }

  /** A comma, a line feed and a carriage return become a space each; nothing else changes. */
  lemma {:induction false} FlattenMeaning(v: string)
    ensures |Flatten(v)| == |v|
    ensures forall i :: 0 <= i < |v| ==>
              Flatten(v)[i] == if v[i] == ',' || v[i] == '\n' || v[i] == '\r' then ' ' else v[i]
  {
    hide Flatten;
    if v == "" {
      FlattenNothing();
    } else {
      FlattenMeaning(v[1..]);
      FlattenOne(v[0]);
      FlattenAppend([v[0]], v[1..]);
      assert v == [v[0]] + v[1..];
    }
  }

  lemma FlattenNothing()
    ensures Flatten("") == ""
  {
  }

  lemma FlattenSeparator()
    ensures Flatten(",") == Flatten(" ") == " "
  {
    ReplaceOne(',', ',', " ");
    ReplaceOne(' ', ',', " ");
    ReplaceOne(' ', '\n', " ");
    ReplaceOne(' ', '\r', " ");
  }

  /** So node names that differ only in a comma and a space get one and the same entry in the group. */
  lemma NamesCollide(side: Side, a: string, b: string)
    ensures SafeName(side, a + "," + b) == SafeName(side, a + " " + b)
  {
    FlattenAppend(a + ",", b);
    FlattenAppend(a + " ", b);
    FlattenAppend(a, ",");
    FlattenAppend(a, " ");
    FlattenSeparator();
  }

  // ----- printed names end in a suffix -----

  /** What is printed of a node name: flattened, and trimmed on the left. */
  function Shown(side: Side, name: string): string { TrimLeft(side, Flatten(name)) }

  lemma SuffixFlat(t: string)
    requires Suffix(t)
    ensures Flatten(t) == t && |t| >= 3 && t[0] == '-' && (t[|t| - 1] == 'n' || t[|t| - 1] == 'S') && IsAscii(t)
  {
    ReplaceAbsentChar(t, ',', " ");
    ReplaceAbsentChar(t, '\n', " ");
    ReplaceAbsentChar(t, '\r', " ");
  }

  /** No white-space character begins before an ASCII text and ends in it, or is the text's first byte. */
  lemma PrefixBefore(side: Side, s: string, t: string)
    requires t != "" && t[0] == '-'
    ensures SpacePrefix(side, s + t) == SpacePrefix(side, s)
  {
    assert |s| >= 1 ==> (s + t)[0] == s[0];
    assert |s| >= 2 ==> (s + t)[1] == s[1];
    assert |s| >= 3 ==> (s + t)[2] == s[2];
    assert (s + t)[|s|] == '-';
  }

  lemma {:induction false} TrimLeftBefore(side: Side, s: string, t: string)
    requires t != "" && t[0] == '-'
    ensures TrimLeft(side, s + t) == TrimLeft(side, s) + t
    decreases |s|
  {
    PrefixBefore(side, s, t);
    var k := SpacePrefix(side, s);
    if k != 0 {
      assert (s + t)[k..] == s[k..] + t;
      TrimLeftBefore(side, s[k..], t);
    }
  }

  lemma EndNoSpace(side: Side, s: string, k: nat)
    requires s != "" && (s[|s| - 1] == 'n' || s[|s| - 1] == 'S') && k >= 1
    ensures !EndsInSpace(side, s, k)
  {
    if k <= |s| { assert s[|s| - k..][k - 1] == s[|s| - 1]; }
  }

  lemma TrimRightNothing(side: Side, s: string)
    requires s != "" && (s[|s| - 1] == 'n' || s[|s| - 1] == 'S')
    ensures TrimRight(side, s) == s
  {
    EndNoSpace(side, s, 1);
    EndNoSpace(side, s, 2);
    EndNoSpace(side, s, 3);
  }

  /** Behind the suffix nothing is trimmed, so a printed name is what is shown of the node name, and the suffix. */
  lemma SafeNameSuffixed(side: Side, n: string, t: string)
    requires Suffix(t)
    ensures SafeName(side, n + t) == Shown(side, n) + t
  {
    SuffixFlat(t);
    FlattenAppend(n, t);
    TrimLeftBefore(side, Flatten(n), t);
    var s := Shown(side, n) + t;
    assert s[|s| - 1] == t[|t| - 1];
    TrimRightNothing(side, s);
  }

  // ----- the two implementations -----

  lemma StemSuffix(side: Side, x: Proxy)
    requires Suffixed(x)
    ensures SafeName(side, x.name) == Shown(side, Stem(x)) + SuffixFor(x)
  {
    SafeNameSuffixed(side, Stem(x), SuffixFor(x));
  }

  /** Both implementations show the name alike: its first character that is not white space to both of them is white
      space to neither. */
  predicate AlikeShown(x: Proxy) {
    !Divides(TrimCommon(Flatten(Stem(x))))
  }

  lemma SafeNameAgree(x: Proxy)
    requires Suffixed(x)
    ensures SafeName(Go, x.name) == SafeName(Js, x.name) <==> AlikeShown(x)
  {
    StemSuffix(Go, x);
    StemSuffix(Js, x);
    TrimLeftSame(Flatten(Stem(x)));
    SameStart(Shown(Go, Stem(x)), Shown(Js, Stem(x)), SuffixFor(x));
  }

  lemma SameStart(a: string, b: string, t: string)
    ensures a + t == b + t <==> a == b
  {
    if a + t == b + t { assert a == (a + t)[..|a|] && b == (b + t)[..|b|]; }
  }

  lemma EntriesSnoc(side: Side, xs: seq<Proxy>, x: Proxy)
    ensures Entries(side, xs + [x]) == Entries(side, xs) + [EntryOf(side, x)]
  {
    assert (xs + [x])[..|xs|] == xs;
  }

  lemma {:induction false} EntriesAt(side: Side, xs: seq<Proxy>)
    ensures |Entries(side, xs)| == |xs|
    ensures forall i :: 0 <= i < |xs| ==> Entries(side, xs)[i] == EntryOf(side, xs[i])
  {
    if xs != [] {
      var init, last := xs[..|xs| - 1], xs[|xs| - 1];
      assert xs == init + [last];
      EntriesAt(side, init);
      EntriesSnoc(side, init, last);
    }
  }

  predicate AllAlike(xs: seq<Proxy>) {
    forall i :: 0 <= i < |xs| ==> AlikeShown(xs[i])
  }

  lemma EntryAgree(x: Proxy)
    requires Suffixed(x)
    ensures EntryOf(Go, x) == EntryOf(Js, x) <==> AlikeShown(x)
  {
    SafeNameAgree(x);
  }

  lemma EntriesAgree(xs: seq<Proxy>)
    requires AllSuffixed(xs)
    ensures |Entries(Go, xs)| == |Entries(Js, xs)| == |xs|
    ensures Entries(Go, xs) == Entries(Js, xs) <==> AllAlike(xs)
  {
    var mine, theirs := Entries(Go, xs), Entries(Js, xs);
    EntriesAt(Go, xs);
    EntriesAt(Js, xs);
    forall i | 0 <= i < |xs| ensures mine[i] == theirs[i] <==> AlikeShown(xs[i]) { EntryAgree(xs[i]); }
    SameElements(mine, theirs);
  }

  /** The two configurations are byte for byte the same exactly when all names are shown alike. */
  lemma ConfAgree(xs: seq<Proxy>)
    requires AllSuffixed(xs)
    ensures ConfText(Go, xs) == ConfText(Js, xs) <==> AllAlike(xs)
  {
    EntriesAgree(xs);
    if ConfText(Go, xs) == ConfText(Js, xs) {
      ConfRoundTrip(Go, xs);
      ConfRoundTrip(Js, xs);
    }
  }

  // ----- when names stay distinct -----

  function ShownBy(side: Side): string -> string { (name: string) => Shown(side, name) }

  lemma EntryNamesSnoc(es: seq<Entry>, e: Entry)
    ensures EntryNames(es + [e]) == EntryNames(es) + [e.name]
  {
    assert (es + [e])[..|es|] == es;
  }

  lemma ShowsSnoc(base: string -> string, xs: seq<Proxy>, x: Proxy)
    ensures Groups.Shows(base, xs + [x]) == Groups.Shows(base, xs) + [Groups.Label(base, x)]
  {
    assert (xs + [x])[..|xs|] == xs;
  }

  lemma LabelShown(side: Side, x: Proxy)
    requires Suffixed(x)
    ensures EntryOf(side, x).name == Groups.Label(ShownBy(side), x)
  {
    StemSuffix(side, x);
  }

  lemma {:induction false} EntryNamesShown(side: Side, xs: seq<Proxy>)
    requires AllSuffixed(xs)
    ensures EntryNames(Entries(side, xs)) == Groups.Shows(ShownBy(side), xs)
  {
    if xs != [] {
      var init, last := xs[..|xs| - 1], xs[|xs| - 1];
      assert xs == init + [last] && forall i :: 0 <= i < |init| ==> init[i] == xs[i];
      EntryNamesShown(side, init);
      EntriesSnoc(side, init, last);
      EntryNamesSnoc(Entries(side, init), EntryOf(side, last));
      LabelShown(side, last);
      ShowsSnoc(ShownBy(side), init, last);
    }
  }

  /** All group entries are distinct if and only if no node announces a type twice and no two nodes that announce the
      same type have equal names once flattened and trimmed on the left. */
  lemma EntryNamesDistinct(side: Side, nodes: seq<Node>)
    ensures Groups.Distinct(EntryNames(Entries(side, Proxies(nodes)))) <==>
            Groups.NoKindTwice(nodes) && Groups.Separate(ShownBy(side), nodes)
  {
    hide *;
    ProxiesSuffixed(nodes);
    EntryNamesShown(side, Proxies(nodes));
    Groups.NamesDistinct(ShownBy(side), nodes);
  }

  // ----- the printers -----

  lemma EntriesLast(side: Side, xs: seq<Proxy>, x: Proxy)
    ensures EntryTexts(Entries(side, xs + [x])) == EntryTexts(Entries(side, xs)) + [EntryLine(EntryOf(side, x))]
    ensures EntryNames(Entries(side, xs + [x])) == EntryNames(Entries(side, xs)) + [SafeName(side, x.name)]
  {
    EntriesSnoc(side, xs, x);
    var es := Entries(side, xs);
    assert (es + [EntryOf(side, x)])[..|es|] == es;
  }

  lemma UnlinesLast(lines: seq<string>, line: string)
    ensures Unlines(lines + [line]) == Unlines(lines) + line + "\n"
  {
    assert (lines + [line])[..|lines|] == lines;
  }

  /** One round of Go's loop. */
  method GoEntry(b: string, names: seq<string>, node: Node, p: Protocol,
      ghost above: seq<string>, ghost met: seq<ByteProxy>)
    returns (b': string, names': seq<string>)
    requires b == Unlines(above + EntryTexts(Entries(Go, met))) && names == EntryNames(Entries(Go, met))
    ensures b' == Unlines(above + EntryTexts(Entries(Go, met + ProxyOf(node, p))))
    ensures names' == EntryNames(Entries(Go, met + ProxyOf(node, p)))
  {
    b', names' := b, names;
    if p.kind == "trojan" {
      var name := SafeName(Go, node.name + "-Trojan");
      names' := names' + [name];
      b' := b' + Join([name + " = trojan", SafeValue(node.host), PrintInt(p.port), "password=" + SafeValue(p.password),
                       "over-tls=true", "tls-verification=true",
                       "sni=" + SafeValue(FirstNonEmpty([p.sni, node.host]))], ", ") + "\n";
    } else if p.kind == "shadowsocks" {
      var name := SafeName(Go, node.name + "-SS");
      names' := names' + [name];
      b' := b' + Join([name + " = ss", SafeValue(node.host), PrintInt(p.port), "encrypt-method=" + SafeValue(p.cipher),
                       "password=" + SafeValue(p.password)], ", ") + "\n";
    }
    if ProxyOf(node, p) == [] {
      assert met + ProxyOf(node, p) == met;
    } else {
      var x := ProxyOf(node, p)[0];
      EntriesLast(Go, met, x);
      Associate(above, EntryTexts(Entries(Go, met)), [EntryLine(EntryOf(Go, x))]);
      UnlinesLast(above + EntryTexts(Entries(Go, met)), EntryLine(EntryOf(Go, x)));
    }
  }

  method GoEntries(start: string, nodes: seq<Node>, ghost above: seq<string>) returns (b: string, names: seq<string>)
    requires start == Unlines(above)
    ensures b == Unlines(above + EntryTexts(Entries(Go, Proxies(nodes))))
    ensures names == EntryNames(Entries(Go, Proxies(nodes)))
  {
    b, names := start, [];
    assert above + EntryTexts(Entries(Go, Proxies(nodes[..0]))) == above;
    for i := 0 to |nodes|
      invariant b == Unlines(above + EntryTexts(Entries(Go, Proxies(nodes[..i]))))
      invariant names == EntryNames(Entries(Go, Proxies(nodes[..i])))
    {
      MetStart(nodes, i);
      for j := 0 to |nodes[i].protocols|
        invariant b == Unlines(above + EntryTexts(Entries(Go, Met(nodes, i, j))))
        invariant names == EntryNames(Entries(Go, Met(nodes, i, j)))
      {
        MetStep(nodes, i, j);
        b, names := GoEntry(b, names, nodes[i], nodes[i].protocols[j], above, Met(nodes, i, j));
      }
      MetEnd(nodes, i);
    }
    assert nodes[..|nodes|] == nodes;
  }

  /** The group line, one name at a time. */
  method GoGroup(names: seq<string>) returns (line: string)
    ensures line == GroupLine(names)
  {
    line := "PROXY = select";
    for k := 0 to |names|
      invariant line == Join(["PROXY = select"] + names[..k], ", ")
    {
      line := line + ", " + names[k];
      JoinSnoc(["PROXY = select"] + names[..k], names[k], ", ");
      assert ["PROXY = select"] + names[..k + 1] == ["PROXY = select"] + names[..k] + [names[k]];
    }
    assert names[..|names|] == names;
    JoinSnoc(["PROXY = select"] + names, "DIRECT", ", ");
    Associate(line, ", ", "DIRECT");
    line := line + ", DIRECT";
  }

  method GoRenderFrame(header: seq<string>, footer: seq<string>, nodes: seq<Node>) returns (text: string)
    ensures text == Unlines(ConfLines(header, footer, Entries(Go, Proxies(nodes))))
  {
    ghost var es := Entries(Go, Proxies(nodes));
    var b, names := GoEntries(Unlines(header), nodes, header);
    var group := GoGroup(names);
    UnlinesAppend(header + EntryTexts(es), ["", "[Proxy Group]", group]);
    UnlinesAppend(header + EntryTexts(es) + ["", "[Proxy Group]", group], footer);
    text := b + Unlines(["", "[Proxy Group]", group]) + Unlines(footer);
  }

  /** Go's renderShadowrocketConfig. */
  method GoRenderShadowrocketConfig(nodes: seq<Node>) returns (text: string)
    ensures text == ConfText(Go, Proxies(nodes))
  {
    text := GoRenderFrame(HEADER, FOOTER, nodes);
  }

  /** One round of the Worker's loop. */
  method WorkerEntry(lines: seq<string>, names: seq<string>, node: Node, p: Protocol,
      ghost above: seq<string>, ghost met: seq<ByteProxy>)
    returns (lines': seq<string>, names': seq<string>)
    requires lines == above + EntryTexts(Entries(Js, met)) && names == EntryNames(Entries(Js, met))
    ensures lines' == above + EntryTexts(Entries(Js, met + ProxyOf(node, p)))
    ensures names' == EntryNames(Entries(Js, met + ProxyOf(node, p)))
  {
    lines', names' := lines, names;
    if p.kind == "trojan" {
      var name := SafeName(Js, node.name + "-Trojan");
      names' := names' + [name];
      lines' := lines' + [
        Join([name + " = trojan", SafeValue(node.host), PrintInt(p.port), "password=" + SafeValue(p.password),
              "over-tls=true", "tls-verification=true",
              "sni=" + SafeValue(if p.sni != "" then p.sni else node.host)], ", ")];
    }
    if p.kind == "shadowsocks" {
      var name := SafeName(Js, node.name + "-SS");
      names' := names' + [name];
      lines' := lines' + [
        Join([name + " = ss", SafeValue(node.host), PrintInt(p.port), "encrypt-method=" + SafeValue(p.cipher),
              "password=" + SafeValue(p.password)], ", ")];
    }
    if ProxyOf(node, p) == [] {
      assert met + ProxyOf(node, p) == met;
    } else {
      var x := ProxyOf(node, p)[0];
      EntriesLast(Js, met, x);
      Associate(above, EntryTexts(Entries(Js, met)), [EntryLine(EntryOf(Js, x))]);
    }
  }

  method WorkerRenderFrame(header: seq<string>, footer: seq<string>, nodes: seq<Node>) returns (text: string)
    requires header != []
    ensures text == Unlines(ConfLines(header, footer, Entries(Js, Proxies(nodes))))
  {
    var lines, names: seq<string> := header, [];
    for i := 0 to |nodes|
      invariant lines == header + EntryTexts(Entries(Js, Proxies(nodes[..i])))
      invariant names == EntryNames(Entries(Js, Proxies(nodes[..i])))
    {
      MetStart(nodes, i);
      for j := 0 to |nodes[i].protocols|
        invariant lines == header + EntryTexts(Entries(Js, Met(nodes, i, j)))
        invariant names == EntryNames(Entries(Js, Met(nodes, i, j)))
      {
        MetStep(nodes, i, j);
        lines, names := WorkerEntry(lines, names, nodes[i], nodes[i].protocols[j], header, Met(nodes, i, j));
      }
      MetEnd(nodes, i);
    }
    assert nodes[..|nodes|] == nodes;
    lines := lines + ["", "[Proxy Group]", Join(["PROXY = select"] + names + ["DIRECT"], ", ")] + footer;
    UnlinesJoin(lines);
    text := Join(lines, "\n") + "\n";
  }

  /** The Worker's renderShadowrocketConfig. */
  method WorkerRenderShadowrocketConfig(nodes: seq<Node>) returns (text: string)
    ensures text == ConfText(Js, Proxies(nodes))
  {
    text := WorkerRenderFrame(HEADER, FOOTER, nodes);
  }
}
