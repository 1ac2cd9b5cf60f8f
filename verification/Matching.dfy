/** What the searches and replacements of the nginx tuning mean, in terms of where a text occurs. */
module Matching {
  import opened Text
  import opened Rewriting
  import opened Tuning

  /** re.search with the MULTILINE flag for an expression that begins with ^: it is tried at the start of the text and
      behind every line break. */
  predicate SearchFrom(s: string, p: string -> bool, atStart: bool) {
    (atStart && p(s)) || (s != "" && SearchFrom(s[1..], p, s[0] == '\n'))
  }

  predicate Search(text: string, p: string -> bool) { SearchFrom(text, p, true) }

  // ----- replacing -----

  ghost predicate Occurs(s: string, what: string) {
    exists i :: 0 <= i <= |s| && what <= s[i..]
  }

  /** The first occurrence of `what` in `s` stands between `a` and `b`. */
  ghost predicate FirstBetween(s: string, a: string, what: string, b: string) {
    s == a + what + b && forall i :: 0 <= i < |a| ==> !(what <= s[i..])
  }

  /** `r` is `s` with `into` in the place of the first `what`; without one it is `s`. */
  ghost predicate FirstReplaced(s: string, what: string, into: string, r: string) {
    (exists a, b :: FirstBetween(s, a, what, b) && r == a + into + b) || (!Occurs(s, what) && r == s)
  }

  lemma FirstBetweenCons(c: char, s: string, a: string, what: string, b: string)
    requires FirstBetween(s, a, what, b) && !(what <= [c] + s)
    ensures FirstBetween([c] + s, [c] + a, what, b)
  {
    var t, p := [c] + s, [c] + a;
    assert t == p + what + b;
    forall i | 0 <= i < |p| ensures !(what <= t[i..]) {
      if i > 0 { assert t[i..] == s[i - 1..]; } else { assert t[0..] == t; }
    }
  }

  lemma OccursCons(c: char, s: string, what: string)
    requires !(what <= [c] + s)
    ensures Occurs([c] + s, what) <==> Occurs(s, what)
  {
    var t := [c] + s;
    assert t[0..] == t;
    if Occurs(t, what) {
      var i :| 0 <= i <= |t| && what <= t[i..];
      assert t[i..] == s[i - 1..];
    }
    if Occurs(s, what) {
      var i :| 0 <= i <= |s| && what <= s[i..];
      assert t[i + 1..] == s[i..];
    }
  }

  lemma FirstHereReplaced(rest: string, what: string, into: string)
    ensures FirstReplaced(what + rest, what, into, into + rest)
  {
    assert what + rest == "" + what + rest && into + rest == "" + into + rest;
    assert FirstBetween(what + rest, "", what, rest);
  }

  lemma FirstReplacedCons(c: char, s: string, what: string, into: string, r: string)
    requires FirstReplaced(s, what, into, r) && !(what <= [c] + s)
    ensures FirstReplaced([c] + s, what, into, [c] + r)
  {
    hide FirstBetween, Occurs;
    if a, b :| FirstBetween(s, a, what, b) && r == a + into + b {
      FirstBetweenCons(c, s, a, what, b);
      assert [c] + r == [c] + a + into + b;
    } else {
      OccursCons(c, s, what);
    }
  }

  lemma Shorter(s: string, what: string)
    requires |s| < |what|
    ensures !Occurs(s, what)
  {
    assert forall i :: 0 <= i <= |s| ==> |s[i..]| < |what|;
  }

  lemma {:induction false} ReplaceFirstMeaning(s: string, what: string, into: string)
    requires what != ""
    ensures FirstReplaced(s, what, into, ReplaceFirst(s, what, into))
  {
    hide FirstReplaced, Occurs;
    if |s| < |what| {
      Shorter(s, what);
      NotReplaced(s, what, into);
    } else if what <= s {
      assert s == what + s[|what|..];
      FirstHereReplaced(s[|what|..], what, into);
    } else {
      assert s == [s[0]] + s[1..];
      ReplaceFirstMeaning(s[1..], what, into);
      FirstReplacedCons(s[0], s[1..], what, into, ReplaceFirst(s[1..], what, into));
    }
  }

  lemma NotReplaced(s: string, what: string, into: string)
    requires !Occurs(s, what)
    ensures FirstReplaced(s, what, into, s)
  {
  }

  /** `r` is `s` with `into` in the place of every `what`, found from the left: the texts in between stay. */
  ghost predicate AllReplaced(s: string, what: string, into: string, r: string) {
    exists parts: seq<string> :: |parts| > 0 && s == Join(parts, what) && r == Join(parts, into) && Between(parts, what)
  }

  ghost predicate Between(parts: seq<string>, what: string) {
    forall i :: 0 <= i < |parts| ==>
      if i < |parts| - 1 then FirstBetween(parts[i] + what, parts[i], what, "") else !Occurs(parts[i], what)
  }

  lemma BetweenCons(p: string, parts: seq<string>, what: string)
    requires parts != [] && Between(parts, what) && FirstBetween(p + what, p, what, "")
    ensures Between([p] + parts, what)
  {
    var all := [p] + parts;
    forall i | 0 <= i < |all|
      ensures if i < |all| - 1 then FirstBetween(all[i] + what, all[i], what, "") else !Occurs(all[i], what)
    {
      if i > 0 { assert all[i] == parts[i - 1]; }
    }
  }

  lemma JoinParts(p: string, parts: seq<string>, sep: string)
    requires parts != []
    ensures Join([p] + parts, sep) == p + sep + Join(parts, sep)
  {
    assert ([p] + parts)[1..] == parts;
  }

  lemma PrefixExtends(what: string, s: string, t: string)
    ensures what <= s ==> what <= s + t
  {
  }

  /** The first part is one character longer. */
  lemma LongerPart(c: char, parts: seq<string>, what: string)
    requires what != "" && parts != [] && Between(parts, what) && !(what <= [c] + Join(parts, what))
    ensures Between([[c] + parts[0]] + parts[1..], what)
  {
    var p, more := parts[0], parts[1..];
    var s := Join(parts, what);
    assert parts == [p] + more;
    var q := [c] + p;
    var all := [q] + more;
    if more == [] {
      OccursCons(c, p, what);
    } else {
      JoinParts(p, more, what);
      var t := p + what;
      assert s == t + Join(more, what);
      assert [c] + s == [c] + t + Join(more, what);
      PrefixExtends(what, [c] + t, Join(more, what));
      FirstBetweenCons(c, t, p, what, "");
      assert q + what == [c] + t;
    }
    forall i | 0 <= i < |all|
      ensures if i < |all| - 1 then FirstBetween(all[i] + what, all[i], what, "") else !Occurs(all[i], what)
    {
      if i > 0 { assert all[i] == parts[i]; }
    }
  }

  lemma HitPart(s: string, what: string, into: string, rest: seq<string>) returns (parts: seq<string>)
    requires what != "" && what <= s && rest != [] && s[|what|..] == Join(rest, what) && Between(rest, what)
    ensures parts != [] && s == Join(parts, what) && Join(parts, into) == into + Join(rest, into)
    ensures Between(parts, what)
  {
    hide Between;
    parts := [""] + rest;
    assert FirstBetween("" + what, "", what, "");
    BetweenCons("", rest, what);
    JoinParts("", rest, what);
    JoinParts("", rest, into);
    assert s == "" + what + s[|what|..] && "" + into + Join(rest, into) == into + Join(rest, into);
  }

  lemma OnePart(s: string, what: string)
    requires |s| < |what|
    ensures Between([s], what)
  {
    Shorter(s, what);
  }

  lemma {:induction false} ReplaceAllParts(s: string, what: string, into: string) returns (parts: seq<string>)
    requires what != ""
    ensures |parts| > 0 && s == Join(parts, what) && ReplaceAll(s, what, into) == Join(parts, into)
    ensures Between(parts, what)
    decreases |s|
  {
    hide Between;
    if |s| < |what| {
      parts := [s];
      OnePart(s, what);
    } else if what <= s {
      var rest := ReplaceAllParts(s[|what|..], what, into);
      parts := HitPart(s, what, into, rest);
    } else {
      var rest := ReplaceAllParts(s[1..], what, into);
      assert s == [s[0]] + s[1..];
      parts := [[s[0]] + rest[0]] + rest[1..];
      LongerPart(s[0], rest, what);
      LongerJoin(s[0], rest, what);
      LongerJoin(s[0], rest, into);
    }
  }

  lemma LongerJoin(c: char, parts: seq<string>, sep: string)
    requires parts != []
    ensures Join([[c] + parts[0]] + parts[1..], sep) == [c] + Join(parts, sep)
  {
    assert ([[c] + parts[0]] + parts[1..])[1..] == parts[1..];
  }

  lemma ReplaceAllMeaning(s: string, what: string, into: string)
    requires what != ""
    ensures AllReplaced(s, what, into, ReplaceAll(s, what, into))
  {
    var parts := ReplaceAllParts(s, what, into);
  }

  // ----- searching for a directive -----

  /** Where ^ matches. */
  predicate LineStart(a: string) { a == "" || a[|a| - 1] == '\n' }

  lemma {:induction false} SearchFromMeaning(s: string, p: string -> bool, atStart: bool)
    ensures SearchFrom(s, p, atStart) <==>
            exists i :: 0 <= i <= |s| && (if i == 0 then atStart else s[i - 1] == '\n') && p(s[i..])
  {
    assert s[0..] == s;
    if s != "" {
      var t := s[1..];
      SearchFromMeaning(t, p, s[0] == '\n');
      if i :| 0 <= i <= |t| && (if i == 0 then s[0] == '\n' else t[i - 1] == '\n') && p(t[i..]) {
        assert s[i + 1..] == t[i..];
      }
      if i :| 1 <= i <= |s| && s[i - 1] == '\n' && p(s[i..]) {
        assert s[i..] == t[i - 1..];
      }
    }
  }

  lemma SearchMeaning(text: string, p: string -> bool)
    ensures Search(text, p) <==> exists i :: 0 <= i <= |text| && LineStart(text[..i]) && p(text[i..])
  {
    SearchFromMeaning(text, p, true);
    assert forall i :: 0 < i <= |text| ==> text[..i][|text[..i]| - 1] == text[i - 1];
  }

  /** A character that has no word boundary between itself and a letter before it. */
  predicate WordChar(c: char) { '0' <= c <= '9' || 'A' <= c <= 'Z' || 'a' <= c <= 'z' || c == '_' }

  predicate Blanks(s: string) { forall i :: 0 <= i < |s| ==> s[i] == ' ' || s[i] == '\t' }

  /** ASCII white space but for a carriage return. */
  predicate Whites(s: string) { forall i :: 0 <= i < |s| ==> s[i] as int in [9, 10, 11, 12, 28, 29, 30, 31, 32] }

  predicate Digits(s: string) { forall i :: 0 <= i < |s| ==> '0' <= s[i] <= '9' }

  /** Blanks, the word, and then no character that would continue it. */
  predicate DirectiveParts(s: string, blanks: string, word: string, rest: string) {
    s == blanks + word + rest && Blanks(blanks) && (rest == "" || !WordChar(rest[0]))
  }

  ghost predicate BeginsDirective(s: string, word: string) {
    exists blanks, rest :: DirectiveParts(s, blanks, word, rest)
  }

  /** Some line begins with the directive. */
  ghost predicate HasDirective(text: string, word: string) {
    exists i :: 0 <= i <= |text| && LineStart(text[..i]) && BeginsDirective(text[i..], word)
  }

  lemma {:induction false} BlanksSkipped(s: string) returns (blanks: string)
    ensures s == blanks + SkipBlanks(s) && Blanks(blanks)
  {
    if s != "" && IsBlank(s[0]) { blanks := BlanksSkipped(s[1..]); blanks := [s[0]] + blanks; } else { blanks := ""; }
  }

  lemma {:induction false} SkipBlanksAt(blanks: string, u: string)
    requires Blanks(blanks) && (u != "" ==> u[0] != ' ' && u[0] != '\t')
    ensures SkipBlanks(blanks + u) == u
  {
    if blanks == "" {
      assert blanks + u == u;
    } else {
      assert (blanks + u)[1..] == blanks[1..] + u;
      SkipBlanksAt(blanks[1..], u);
    }
  }

  lemma WordChars(c: char)
    ensures WordChar(c) <==> IsWord(c)
  {
  }

  lemma DirectiveRead(s: string, word: string)
    requires Directive(s, word)
    ensures BeginsDirective(s, word)
  {
    hide WordChar, IsWord;
    var blanks := BlanksSkipped(s);
    var t := SkipBlanks(s);
    var rest := t[|word|..];
    assert t == word + rest && s == blanks + word + rest;
    if rest != "" { WordChars(rest[0]); }
    assert DirectiveParts(s, blanks, word, rest);
  }

  lemma DirectiveWritten(blanks: string, word: string, rest: string)
    requires word != "" && word[0] != ' ' && word[0] != '\t'
    requires Blanks(blanks) && (rest == "" || !WordChar(rest[0]))
    ensures Directive(blanks + word + rest, word)
  {
    hide WordChar, IsWord, Blanks, SkipBlanks;
    var t := word + rest;
    Associate(blanks, word, rest);
    SkipBlanksAt(blanks, t);
    if rest != "" { WordChars(rest[0]); }
  }

  lemma DirectiveMeaning(s: string, word: string)
    requires word != "" && word[0] != ' ' && word[0] != '\t'
    ensures Directive(s, word) <==> BeginsDirective(s, word)
  {
    hide Directive, WordChar, Blanks;
    if Directive(s, word) { DirectiveRead(s, word); }
    if BeginsDirective(s, word) {
      var blanks, rest :| DirectiveParts(s, blanks, word, rest);
      DirectiveWritten(blanks, word, rest);
    }
  }

  lemma SearchDirective(text: string, p: string -> bool, word: string)
    requires word != "" && word[0] != ' ' && word[0] != '\t'
    requires forall s :: p(s) <==> Directive(s, word)
    ensures Search(text, p) <==> HasDirective(text, word)
  {
    SearchMeaning(text, p);
    forall i | 0 <= i <= |text| ensures p(text[i..]) <==> BeginsDirective(text[i..], word) {
      DirectiveMeaning(text[i..], word);
    }
  }

  predicate UseEpollParts(s: string, blanks: string, space: string, rest: string) {
    s == blanks + "use" + space + "epoll;" + rest && Blanks(blanks) && space != "" && Whites(space)
  }

  ghost predicate BeginsUseEpoll(s: string) {
    exists blanks, space, rest :: UseEpollParts(s, blanks, space, rest)
  }

  ghost predicate HasUseEpoll(text: string) {
    exists i :: 0 <= i <= |text| && LineStart(text[..i]) && BeginsUseEpoll(text[i..])
  }

  lemma WhitesAreSpaces(s: string)
    ensures Whites(s) <==> AllSpace(s)
  {
  }

  lemma EpollRead(s: string)
    requires IsEpoll(s)
    ensures BeginsUseEpoll(s)
  {
    hide SkipBlanks, SkipSpaces, Blanks, Whites;
    var blanks := BlanksSkipped(s);
    var u := SkipBlanks(s)[3..];
    var space := SpacesSkipped(u);
    WhitesAreSpaces(space);
    var rest := SkipSpaces(u)[6..];
    assert u == space + ("epoll;" + rest) && SkipBlanks(s) == "use" + u;
    assert s == blanks + "use" + space + "epoll;" + rest;
    assert UseEpollParts(s, blanks, space, rest);
  }

  lemma EpollWritten(blanks: string, space: string, rest: string)
    requires Blanks(blanks) && space != "" && Whites(space)
    ensures IsEpoll(blanks + "use" + space + "epoll;" + rest)
  {
    hide SkipBlanks, SkipSpaces, Blanks, Whites;
    var t := "epoll;" + rest;
    var u := space + t;
    assert blanks + "use" + space + "epoll;" + rest == blanks + ("use" + u);
    SkipBlanksAt(blanks, "use" + u);
    WhitesAreSpaces(space);
    SkipSpacesAt(space, t);
    assert ("use" + u)[3..] == u && "epoll;" <= t;
  }

  lemma EpollMeaning(s: string)
    ensures IsEpoll(s) <==> BeginsUseEpoll(s)
  {
    hide IsEpoll, Blanks, Whites;
    if IsEpoll(s) { EpollRead(s); }
    if BeginsUseEpoll(s) {
      var blanks, space, rest :| UseEpollParts(s, blanks, space, rest);
      EpollWritten(blanks, space, rest);
    }
  }

  lemma SearchUseEpoll(text: string)
    ensures Search(text, IsEpoll) <==> HasUseEpoll(text)
  {
    SearchMeaning(text, IsEpoll);
    forall i | 0 <= i <= |text| ensures IsEpoll(text[i..]) <==> BeginsUseEpoll(text[i..]) { EpollMeaning(text[i..]); }
  }

  // ----- the number of connections -----

  predicate ConnectionsParts(m: string, space: string, digits: string) {
    m == "worker_connections" + space + digits + ";" && space != "" && Whites(space) && digits != "" && Digits(digits)
  }

  ghost predicate ConnectionsMatch(m: string) {
    exists space, digits :: ConnectionsParts(m, space, digits)
  }

  ghost predicate BeginsConnections(s: string) {
    exists m, rest :: s == m + rest && ConnectionsMatch(m)
  }

  /** `r` is `s` with `worker_connections 8192;` in the place of the first match; without one it is `s`. */
  ghost predicate ConnectionsRaised(s: string, r: string) {
    || (exists a, m, b :: s == a + m + b && ConnectionsMatch(m) && r == a + "worker_connections 8192;" + b &&
          NoConnections(s, |a|))
    || (NoConnections(s, |s| + 1) && r == s)
  }

  /** No match begins before the position `k`. */
  ghost predicate NoConnections(s: string, k: nat) {
    forall i :: 0 <= i < k && i <= |s| ==> !BeginsConnections(s[i..])
  }

  lemma ConnectionsMeaning(m: string)
    ensures Connections(m) <==> ConnectionsMatch(m)
  {
    hide MatchConnections, Whites;
    if Connections(m) {
      var sp, dg := MatchParts(m);
      WhitesAreSpaces(sp);
      TailText("worker_connections", sp, dg);
      assert ConnectionsParts(m, sp, dg);
    }
    if ConnectionsMatch(m) {
      var sp, dg :| ConnectionsParts(m, sp, dg);
      WhitesAreSpaces(sp);
      assert AllDigit(dg);
      MatchAt(sp, dg, "");
      TailText("worker_connections", sp, dg);
      assert m == CONNECTIONS + (sp + (dg + (";" + "")));
    }
  }

  lemma TailText(c: string, sp: string, dg: string)
    ensures c + (sp + (dg + (";" + ""))) == c + sp + dg + ";"
  {
  }

  lemma BeginsMeaning(s: string)
    ensures MatchConnections(s).Some? <==> BeginsConnections(s)
  {
    if MatchConnections(s).Some? {
      var m, rest := MatchSplit(s);
      ConnectionsMeaning(m);
    }
    if BeginsConnections(s) {
      var m, rest :| s == m + rest && ConnectionsMatch(m);
      ConnectionsMeaning(m);
      MatchExtend(m, rest);
    }
  }

  lemma NoConnectionsCons(c: char, s: string, k: nat)
    requires NoConnections(s, k) && !BeginsConnections([c] + s)
    ensures NoConnections([c] + s, k + 1)
  {
    var t := [c] + s;
    forall i | 0 <= i < k + 1 && i <= |t| ensures !BeginsConnections(t[i..]) {
      if i > 0 { assert t[i..] == s[i - 1..]; } else { assert t[0..] == t; }
    }
  }

  lemma TunedHere(m: string, rest: string)
    requires Connections(m)
    ensures ConnectionsRaised(m + rest, Tuned(m + rest))
  {
    hide MatchConnections, BeginsConnections, ConnectionsMatch, Tuned, Retune;
    TunedHit(m, rest);
    TunedIs(m + rest, TUNED + rest);
    ConnectionsMeaning(m);
    assert m + rest == "" + m + rest && TUNED + rest == "" + "worker_connections 8192;" + rest;
    assert NoConnections(m + rest, |""|);
  }

  lemma TunedIs(s: string, t: string)
    requires Retune(s) == Some(t)
    ensures Tuned(s) == t
  {
  }

  lemma RaisedCons(c: char, s: string, r: string)
    requires ConnectionsRaised(s, r) && !BeginsConnections([c] + s)
    ensures ConnectionsRaised([c] + s, [c] + r)
  {
    hide BeginsConnections, ConnectionsMatch, NoConnections;
    if NoConnections(s, |s| + 1) && r == s {
      NoConnectionsCons(c, s, |s| + 1);
    } else {
      var a, m, b :| s == a + m + b && ConnectionsMatch(m) && r == a + "worker_connections 8192;" + b &&
        NoConnections(s, |a|);
      NoConnectionsCons(c, s, |a|);
      var p := [c] + a;
      var into := "worker_connections 8192;";
      Associate([c], a + m, b);
      Associate([c], a, m);
      Associate([c], a + into, b);
      Associate([c], a, into);
      assert [c] + s == p + m + b && [c] + r == p + into + b && |p| == |a| + 1;
    }
  }

  lemma {:induction false} TunedMeaning(s: string)
    ensures ConnectionsRaised(s, Tuned(s))
  {
    hide *;
    BeginsMeaning(s);
    if MatchConnections(s).Some? {
      var m, rest := MatchSplit(s);
      TunedHere(m, rest);
    } else if s == "" {
      NothingTuned(s);
      NothingRaised();
    } else {
      assert s == [s[0]] + s[1..];
      TunedMiss(s);
      TunedMeaning(s[1..]);
      RaisedCons(s[0], s[1..], Tuned(s[1..]));
    }
  }

  lemma NothingRaised()
    ensures ConnectionsRaised("", "")
  {
    hide MatchConnections;
    BeginsMeaning("");
    if MatchConnections("").Some? { MatchStart(""); }
    assert ""[0..] == "";
    assert NoConnections("", 1);
  }
}
