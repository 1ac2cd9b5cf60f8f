/** The regular expressions of the installer's nginx tuning, and how its two in-line rewrites act on a text. The
    character classes are those of ASCII text. */
module Tuning {
  import opened Text
  import opened Rewriting

  predicate IsWord(c: char) { IsAlnum(c) || c == '_' }

  /** [ \t] */
  predicate IsBlank(c: char) { c == ' ' || c == '\t' }

  /** \s; a carriage return does not survive reading a file as text. */
  predicate IsSpace(c: char) {
    IsBlank(c) || 0x0A <= c as int <= 0x0C || 0x1C <= c as int <= 0x1F
  }

  function SkipBlanks(s: string): string {
    if s != "" && IsBlank(s[0]) then SkipBlanks(s[1..]) else s
  }

  function SkipSpaces(s: string): string {
    if s != "" && IsSpace(s[0]) then SkipSpaces(s[1..]) else s
  }

  function SkipDigits(s: string): string {
    if s != "" && IsDigit(s[0]) then SkipDigits(s[1..]) else s
  }

  /** ^[ \t]*word\b */
  predicate Directive(line: string, word: string) {
    var s := SkipBlanks(line);
    word <= s && (|s| == |word| || !IsWord(s[|word|]))
  }

  const RLIMIT := "worker_rlimit_nofile"
  const PID := "pid /run/nginx.pid;"
  const COMMENTED := "# multi_accept on;"
  const ENABLED := "multi_accept on;"
  const CONNECTIONS := "worker_connections"
  const TUNED := "worker_connections 8192;"

  predicate IsRlimit(line: string) { Directive(line, RLIMIT) }

  /** ^[ \t]*use\s+epoll; */
  predicate IsEpoll(line: string) {
    var s := SkipBlanks(line);
    "use" <= s && var t := SkipSpaces(s[3..]); |t| < |s| - 3 && "epoll;" <= t
  }

  predicate IsTimeout(line: string) { Directive(line, "keepalive_timeout") }

  predicate IsRequests(line: string) { Directive(line, "keepalive_requests") }

  /** worker_connections\s+\d+; at the start of the text: what follows the match */
  function MatchConnections(s: string): Option<string> {
    var s1 :- Expect(CONNECTIONS, s);
    var s2 := SkipSpaces(s1);
    var s3 := SkipDigits(s2);
    if |s2| < |s1| && |s3| < |s2| then Expect(";", s3) else None
  }

  /** re.sub with a count of 1; None when nothing matches. */
  function Retune(s: string): Option<string> {
    if MatchConnections(s).Some? then Some(TUNED + MatchConnections(s).value)
    else if s == "" then None
    else
      var t :- Retune(s[1..]);
      Some([s[0]] + t)
  }

  function Tuned(s: string): string { Retune(s).GetOr(s) }

  function Uncomment(s: string): string { ReplaceAll(s, COMMENTED, ENABLED) }

  // ----- the shape of a match -----

  predicate AllSpace(s: string) { forall i :: 0 <= i < |s| ==> IsSpace(s[i]) }

  predicate AllDigit(s: string) { forall i :: 0 <= i < |s| ==> IsDigit(s[i]) }

  lemma {:induction false} SkipSpacesAt(sp: string, u: string)
    requires AllSpace(sp) && (u != "" ==> !IsSpace(u[0]))
    ensures SkipSpaces(sp + u) == u
  {
    if sp == "" { assert sp + u == u; } else { assert (sp + u)[1..] == sp[1..] + u; SkipSpacesAt(sp[1..], u); }
  }

  lemma {:induction false} SkipDigitsAt(dg: string, u: string)
    requires AllDigit(dg) && (u != "" ==> !IsDigit(u[0]))
    ensures SkipDigits(dg + u) == u
  {
    if dg == "" { assert dg + u == u; } else { assert (dg + u)[1..] == dg[1..] + u; SkipDigitsAt(dg[1..], u); }
  }

  lemma {:induction false} SpacesSkipped(s: string) returns (sp: string)
    ensures s == sp + SkipSpaces(s) && AllSpace(sp)
  {
    if s != "" && IsSpace(s[0]) { sp := SpacesSkipped(s[1..]); sp := [s[0]] + sp; } else { sp := ""; }
  }

  lemma {:induction false} DigitsSkipped(s: string) returns (dg: string)
    ensures s == dg + SkipDigits(s) && AllDigit(dg)
  {
    if s != "" && IsDigit(s[0]) { dg := DigitsSkipped(s[1..]); dg := [s[0]] + dg; } else { dg := ""; }
  }

  /** A text the expression matches from end to end. */
  predicate Connections(m: string) { MatchConnections(m) == Some("") }

  lemma MatchAt(sp: string, dg: string, rest: string)
    requires sp != "" && AllSpace(sp) && dg != "" && AllDigit(dg)
    ensures MatchConnections(CONNECTIONS + (sp + (dg + (";" + rest)))) == Some(rest)
  {
    var s3 := ";" + rest;
    var s2 := dg + s3;
    ExpectAt(CONNECTIONS, sp + s2);
    SkipSpacesAt(sp, s2);
    SkipDigitsAt(dg, s3);
    ExpectAt(";", rest);
  }

  lemma MatchParts(s: string) returns (sp: string, dg: string)
    requires MatchConnections(s).Some?
    ensures sp != "" && AllSpace(sp) && dg != "" && AllDigit(dg)
    ensures s == CONNECTIONS + (sp + (dg + (";" + MatchConnections(s).value)))
  {
    var s1 := Expect(CONNECTIONS, s).value;
    sp := SpacesSkipped(s1);
    dg := DigitsSkipped(SkipSpaces(s1));
    var s3 := SkipDigits(SkipSpaces(s1));
    assert s == CONNECTIONS + s1 && s3 == ";" + MatchConnections(s).value;
  }

  /** Properties of a matched text that keep it apart from everything else the script rewrites. */
  predicate Apart(m: string) {
    |m| >= 2 && '#' !in m && 'm' !in m && m[0] == 'w' && 'w' !in m[1..] && m[|m| - 1] == ';' &&
      m[|m| - 2] != 'd'
  }

  lemma FreeOf(sp: string, dg: string, c: char)
    requires AllSpace(sp) && AllDigit(dg) && !IsSpace(c) && !IsDigit(c) && c != ';'
    ensures c !in sp + (dg + ";")
  {
  }

  lemma EndsInDigit(p: string, dg: string)
    requires dg != "" && AllDigit(dg)
    ensures |p + (dg + ";")| >= 2 && (p + (dg + ";"))[|p + (dg + ";")| - 1] == ';'
    ensures IsDigit((p + (dg + ";"))[|p + (dg + ";")| - 2])
  {
  }

  lemma PartsApart(sp: string, dg: string)
    requires AllSpace(sp) && dg != "" && AllDigit(dg)
    ensures Apart(CONNECTIONS + (sp + (dg + ";")))
  {
    var tail := sp + (dg + ";");
    var m := CONNECTIONS + tail;
    ConnectionsFacts();
    FreeOf(sp, dg, '#');
    FreeOf(sp, dg, 'm');
    FreeOf(sp, dg, 'w');
    EndsInDigit(CONNECTIONS + sp, dg);
    Associate(CONNECTIONS, sp, dg + ";");
    assert m[1..] == CONNECTIONS[1..] + tail && m[0] == CONNECTIONS[0];
  }

  lemma ConnectionsFacts()
    ensures '#' !in CONNECTIONS && 'm' !in CONNECTIONS && '\n' !in CONNECTIONS
    ensures |CONNECTIONS| == 18 && CONNECTIONS[0] == 'w' && 'w' !in CONNECTIONS[1..]
  {
    assert CONNECTIONS[1..] == "orker_connections";
  }

  lemma MatchSplit(s: string) returns (m: string, rest: string)
    requires MatchConnections(s).Some?
    ensures s == m + rest && MatchConnections(s) == Some(rest) && Connections(m) && Apart(m)
  {
    rest := MatchConnections(s).value;
    var sp, dg := MatchParts(s);
    m := CONNECTIONS + (sp + (dg + ";"));
    PartsApart(sp, dg);
    MatchAt(sp, dg, "");
    assert ";" + "" == ";";
    PartsTogether(CONNECTIONS, sp, dg, rest);
  }

  lemma PartsTogether(c: string, sp: string, dg: string, rest: string)
    ensures c + (sp + (dg + ";")) + rest == c + (sp + (dg + (";" + rest)))
  {
    Associate(dg, ";", rest);
    Associate(sp, dg + ";", rest);
    Associate(c, sp + (dg + ";"), rest);
  }

  lemma MatchExtend(m: string, rest: string)
    requires Connections(m)
    ensures MatchConnections(m + rest) == Some(rest)
  {
    var sp, dg := MatchParts(m);
    assert ";" + "" == ";";
    PartsTogether(CONNECTIONS, sp, dg, rest);
    MatchAt(sp, dg, rest);
  }

  lemma TunedMatches()
    ensures Connections(TUNED) && Apart(TUNED)
  {
    MatchAt(" ", "8192", "");
    assert ";" + "" == ";";
    assert TUNED == CONNECTIONS + (" " + ("8192" + ";"));
    PartsApart(" ", "8192");
  }

  lemma MatchStart(s: string)
    requires MatchConnections(s).Some?
    ensures s != "" && s[0] == 'w'
  {
    assert CONNECTIONS[0] == s[0];
  }

  // ----- one-line facts about tuning -----

  lemma TunedHit(m: string, rest: string)
    requires Connections(m)
    ensures Retune(m + rest) == Some(TUNED + rest)
  {
    MatchExtend(m, rest);
  }

  lemma TunedMiss(s: string)
    requires s != "" && MatchConnections(s) == None
    ensures Tuned(s) == [s[0]] + Tuned(s[1..]) && Retune(s).Some? == Retune(s[1..]).Some?
  {
    assert s == [s[0]] + s[1..];
  }

  lemma {:induction false} TunedSkip(p: string, t: string)
    requires 'w' !in p
    ensures Tuned(p + t) == p + Tuned(t) && Retune(p + t).Some? == Retune(t).Some?
  {
    hide *;
    if p == "" {
      assert p + t == t;
    } else {
      assert (p + t)[0] == p[0] && p[0] in p && (p + t)[1..] == p[1..] + t;
      if MatchConnections(p + t).Some? { MatchStart(p + t); }
      TunedMiss(p + t);
      TunedSkip(p[1..], t);
      assert p == [p[0]] + p[1..];
    }
  }

  lemma NothingTuned(s: string)
    requires 'w' !in s
    ensures Retune(s) == None && Tuned(s) == s
  {
    assert s + "" == s;
    if MatchConnections("").Some? { MatchStart(""); }
    TunedSkip(s, "");
  }

  lemma TunedStart(s: string)
    requires MatchConnections(s).Some?
    ensures Tuned(s) != "" && Tuned(s)[0] == 'w'
  {
    assert TUNED[0] == 'w';
  }

  /** A prefix without `w` of the tuned text was there before. */
  lemma {:induction false} TunedLead(p: string, s: string)
    requires 'w' !in p && p <= Tuned(s)
    ensures p <= s && Tuned(s) == p + Tuned(s[|p|..])
  {
    if p != "" {
      assert p[0] == Tuned(s)[0] && p[0] in p;
      if MatchConnections(s).Some? { TunedStart(s); }
      assert s != "";
      TunedMiss(s);
      assert Tuned(s)[1..] == Tuned(s[1..]);
      TunedLead(p[1..], s[1..]);
      assert p == [p[0]] + p[1..] && s == [s[0]] + s[1..] && s[1..][|p[1..]|..] == s[|p|..];
    }
  }

  /** Tuning makes no new match at a position it passed over. */
  lemma NoNewMatch(c: char, t: string)
    requires MatchConnections([c] + Tuned(t)).Some?
    ensures MatchConnections([c] + t).Some?
  {
    hide *;
    var u := [c] + Tuned(t);
    var m, rest := MatchSplit(u);
    var tail := m[1..];
    assert m == [c] + tail && tail + rest == u[1..] == Tuned(t);
    TunedLead(tail, t);
    assert t == tail + t[|tail|..];
    Associate([c], tail, t[|tail|..]);
    MatchExtend(m, t[|tail|..]);
  }

  lemma {:induction false} TunedTwice(s: string)
    ensures Tuned(Tuned(s)) == Tuned(s) && Retune(Tuned(s)).Some? == Retune(s).Some?
  {
    if MatchConnections(s).Some? {
      TunedMatches();
      TunedHit(TUNED, MatchConnections(s).value);
    } else if s != "" {
      TunedTwice(s[1..]);
      TunedMiss(s);
      assert s == [s[0]] + s[1..];
      var u := [s[0]] + Tuned(s[1..]);
      assert u[1..] == Tuned(s[1..]);
      if MatchConnections(u).Some? { NoNewMatch(s[0], s[1..]); }
      TunedMiss(u);
    }
  }

  // ----- tuning and uncommenting do not interfere -----

  lemma CommentFacts()
    ensures COMMENTED[0] == '#' && ENABLED[0] == 'm' && COMMENTED == "# " + ENABLED && '#' !in ENABLED &&
            'w' !in ENABLED
    ensures 'w' !in COMMENTED && '\n' !in COMMENTED && |COMMENTED| == 18 && |ENABLED| == 16
  {
  }

  /** Uncommenting makes no new match. */
  lemma NoUncommentedMatch(s: string)
    requires MatchConnections(Uncomment(s)).Some?
    ensures MatchConnections(s).Some?
  {
    CommentFacts();
    var m, rest := MatchSplit(Uncomment(s));
    ReplaceLead(m, s, COMMENTED, ENABLED);
    assert s == m + s[|m|..];
    MatchExtend(m, s[|m|..]);
  }

  /** Tuning makes no new comment. */
  lemma NoTunedComment(s: string)
    requires COMMENTED <= Tuned(s)
    ensures COMMENTED <= s
  {
    CommentFacts();
    TunedLead(COMMENTED, s);
  }

  lemma CommuteAtComment(t: string)
    requires Tuned(Uncomment(t)) == Uncomment(Tuned(t)) && Retune(Uncomment(t)).Some? == Retune(t).Some?
    ensures Tuned(Uncomment(COMMENTED + t)) == Uncomment(Tuned(COMMENTED + t))
    ensures Retune(Uncomment(COMMENTED + t)).Some? == Retune(COMMENTED + t).Some?
  {
    CommentFacts();
    ReplaceHit(t, COMMENTED, ENABLED);
    TunedSkip(ENABLED, Uncomment(t));
    TunedSkip(COMMENTED, t);
    ReplaceHit(Tuned(t), COMMENTED, ENABLED);
  }

  lemma CommuteAtMatch(m: string, rest: string)
    requires Connections(m) && Apart(m)
    ensures Tuned(Uncomment(m + rest)) == Uncomment(Tuned(m + rest))
    ensures Retune(Uncomment(m + rest)).Some? == Retune(m + rest).Some?
  {
    CommentFacts();
    TunedMatches();
    ReplaceSkip(m, rest, COMMENTED, ENABLED);
    ReplaceSkip(TUNED, rest, COMMENTED, ENABLED);
    TunedHit(m, rest);
    TunedHit(m, Uncomment(rest));
  }

  lemma CommuteElsewhere(s: string)
    requires s != "" && !(COMMENTED <= s) && MatchConnections(s) == None
    requires Tuned(Uncomment(s[1..])) == Uncomment(Tuned(s[1..])) &&
             Retune(Uncomment(s[1..])).Some? == Retune(s[1..]).Some?
    ensures Tuned(Uncomment(s)) == Uncomment(Tuned(s)) && Retune(Uncomment(s)).Some? == Retune(s).Some?
  {
    TunedMiss(s);
    ReplaceMiss(s, COMMENTED, ENABLED);
    if MatchConnections(Uncomment(s)).Some? { NoUncommentedMatch(s); }
    TunedMiss(Uncomment(s));
    assert Uncomment(s)[1..] == Uncomment(s[1..]) && Tuned(s)[1..] == Tuned(s[1..]);
    if COMMENTED <= Tuned(s) { NoTunedComment(s); }
    ReplaceMiss(Tuned(s), COMMENTED, ENABLED);
  }

  lemma {:induction false} Commute(s: string)
    ensures Tuned(Uncomment(s)) == Uncomment(Tuned(s)) && Retune(Uncomment(s)).Some? == Retune(s).Some?
    decreases |s|
  {
    if s == "" {
      if MatchConnections(s).Some? { MatchStart(s); }
    } else if COMMENTED <= s {
      var t := s[|COMMENTED|..];
      assert s == COMMENTED + t && |t| < |s|;
      Commute(t);
      CommuteAtComment(t);
    } else if MatchConnections(s).Some? {
      var m, rest := MatchSplit(s);
      CommuteAtMatch(m, rest);
    } else {
      Commute(s[1..]);
      CommuteElsewhere(s);
    }
  }

  // ----- counting hash signs -----

  function Hashes(s: string): nat {
    if s == "" then 0 else (if s[0] == '#' then 1 else 0) + Hashes(s[1..])
  }

  lemma {:induction false} HashesAppend(a: string, b: string)
    ensures Hashes(a + b) == Hashes(a) + Hashes(b)
  {
    if a == "" {
      assert a + b == b;
    } else {
      assert (a + b)[0] == a[0] && (a + b)[1..] == a[1..] + b;
      HashesAppend(a[1..], b);
    }
  }

  lemma {:induction false} HashFree(s: string)
    requires '#' !in s
    ensures Hashes(s) == 0
  {
    if s != "" { assert s[0] in s; HashFree(s[1..]); }
  }

  lemma HashesCons(c: char, t: string)
    ensures Hashes([c] + t) == (if c == '#' then 1 else 0) + Hashes(t)
  {
    assert ([c] + t)[1..] == t;
  }

  lemma {:induction false} TunedHashes(s: string)
    ensures Hashes(Tuned(s)) == Hashes(s)
  {
    if MatchConnections(s).Some? {
      TunedMatches();
      var m, rest := MatchSplit(s);
      HashesAppend(m, rest);
      HashesAppend(TUNED, rest);
      HashFree(m);
      HashFree(TUNED);
    } else if s != "" {
      TunedMiss(s);
      TunedHashes(s[1..]);
      HashesCons(s[0], Tuned(s[1..]));
    }
  }

  lemma OneHash(c: string, e: string)
    requires c == "# " + e && '#' !in e
    ensures Hashes(c) == 1 && Hashes(e) == 0
  {
    HashFree(e);
    assert c[0] == '#' && c[1] == ' ' && c[1..][1..] == e;
  }

  lemma CommentHash(t: string)
    ensures Hashes(COMMENTED + t) == 1 + Hashes(t) && Hashes(ENABLED + t) == Hashes(t)
  {
    hide *;
    CommentFacts();
    OneHash(COMMENTED, ENABLED);
    HashesAppend(COMMENTED, t);
    HashesAppend(ENABLED, t);
  }

  /** Uncommenting removes hash signs, and leaves a text alone exactly when it removes none. */
  lemma {:induction false} UncommentHashes(s: string)
    ensures Hashes(Uncomment(s)) <= Hashes(s)
    ensures Uncomment(s) == s <==> Hashes(Uncomment(s)) == Hashes(s)
    decreases |s|
  {
    if COMMENTED <= s {
      CommentFacts();
      var t := s[|COMMENTED|..];
      assert s == COMMENTED + t;
      ReplaceHit(t, COMMENTED, ENABLED);
      UncommentHashes(t);
      CommentHash(t);
      CommentHash(Uncomment(t));
    } else if s != "" {
      ReplaceMiss(s, COMMENTED, ENABLED);
      UncommentHashes(s[1..]);
      HashesCons(s[0], Uncomment(s[1..]));
      SameTail(s, Uncomment(s), Uncomment(s[1..]));
    }
  }

  lemma SameTail(s: string, r: string, t: string)
    requires s != "" && r == [s[0]] + t
    ensures r == s <==> t == s[1..]
  {
    assert r[1..] == t && s == [s[0]] + s[1..];
  }

  // ----- uncommenting twice -----

  const TWICE := "# # multi_accept on;"

  lemma TwiceFacts()
    ensures TWICE == "# " + COMMENTED && |TWICE| == 20 && TWICE[0] == '#' && COMMENTED[2] == 'm' && TWICE[2] == '#'
    ensures ENABLED == "m" + ENABLED[1..] && 'm' !in ENABLED[1..]
  {
    assert ENABLED[1..] == "ulti_accept on;";
  }

  lemma CommentUncovered(u: string)
    ensures " " + ENABLED <= Uncomment(" " + (COMMENTED + u))
  {
    CommentFacts();
    ReplaceSkip(" ", COMMENTED + u, COMMENTED, ENABLED);
    ReplaceHit(u, COMMENTED, ENABLED);
    Associate(" ", ENABLED, Uncomment(u));
  }

  lemma SpaceBefore(x: string, t: string)
    ensures " " + x <= t <==> t != "" && t[0] == ' ' && x <= t[1..]
  {
    if " " + x <= t { assert (" " + x)[0] == t[0] && (" " + x)[1..] == x; }
    if t != "" && t[0] == ' ' && x <= t[1..] { assert t == " " + x + t[1..][|x|..]; }
  }

  /** Behind a character that begins no comment, a comment appears after uncommenting where there was a double one. */
  lemma CommentAppears(t: string)
    requires !(" " + ENABLED <= t)
    ensures " " + ENABLED <= Uncomment(t) <==> " " + COMMENTED <= t
  {
    SpaceBefore(ENABLED, Uncomment(t));
    SpaceBefore(ENABLED, t);
    SpaceBefore(COMMENTED, t);
    if " " + COMMENTED <= t {
      var u := t[|" " + COMMENTED|..];
      assert t == " " + COMMENTED + u;
      Associate(" ", COMMENTED, u);
      CommentUncovered(u);
    }
    if " " + ENABLED <= Uncomment(t) {
      CommentFacts();
      ReplaceLead(" ", t, COMMENTED, ENABLED);
      assert Uncomment(t)[1..] == Uncomment(t[1..]);
      EnabledAppears(t[1..]);
    }
  }

  lemma EnabledAppears(t: string)
    requires ENABLED <= Uncomment(t)
    ensures COMMENTED <= t || ENABLED <= t
  {
    CommentFacts();
    TwiceFacts();
    if !(COMMENTED <= t) {
      assert t != "";
      ReplaceMiss(t, COMMENTED, ENABLED);
      assert Uncomment(t)[1..] == Uncomment(t[1..]) && ENABLED[1..] <= Uncomment(t)[1..];
      ReplaceLead(ENABLED[1..], t[1..], COMMENTED, ENABLED);
      assert t[0] == Uncomment(t)[0] == 'm' && t == "m" + t[1..];
    }
  }

  lemma HashPrefix(x: string, c: char, t: string)
    ensures "#" + x <= [c] + t <==> c == '#' && x <= t
  {
    if "#" + x <= [c] + t {
      assert ("#" + x)[0] == ([c] + t)[0] && ([c] + t)[1..] == t && ("#" + x)[1..] == x;
    }
    if c == '#' && x <= t { assert [c] + t == "#" + x + t[|x|..]; }
  }

  lemma DoubleHere(s: string)
    requires s != "" && !(COMMENTED <= s)
    ensures COMMENTED <= [s[0]] + Uncomment(s[1..]) <==> TWICE <= s
  {
    hide *;
    CommentFacts();
    TwiceFacts();
    var c, t := s[0], s[1..];
    assert s == [c] + t;
    assert COMMENTED == "#" + (" " + ENABLED) && TWICE == "#" + (" " + COMMENTED);
    HashPrefix(" " + ENABLED, c, t);
    HashPrefix(" " + COMMENTED, c, t);
    HashPrefix(" " + ENABLED, c, Uncomment(t));
    if c == '#' { CommentAppears(t); }
  }

  lemma ContainsCons(c: char, t: string, x: string)
    requires x != ""
    ensures Contains([c] + t, x) <==> x <= [c] + t || Contains(t, x)
  {
    assert ([c] + t)[1..] == t;
  }

  lemma {:induction false} DoubleComments(s: string)
    ensures Contains(Uncomment(s), COMMENTED) <==> Contains(s, TWICE)
    decreases |s|
  {
    CommentFacts();
    TwiceFacts();
    if s == "" {
    } else if COMMENTED <= s {
      var t := s[|COMMENTED|..];
      assert s == COMMENTED + t == "#" + ((" " + ENABLED) + t);
      ReplaceHit(t, COMMENTED, ENABLED);
      ContainsSkip(ENABLED, Uncomment(t), COMMENTED);
      DoubleComments(t);
      assert !(TWICE <= s) by { assert s[2] == 'm'; }
      ContainsCons('#', (" " + ENABLED) + t, TWICE);
      ContainsSkip(" " + ENABLED, t, TWICE);
    } else {
      ReplaceMiss(s, COMMENTED, ENABLED);
      DoubleHere(s);
      DoubleComments(s[1..]);
      ContainsCons(s[0], Uncomment(s[1..]), COMMENTED);
      ContainsCons(s[0], s[1..], TWICE);
      assert s == [s[0]] + s[1..];
    }
  }

  /** Uncommenting is settled after one pass exactly when no comment is commented out once more. */
  lemma UncommentTwice(s: string)
    ensures Uncomment(Uncomment(s)) == Uncomment(s) <==> !Contains(s, TWICE)
  {
    CommentFacts();
    DoubleComments(s);
    ReplaceNothing(Uncomment(s), COMMENTED, ENABLED);
  }
}
