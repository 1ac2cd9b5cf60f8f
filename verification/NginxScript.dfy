/** The tuning script on the text itself, an ASCII one, as a chain of guarded searches and replacements. */
module NginxScript {
  import opened Text
  import opened Rewriting
  import opened Matching
  import opened Tuning
  import opened Nginx
  import opened NginxEffect

  predicate Whole(lines: seq<string>) {
    lines != [] && forall i :: 0 <= i < |lines| ==> '\n' !in lines[i]
  }

  predicate Lines(text: string, lines: seq<string>) {
    text == Join(lines, "\n") && Whole(lines)
  }

  lemma SplitLines(text: string)
    ensures Lines(text, Split(text, '\n'))
  {
    JoinSplit(text, '\n');
  }

  lemma LinesSplit(text: string, lines: seq<string>)
    requires Lines(text, lines)
    ensures Split(text, '\n') == lines
  {
    SplitJoin(lines, '\n');
  }

  lemma JoinCons(l: string, more: seq<string>)
    requires more != []
    ensures Join([l] + more, "\n") == l + "\n" + Join(more, "\n")
  {
    assert ([l] + more)[1..] == more;
  }

  lemma {:induction false} JoinUnlines(a: seq<string>, b: seq<string>)
    requires b != []
    ensures Join(a + b, "\n") == Unlines(a) + Join(b, "\n")
  {
    if a == [] {
      assert a + b == b;
    } else {
      var init, last := a[..|a| - 1], a[|a| - 1];
      JoinUnlines(init, [last] + b);
      JoinCons(last, b);
      assert a + b == init + ([last] + b);
      Associate(Unlines(init), last + "\n", Join(b, "\n"));
      Associate(Unlines(init), last, "\n");
    }
  }

  // ----- each replacement is a stage on lines -----

  predicate NextAre(more: seq<string>, next: seq<string>) {
    |more| > |next| && more[..|next|] == next
  }

  /** A text that begins with a whole line has it as its first line. */
  lemma NextFound(more: seq<string>, x: string)
    requires Whole(more) && '\n' !in x && x + "\n" <= Join(more, "\n")
    ensures |more| > 1 && more[0] == x
  {
    if |more| == 1 {
      PrefixChars(x + "\n", more[0], '\n');
    } else {
      assert more == [more[0]] + more[1..];
      JoinCons(more[0], more[1..]);
      assert x + "\n" + "" == x + "\n";
      LineEnd(more[0], Join(more[1..], "\n"), x, "");
    }
  }

  lemma NextLines(more: seq<string>, next: seq<string>)
    requires Whole(more) && |next| <= 1 && (next != [] ==> '\n' !in next[0])
    ensures Unlines(next) <= Join(more, "\n") <==> NextAre(more, next)
    ensures NextAre(more, next) ==> Join(more, "\n") == Unlines(next) + Join(more[|next|..], "\n")
  {
    if NextAre(more, next) {
      assert more == next + more[|next|..];
      JoinUnlines(next, more[|next|..]);
    }
    if next != [] && Unlines(next) <= Join(more, "\n") {
      assert Unlines(next) == next[0] + "\n";
      NextFound(more, next[0]);
    }
  }

  lemma HereNext(lines: seq<string>, x: string, next: seq<string>)
    requires |lines| > 1
    ensures InsertHere(lines, x, next) <==> EndsWith(lines[0], x) && NextAre(lines[1..], next)
  {
    if |lines| > 1 + |next| { assert lines[1..1 + |next|] == lines[1..][..|next|]; }
  }

  /** The text a first replacement gives at a hit. */
  lemma InsertedText(l: string, x: string, next: seq<string>, added: seq<string>, tail: seq<string>)
    requires EndsWith(l, x) && tail != []
    ensures l[..|l| - |x|] + ((x + "\n" + Unlines(next) + Unlines(added)) + Join(tail, "\n")) ==
            Join([l] + next + added + tail, "\n")
  {
    var n, w, t := Unlines(next), Unlines(added), Join(tail, "\n");
    JoinUnlines([l] + next + added, tail);
    UnlinesAppend([l] + next, added);
    UnlinesAppend([l], next);
    assert Unlines([l]) == "" + l + "\n" == l + "\n";
    assert l == l[..|l| - |x|] + x;
    assert l[..|l| - |x|] + ((x + "\n" + n + w) + t) == l + "\n" + n + w + t;
  }

  lemma HitLines(lines: seq<string>, next: seq<string>, added: seq<string>)
    requires |lines| > 1 && NextAre(lines[1..], next)
    ensures lines[..1 + |next|] + added + lines[1 + |next|..] == [lines[0]] + next + added + lines[1..][|next|..]
  {
    assert lines[..1 + |next|] == [lines[0]] + lines[1..][..|next|];
  }

  lemma {:induction false} InsertText(lines: seq<string>, x: string, next: seq<string>, added: seq<string>)
    requires Whole(lines) && x != "" && '\n' !in x && |next| <= 1 && (next != [] ==> '\n' !in next[0])
    ensures ReplaceFirst(Join(lines, "\n"), x + "\n" + Unlines(next), x + "\n" + Unlines(next) + Unlines(added)) ==
            Join(Insert(lines, x, next, added), "\n")
  {
    hide ReplaceFirst, Unlines, EndsWith, NextAre;
    var what, into := x + "\n" + Unlines(next), x + "\n" + Unlines(next) + Unlines(added);
    var l, more := lines[0], lines[1..];
    assert lines == [l] + more;
    if more == [] {
      assert what[|x|] == '\n';
      ReplaceFirstAbsent(l, what, into, '\n');
      assert Insert(lines, x, next, added) == lines;
    } else {
      var rest := Join(more, "\n");
      JoinCons(l, more);
      ReplaceFirstLine(l, rest, x, Unlines(next), into);
      NextLines(more, next);
      HereNext(lines, x, next);
      if InsertHere(lines, x, next) {
        var tail := more[|next|..];
        assert rest[|Unlines(next)|..] == Join(tail, "\n");
        InsertedText(l, x, next, added, tail);
        HitLines(lines, next, added);
      } else {
        InsertText(more, x, next, added);
        InsertKeeps(more, x, next, added);
        JoinCons(l, Insert(more, x, next, added));
        Associate(l, "\n", Join(Insert(more, x, next, added), "\n"));
      }
    }
  }

  lemma InsertKeeps(lines: seq<string>, x: string, next: seq<string>, added: seq<string>)
    requires lines != []
    ensures Insert(lines, x, next, added) != []
  {
  }

  // ----- a match may reach over line breaks: tuning a text that is put together -----

  /** A match in the first part is the first match of the whole. */
  lemma {:induction false} TunedFront(a: string, b: string)
    requires Retune(a).Some?
    ensures Retune(a + b).Some? && Tuned(a + b) == Tuned(a) + b
  {
    if MatchConnections(a).Some? {
      var m, r := MatchSplit(a);
      TunedHit(m, r);
      TunedHit(m, r + b);
      Associate(m, r, b);
      Associate(TUNED, r, b);
    } else {
      if MatchConnections("").Some? { MatchStart(""); }
      var c := a + b;
      assert c[0] == a[0] && c[1..] == a[1..] + b;
      if MatchConnections(c).Some? { MatchReaches(a, b); }
      TunedMiss(a);
      TunedMiss(c);
      TunedFront(a[1..], b);
      Associate([a[0]], Tuned(a[1..]), b);
    }
  }

  /** A match that begins with a text ends inside it, where it is a match of that text, or takes in all of it. */
  lemma MatchCut(a: string, b: string) returns (m: string)
    requires MatchConnections(a + b).Some?
    ensures m <= a + b && Connections(m) && Apart(m)
    ensures MatchConnections(a) == None ==> |m| > |a| && a == m[..|a|] && (a != "" ==> a[1..] <= m[1..])
  {
    var rest;
    m, rest := MatchSplit(a + b);
    if |m| <= |a| {
      assert m == (a + b)[..|m|] == a[..|m|] && a == m + a[|m|..];
      MatchExtend(m, a[|m|..]);
    } else {
      assert m[..|a|] == (a + b)[..|a|] == a;
      if a != "" { assert m[1..][..|a| - 1] == a[1..]; }
    }
  }

  lemma MatchReaches(a: string, b: string)
    requires MatchConnections(a + b).Some? && a != "" && Retune(a[1..]).Some?
    ensures MatchConnections(a).Some?
  {
    var m := MatchCut(a, b);
    RetuneNeedsW(a[1..]);
    NoPrefix(a[1..], m[1..], 'w');
  }

  lemma RetuneNeedsW(s: string)
    requires Retune(s).Some?
    ensures 'w' in s
  {
    if 'w' !in s { NothingTuned(s); }
  }

  lemma NoPrefix(a: string, b: string, c: char)
    requires c in a && c !in b
    ensures !(a <= b)
  {
    if a <= b { PrefixChars(a, b, c); }
  }

  predicate EndsLine(a: string) { a != "" && a[|a| - 1] == '\n' }

  lemma EndsLineTail(a: string)
    requires EndsLine(a)
    ensures a[1..] == "" || EndsLine(a[1..])
  {
  }

  lemma NoneInTail(a: string)
    requires a != "" && Retune(a) == None
    ensures MatchConnections(a) == None && Retune(a[1..]) == None
  {
  }

  /** In a settled text a match is the settled one, so it does not reach over the end of a line. */
  lemma {:induction false} SettledBack(a: string, b: string)
    requires (a == "" || EndsLine(a)) && Retune(a) == None && Tuned(a + b) == a + b
    ensures Tuned(b) == b
  {
    hide *;
    if a == "" {
      assert a + b == b;
    } else {
      NoneInTail(a);
      if MatchConnections(a + b).Some? { SettledMatch(a, b); }
      TunedMiss(a + b);
      assert (a + b)[1..] == a[1..] + b;
      EndsLineTail(a);
      SettledBack(a[1..], b);
    }
  }

  lemma SettledMatch(a: string, b: string)
    requires EndsLine(a) && MatchConnections(a + b).Some? && Tuned(a + b) == a + b
    ensures MatchConnections(a).Some?
  {
    var m, rest := MatchSplit(a + b);
    TunedHit(m, rest);
    assert |m| == |TUNED| && m == (m + rest)[..|m|] == (TUNED + rest)[..|m|] == TUNED;
    if |m| <= |a| {
      assert m == (a + b)[..|m|] == a[..|m|] && a == m + a[|m|..];
      MatchExtend(m, a[|m|..]);
    } else {
      assert m[|a| - 1] == (a + b)[|a| - 1] == '\n';
      TunedBreakless();
    }
  }

  lemma TunedBreakless()
    ensures '\n' !in TUNED
  {
  }

  /** Text whose first character other than white space is no digit: it completes no match. */
  predicate Steady(w: string) { SkipSpaces(w) != "" && !IsDigit(SkipSpaces(w)[0]) }

  lemma NoCrossing(a: string, w: string, b: string)
    requires EndsLine(a) && Steady(w) && MatchConnections(a + (w + b)).Some?
    ensures MatchConnections(a).Some?
  {
    var c := w + b;
    var m := MatchCut(a, c);
    if MatchConnections(a) == None {
      var sp, dg := MatchParts(m);
      CrossingDigit(a, c, m, sp, dg);
      SkipSpacesOver(w, b);
    }
  }

  /** A match that takes in a line break continues behind it with white space and a digit. */
  lemma CrossingDigit(a: string, c: string, m: string, sp: string, dg: string)
    requires EndsLine(a) && |a| < |m| && m <= a + c && AllSpace(sp) && AllDigit(dg) && dg != ""
    requires m == CONNECTIONS + (sp + (dg + (";" + "")))
    ensures SkipSpaces(c) != "" && IsDigit(SkipSpaces(c)[0])
  {
    var n := |CONNECTIONS| + |sp|;
    assert m[|a| - 1] == (a + c)[|a| - 1] == '\n';
    ConnectionsFacts();
    assert forall i :: n <= i < |m| ==> m[i] == (dg + ";")[i - n];
    assert forall i :: n <= i < |m| ==> m[i] != '\n';
    assert forall i :: 0 <= i < |CONNECTIONS| ==> m[i] == CONNECTIONS[i];
    assert |CONNECTIONS| < |a| <= n;
    var left := sp[|a| - |CONNECTIONS|..];
    var tail := (a + c)[n..];
    assert AllSpace(left);
    assert c == left + tail by {
      assert c == (a + c)[|a|..];
      assert left == (a + c)[|a|..n];
    }
    assert tail[0] == (a + c)[n] == m[n] == dg[0];
    assert IsDigit(tail[0]);
    SkipSpacesAt(left, tail);
  }

  lemma {:induction false} InsertedBack(a: string, w: string, b: string)
    requires (a == "" || EndsLine(a)) && Retune(a) == None && Steady(w)
    ensures Tuned(a + (w + b)) == a + Tuned(w + b)
  {
    hide *;
    var c := w + b;
    if a == "" {
      assert a + c == c && a + Tuned(c) == Tuned(c);
    } else {
      NoneInTail(a);
      if MatchConnections(a + c).Some? { NoCrossing(a, w, b); }
      TunedMiss(a + c);
      assert (a + c)[1..] == a[1..] + c;
      EndsLineTail(a);
      InsertedBack(a[1..], w, b);
      assert a == [a[0]] + a[1..];
      Associate([a[0]], a[1..], Tuned(c));
    }
  }

  /** Lines added between two lines leave a settled text settled. */
  lemma InsertSettled(a: string, w: string, b: string)
    requires EndsLine(a) && 'w' !in w && Steady(w) && Tuned(a + b) == a + b
    ensures Tuned(a + w + b) == a + w + b
  {
    hide *;
    Associate(a, w, b);
    TunedSkip(w, b);
    if Retune(a).Some? {
      TunedFront(a, b);
      assert a == (a + b)[..|a|] && |Tuned(a)| == |a| && Tuned(a) == (Tuned(a) + b)[..|a|];
      TunedFront(a, w + b);
    } else {
      SettledBack(a, b);
      InsertedBack(a, w, b);
    }
  }

  lemma UnlinesEnds(a: seq<string>)
    requires a != []
    ensures EndsLine(Unlines(a))
  {
  }

  lemma SettledInsert(lines: seq<string>, x: string, next: seq<string>, added: seq<string>)
    requires Tuned(Join(lines, "\n")) == Join(lines, "\n") && 'w' !in Unlines(added) && Steady(Unlines(added))
    ensures var r := Join(Insert(lines, x, next, added), "\n"); Tuned(r) == r
  {
    hide *;
    var a, b := InsertSplits(lines, x, next, added);
    if Insertable(lines, x, next) {
      JoinUnlines(a, b);
      JoinUnlines(a + added, b);
      UnlinesAppend(a, added);
      UnlinesEnds(a);
      InsertSettled(Unlines(a), Unlines(added), Join(b, "\n"));
    }
  }

  /** A line of a settled text is settled. */
  lemma {:induction false} SettledLines(lines: seq<string>)
    requires Whole(lines) && Tuned(Join(lines, "\n")) == Join(lines, "\n")
    ensures TuneLines(lines) == lines
  {
    var l, more := lines[0], lines[1..];
    assert lines == [l] + more;
    TuneCons(l, more);
    if more != [] {
      var rest := Join(more, "\n");
      JoinCons(l, more);
      if Retunable(l) {
        Associate(l, "\n", rest);
        TunedFront(l, "\n" + rest);
        assert l == (l + ("\n" + rest))[..|l|] && |Tuned(l)| == |l|;
        assert Tuned(l) == (Tuned(l) + ("\n" + rest))[..|l|];
      } else {
        LineUntuned(l);
        SettledBack(l + "\n", rest);
        SettledLines(more);
      }
    } else {
      assert Join(lines, "\n") == l;
    }
  }

  lemma {:induction false} LineUntuned(l: string)
    requires Retune(l) == None
    ensures Retune(l + "\n") == None
  {
    var s := l + "\n";
    if MatchConnections(s).Some? { MatchBeforeBreak(l); }
    if l == "" {
      NothingTuned("\n");
    } else {
      assert s[0] == l[0] && s[1..] == l[1..] + "\n";
      LineUntuned(l[1..]);
      TunedMiss(s);
    }
  }

  lemma MatchBeforeBreak(l: string)
    requires MatchConnections(l + "\n").Some?
    ensures MatchConnections(l).Some?
  {
    var m := MatchCut(l, "\n");
    assert MatchConnections(l) == None ==> m == l + "\n";
    assert m[|m| - 1] == ';' && (l + "\n")[|l|] == '\n';
  }

  lemma {:induction false} UncommentText(lines: seq<string>)
    requires Whole(lines)
    ensures Uncomment(Join(lines, "\n")) == Join(UncommentLines(lines), "\n")
  {
    var l, more := lines[0], lines[1..];
    assert lines == [l] + more;
    if more == [] {
      assert UncommentLines(lines) == [Uncomment(l)];
    } else {
      CommentFacts();
      JoinCons(l, more);
      ReplaceLine(l, Join(more, "\n"), COMMENTED, ENABLED);
      UncommentText(more);
      assert UncommentLines(lines) == [Uncomment(l)] + UncommentLines(more);
      JoinCons(Uncomment(l), UncommentLines(more));
      Associate(Uncomment(l), "\n", Join(UncommentLines(more), "\n"));
    }
  }

  // ----- lines stay lines -----

  lemma InsertWhole(lines: seq<string>, x: string, next: seq<string>, added: seq<string>)
    requires Whole(lines) && forall i :: 0 <= i < |added| ==> '\n' !in added[i]
    ensures Whole(Insert(lines, x, next, added))
  {
    var a, b := InsertSplits(lines, x, next, added);
    assert forall i :: 0 <= i < |a| ==> lines[i] == a[i];
    assert forall i :: 0 <= i < |b| ==> lines[|a| + i] == b[i];
  }

  lemma {:induction false} UncommentBreakFree(s: string)
    requires '\n' !in s
    ensures '\n' !in Uncomment(s)
    decreases |s|
  {
    CommentFacts();
    if COMMENTED <= s {
      UncommentBreakFree(s[|COMMENTED|..]);
      assert '\n' !in ENABLED;
    } else if s != "" {
      ReplaceMiss(s, COMMENTED, ENABLED);
      UncommentBreakFree(s[1..]);
    }
  }

  lemma AddedWhole()
    ensures '\n' !in RLIMIT_LINE && '\n' !in EPOLL_LINE && '\n' !in TIMEOUT_LINE && '\n' !in REQUESTS_LINE
    ensures '\n' !in PID && '\n' !in EVENTS && '\n' !in BASIC && '\n' !in BASIC_NEXT
  {
  }

  lemma TimeoutLine(lines: seq<string>)
    requires Whole(lines) && Any(lines, IsTimeout)
    ensures '\n' !in FirstLine(lines, IsTimeout) && FirstLine(lines, IsTimeout) != ""
  {
    FirstLineIn(lines, IsTimeout);
  }

  // ----- searching -----

  lemma {:induction false} SearchOver(l: string, rest: string, p: string -> bool, atStart: bool)
    requires '\n' !in l && l != ""
    ensures SearchFrom(l + rest, p, atStart) <==> (atStart && p(l + rest)) || SearchFrom(rest, p, false)
  {
    assert (l + rest)[0] == l[0] && l[0] in l && (l + rest)[1..] == l[1..] + rest;
    if |l| == 1 {
      assert l[1..] + rest == rest;
    } else {
      SearchOver(l[1..], rest, p, false);
    }
  }

  lemma SearchLine(l: string, rest: string, p: string -> bool)
    requires '\n' !in l
    ensures Search(l + "\n" + rest, p) <==> p(l + "\n" + rest) || Search(rest, p)
  {
    var s := "\n" + rest;
    assert s[0] == '\n' && s[1..] == rest && l + s == l + "\n" + rest;
    if l == "" { assert l + s == s; } else { SearchOver(l, s, p, true); }
  }

  lemma SearchLast(l: string, p: string -> bool)
    requires '\n' !in l
    ensures Search(l, p) <==> p(l)
  {
    if l != "" {
      assert l + "" == l;
      SearchOver(l, "", p, true);
    }
  }

  /** A search for `use epoll;` is one on the lines. */
  lemma {:induction false} SearchEpoll(lines: seq<string>)
    requires Whole(lines)
    ensures Search(Join(lines, "\n"), IsEpoll) <==> HasEpoll(lines)
  {
    hide IsEpoll;
    var l, more := lines[0], lines[1..];
    if more == [] {
      SearchLast(l, IsEpoll);
    } else {
      assert lines == [l] + more;
      JoinCons(l, more);
      SearchLine(l, Join(more, "\n"), IsEpoll);
      SearchEpoll(more);
    }
  }

  /** An expression whose match at the start of a line depends on that line alone. */
  ghost predicate InLineOnly(p: string -> bool) {
    forall l, rest: string :: p(l + "\n" + rest) <==> p(l)
  }

  lemma {:induction false} SearchInLines(lines: seq<string>, p: string -> bool)
    requires Whole(lines) && InLineOnly(p)
    ensures Search(Join(lines, "\n"), p) <==> Any(lines, p)
  {
    var l, more := lines[0], lines[1..];
    AnyCons(lines, p);
    if more == [] {
      SearchLast(l, p);
    } else {
      assert lines == [l] + more;
      JoinCons(l, more);
      SearchLine(l, Join(more, "\n"), p);
      SearchInLines(more, p);
    }
  }

  lemma DirectiveOver(l: string, rest: string, word: string)
    requires '\n' !in word
    ensures Directive(l + "\n" + rest, word) <==> Directive(l, word)
  {
    var t := SkipBlanks(l);
    SkipBlanksOver(l, rest);
    PrefixOver(word, t, rest);
    if word <= t && |t| > |word| { assert (t + "\n" + rest)[|word|] == t[|word|]; }
  }

  lemma DirectivesInLine()
    ensures InLineOnly(IsRlimit) && InLineOnly(IsTimeout) && InLineOnly(IsRequests)
  {
    WordsBreakless();
    forall l, rest: string
      ensures IsRlimit(l + "\n" + rest) <==> IsRlimit(l)
      ensures IsTimeout(l + "\n" + rest) <==> IsTimeout(l)
      ensures IsRequests(l + "\n" + rest) <==> IsRequests(l)
    {
      DirectiveOver(l, rest, RLIMIT);
      DirectiveOver(l, rest, "keepalive_timeout");
      DirectiveOver(l, rest, "keepalive_requests");
    }
  }

  lemma WordsBreakless()
    ensures '\n' !in RLIMIT && '\n' !in "keepalive_timeout" && '\n' !in "keepalive_requests"
  {
  }

  // ----- tuning and the first stage do not interfere -----

  /** A character that is in no match. */
  predicate Alien(c: char) { c !in CONNECTIONS && !IsSpace(c) && !IsDigit(c) && c != ';' }

  lemma MatchFreeOf(m: string, c: char)
    requires Connections(m) && Alien(c)
    ensures c !in m
  {
    var sp, dg := MatchParts(m);
    assert ";" + "" == ";";
    FreeOf(sp, dg, c);
    assert m == CONNECTIONS + (sp + (dg + ";"));
  }

  lemma NoMatchBefore(c: char, t: string, x: string, into: string)
    requires x != "" && Alien(x[0]) && into != "" && into[0] == x[0]
    requires MatchConnections([c] + ReplaceFirst(t, x, into)).Some?
    ensures MatchConnections([c] + t).Some?
  {
    var r := ReplaceFirst(t, x, into);
    var m, rest := MatchSplit([c] + r);
    MatchFreeOf(m, x[0]);
    var tail := m[1..];
    assert m == [c] + tail && tail <= r by { assert ([c] + r)[1..] == r == tail + rest; }
    ReplaceFirstLead(tail, t, x, into);
    assert t == tail + t[|tail|..];
    Associate([c], tail, t[|tail|..]);
    MatchExtend(m, t[|tail|..]);
  }

  /** Text that tuning passes over. */
  ghost predicate Passed(y: string) { forall t: string :: Tuned(y + t) == y + Tuned(t) }

  /** A replacement that adds text which tuning passes over can be made before or after the tuning. */
  lemma {:induction false} ReplaceTuned(s: string, x: string, y: string)
    requires x != "" && Alien(x[0]) && 'w' !in x && Passed(y)
    ensures Tuned(ReplaceFirst(s, x, x + y)) == ReplaceFirst(Tuned(s), x, x + y)
  {
    hide MatchConnections, Alien, Retune, ReplaceFirst;
    if x <= s {
      var t := s[|x|..];
      assert s == x + t;
      ReplaceFirstHit(t, x, x + y);
      TunedSkip(x, t);
      ReplaceFirstHit(Tuned(t), x, x + y);
      Associate(x, y, t);
      TunedSkip(x, y + t);
      assert Tuned(y + t) == y + Tuned(t);
      Associate(x, y, Tuned(t));
    } else if MatchConnections(s).Some? {
      var m, r := MatchSplit(s);
      TunedMatches();
      MatchFreeOf(m, x[0]);
      MatchFreeOf(TUNED, x[0]);
      ReplaceFirstSkip(m, r, x, x + y);
      ReplaceFirstSkip(TUNED, r, x, x + y);
      TunedHitIs(m, r);
      TunedHitIs(m, ReplaceFirst(r, x, x + y));
    } else if s == "" {
      EmptyReplaced(x, x + y);
    } else {
      var c, t := s[0], s[1..];
      assert s == [c] + t;
      TunedMiss(s);
      ReplaceFirstMiss(s, x, x + y);
      if x <= Tuned(s) { TunedLead(x, s); }
      ReplaceFirstMiss(Tuned(s), x, x + y);
      assert Tuned(s)[1..] == Tuned(t);
      ReplaceTuned(t, x, y);
      var u := [c] + ReplaceFirst(t, x, x + y);
      assert u[1..] == ReplaceFirst(t, x, x + y);
      if MatchConnections(u).Some? { NoMatchBefore(c, t, x, x + y); }
      TunedMiss(u);
    }
  }

  lemma TunedHitIs(m: string, rest: string)
    requires Connections(m)
    ensures Tuned(m + rest) == TUNED + rest
  {
    TunedHit(m, rest);
  }

  lemma EmptyReplaced(x: string, into: string)
    requires x != ""
    ensures ReplaceFirst(Tuned(""), x, into) == Tuned(ReplaceFirst("", x, into))
  {
    NothingTuned("");
  }

  lemma PidAlien()
    ensures Alien((PID + "\n")[0]) && 'w' !in PID + "\n"
  {
  }

  lemma ConnectionsSeventh(s: string)
    requires MatchConnections(s).Some?
    ensures |s| > 7 && s[7] == CONNECTIONS[7]
  {
  }

  lemma LimitPassed()
    ensures Passed(RLIMIT_LINE + "\n")
  {
    RlimitLineParts();
    RlimitRestFree();
    var y := RLIMIT_REST + "\n";
    assert 'w' !in y;
    forall t: string ensures Tuned(RLIMIT_LINE + "\n" + t) == RLIMIT_LINE + "\n" + Tuned(t) {
      var s := RLIMIT_LINE + "\n" + t;
      assert s[0] == 'w' && s[1..] == y + t && s[7] == RLIMIT_REST[6];
      if MatchConnections(s).Some? { ConnectionsSeventh(s); }
      TunedMiss(s);
      TunedSkip(y, t);
      assert RLIMIT_LINE + "\n" == ['w'] + y;
      Associate(['w'], y, Tuned(t));
    }
  }

  /** White space, digits and a semicolon begin no directive. */
  predicate Filling(u: string) { forall i :: 0 <= i < |u| ==> IsSpace(u[i]) || IsDigit(u[i]) || u[i] == ';' }

  lemma {:induction false} FillingSkipped(u: string, rest: string)
    requires u != "" && Filling(u) && u[|u| - 1] == ';'
    ensures SkipBlanks(u + rest) != "" && SkipBlanks(u + rest)[0] != 'w'
  {
    assert (u + rest)[0] == u[0] && (u + rest)[1..] == u[1..] + rest;
    if IsBlank(u[0]) { FillingSkipped(u[1..], rest); }
  }

  lemma {:induction false} FillingSearched(u: string, rest: string, atStart: bool)
    requires u != "" && Filling(u) && u[|u| - 1] == ';'
    ensures SearchFrom(u + rest, IsRlimit, atStart) <==> SearchFrom(rest, IsRlimit, false)
  {
    FillingSkipped(u, rest);
    assert RLIMIT[0] == 'w';
    assert (u + rest)[0] == u[0] && (u + rest)[1..] == u[1..] + rest;
    if |u| == 1 {
      assert u[1..] + rest == rest;
    } else {
      FillingSearched(u[1..], rest, u[0] == '\n');
    }
  }

  lemma ConnectionsNotRlimit(rest: string)
    ensures !IsRlimit(CONNECTIONS + rest)
  {
    var s := CONNECTIONS + rest;
    assert s[0] == CONNECTIONS[0] && SkipBlanks(s) == s && s[7] == CONNECTIONS[7] != RLIMIT[7];
  }

  lemma MatchSearched(m: string, rest: string, atStart: bool)
    requires Connections(m)
    ensures SearchFrom(m + rest, IsRlimit, atStart) <==> SearchFrom(rest, IsRlimit, false)
  {
    hide SearchFrom, MatchConnections, IsRlimit;
    var sp, dg := MatchParts(m);
    var u := sp + (dg + (";" + ""));
    ConnectionsFacts();
    ConnectionsNotRlimit(u + rest);
    Associate(CONNECTIONS, u, rest);
    SearchOver(CONNECTIONS, u + rest, IsRlimit, atStart);
    FillingSearched(u, rest, false);
  }

  /** Tuning neither makes nor unmakes a line that sets the file limit. */
  lemma {:induction false} SearchTuned(s: string, atStart: bool)
    ensures SearchFrom(Tuned(s), IsRlimit, atStart) <==> SearchFrom(s, IsRlimit, atStart)
  {
    hide MatchConnections, IsRlimit, Retune;
    if MatchConnections(s).Some? {
      var m, rest := MatchSplit(s);
      TunedMatches();
      TunedHitIs(m, rest);
      MatchSearched(m, rest, atStart);
      MatchSearched(TUNED, rest, atStart);
    } else if s == "" {
      NothingTuned("");
    } else {
      TunedMiss(s);
      TunedRlimit(s);
      assert Tuned(s)[1..] == Tuned(s[1..]);
      SearchTuned(s[1..], s[0] == '\n');
    }
  }

  /** The first stage. */
  function LimitText(text: string): string {
    if Search(text, IsRlimit) then text else ReplaceFirst(text, PID + "\n", PID + "\n" + (RLIMIT_LINE + "\n"))
  }

  lemma LimitTuned(text: string)
    ensures Tuned(LimitText(text)) == LimitText(Tuned(text))
  {
    hide Tuned, SearchFrom, Alien;
    SearchTuned(text, true);
    PidAlien();
    LimitPassed();
    ReplaceTuned(text, PID + "\n", RLIMIT_LINE + "\n");
  }

  // ----- the script -----

  lemma LimitLines(text: string, lines: seq<string>)
    requires Lines(text, lines)
    ensures Lines(LimitText(text), LimitFiles(lines))
  {
    hide SearchFrom, IsRlimit, ReplaceFirst, Insert;
    AddedWhole();
    DirectivesInLine();
    SearchInLines(lines, IsRlimit);
    if !Search(text, IsRlimit) {
      InsertText(lines, PID, [], [RLIMIT_LINE]);
      InsertWhole(lines, PID, [], [RLIMIT_LINE]);
      LimitAddedText();
    }
  }

  lemma LimitAddedText()
    ensures PID + "\n" + Unlines([]) == PID + "\n"
    ensures PID + "\n" + Unlines([]) + Unlines([RLIMIT_LINE]) == PID + "\n" + (RLIMIT_LINE + "\n")
  {
    OneUnlined(RLIMIT_LINE);
    assert PID + "\n" + "" == PID + "\n";
  }

  lemma OneUnlined(l: string)
    ensures Unlines([l]) == l + "\n" && Unlines([]) == ""
  {
    assert [l][..0] == [] && "" + l == l;
  }

  lemma LimitLiterals()
    ensures PID + "\n" == "pid /run/nginx.pid;\n"
    ensures PID + "\n" + (RLIMIT_LINE + "\n") == "pid /run/nginx.pid;\nworker_rlimit_nofile 200000;\n"
  {
  }

  lemma LimitMeaning(text: string)
    ensures LimitSet(text, LimitText(text))
  {
    hide FirstReplaced, HasDirective, ReplaceFirst, Directive, SearchFrom;
    SearchDirective(text, IsRlimit, "worker_rlimit_nofile");
    LimitLiterals();
    ReplaceFirstMeaning(text, PID + "\n", PID + "\n" + (RLIMIT_LINE + "\n"));
  }

  method LimitFilesInText(text: string) returns (text': string)
    ensures text' == LimitText(text) && LimitSet(text, text')
  {
    LimitMeaning(text);
    hide *;
    LimitLiterals();
    text' := text;
    if !Search(text, IsRlimit) {
      text' := ReplaceFirst(text, "pid /run/nginx.pid;\n", "pid /run/nginx.pid;\nworker_rlimit_nofile 200000;\n");
    }
    LimitTextIs(text);
  }

  lemma LimitTextIs(text: string)
    ensures LimitText(text) ==
            if Search(text, IsRlimit) then text else ReplaceFirst(text, PID + "\n", PID + "\n" + (RLIMIT_LINE + "\n"))
  {
  }

  /** A replacement that adds the lines `added` behind the line ending `x` and the lines `next`. */
  method Insertion(text: string, what: string, into: string,
      ghost x: string, ghost next: seq<string>, ghost added: seq<string>, ghost lines: seq<string>)
    returns (text': string)
    requires Lines(text, lines) && x != "" && '\n' !in x && |next| <= 1 && (next != [] ==> '\n' !in next[0])
    requires forall i :: 0 <= i < |added| ==> '\n' !in added[i]
    requires what == x + "\n" + Unlines(next) && into == what + Unlines(added)
    ensures Lines(text', Insert(lines, x, next, added)) && FirstReplaced(text, what, into, text')
  {
    hide FirstReplaced;
    text' := ReplaceFirst(text, what, into);
    ReplaceFirstMeaning(text, what, into);
    InsertText(lines, x, next, added);
    InsertWhole(lines, x, next, added);
  }

  lemma EpollLiterals()
    ensures "events {\n" == EVENTS + "\n" + Unlines([])
    ensures "events {\n\tuse epoll;\n" == "events {\n" + Unlines([EPOLL_LINE])
  {
    OneUnlined(EPOLL_LINE);
    assert EVENTS + "\n" + "" == EVENTS + "\n";
  }

  method UseEpollInText(text: string, ghost lines: seq<string>) returns (text': string)
    requires Lines(text, lines)
    ensures Lines(text', UseEpoll(lines)) && EpollUsed(text, text')
  {
    SearchEpoll(lines);
    SearchUseEpoll(text);
    AddedWhole();
    EpollLiterals();
    hide FirstReplaced, Insert, Unlines, HasUseEpoll, HasEpoll, SearchFrom;
    text' := text;
    if !Search(text, IsEpoll) {
      text' := Insertion(text, "events {\n", "events {\n\tuse epoll;\n", EVENTS, [], [EPOLL_LINE], lines);
    }
  }

  lemma BasicLiterals()
    ensures "\t# Basic Settings\n\t##\n" == BASIC + "\n" + Unlines([BASIC_NEXT])
    ensures Unlines([TIMEOUT_LINE, REQUESTS_LINE]) == "\tkeepalive_timeout 15;\n" + "\tkeepalive_requests 1000;\n"
  {
    OneUnlined(BASIC_NEXT);
    OneUnlined(REQUESTS_LINE);
    OneUnlined(TIMEOUT_LINE);
    UnlinesAppend([TIMEOUT_LINE], [REQUESTS_LINE]);
    assert [TIMEOUT_LINE] + [REQUESTS_LINE] == [TIMEOUT_LINE, REQUESTS_LINE];
  }

  lemma RequestsLiterals(l: string)
    ensures l + "\n" == l + "\n" + Unlines([])
    ensures l + "\n\tkeepalive_requests 1000;\n" == l + "\n" + Unlines([REQUESTS_LINE])
  {
    OneUnlined(REQUESTS_LINE);
  }

  /** The line that the search for a time-out finds. */
  lemma {:induction false} FirstTimeout(lines: seq<string>) returns (a: string, b: string)
    requires Whole(lines) && Any(lines, IsTimeout)
    ensures DirectiveLine(Join(lines, "\n"), "keepalive_timeout", a, FirstLine(lines, IsTimeout), b)
  {
    hide Directive, BeginsDirective;
    var l, more := lines[0], lines[1..];
    var text, rest := Join(lines, "\n"), Join(more, "\n");
    assert lines == [l] + more;
    DirectiveMeaning(l, "keepalive_timeout");
    AnyCons(lines, IsTimeout);
    if more != [] { JoinCons(l, more); }
    if IsTimeout(l) {
      a, b := "", if more == [] then "" else "\n" + rest;
      assert text == a + l + b;
    } else {
      a, b := FirstTimeout(more);
      LaterLine(l, rest, a, FirstLine(more, IsTimeout), b);
      a := l + "\n" + a;
    }
  }

  lemma LaterLine(l: string, rest: string, a: string, found: string, b: string)
    requires '\n' !in l && !IsTimeout(l) && DirectiveLine(rest, "keepalive_timeout", a, found, b)
    ensures DirectiveLine(l + "\n" + rest, "keepalive_timeout", l + "\n" + a, found, b)
  {
    hide Directive, BeginsDirective;
    var text, front := l + "\n" + rest, l + "\n" + a;
    WordsBreakless();
    DirectiveOver(l, rest, "keepalive_timeout");
    DirectiveMeaning(text, "keepalive_timeout");
    assert text == front + found + b;
    assert forall k :: 0 <= k < |l| ==> text[k] == l[k] != '\n';
    forall i | 0 <= i < |front| && LineStart(text[..i]) ensures !BeginsDirective(text[i..], "keepalive_timeout") {
      if i == 0 {
        assert text[0..] == text;
      } else {
        var j := i - |l| - 1;
        assert text[..i][i - 1] == text[i - 1] == '\n';
        assert text[i..] == rest[j..];
        assert j > 0 ==> rest[..j][j - 1] == text[i - 1];
      }
    }
  }

  method KeepAliveInText(text: string, ghost lines: seq<string>) returns (text': string)
    requires Lines(text, lines)
    ensures Lines(text', KeepAlive(lines)) && KeptAlive(text, text')
  {
    LinesSplit(text, lines);
    DirectivesInLine();
    SearchInLines(lines, IsTimeout);
    SearchInLines(lines, IsRequests);
    SearchDirective(text, IsTimeout, "keepalive_timeout");
    SearchDirective(text, IsRequests, "keepalive_requests");
    AddedWhole();
    hide FirstReplaced, Insert, Unlines, HasDirective, SearchFrom, Directive, FirstLine, DirectiveLine;
    text' := text;
    var hasTimeout, hasRequests := Search(text, IsTimeout), Search(text, IsRequests);
    if !hasTimeout {
      BasicLiterals();
      text' := Insertion(
        text, "\t# Basic Settings\n\t##\n",
        "\t# Basic Settings\n\t##\n" + ("\tkeepalive_timeout 15;\n" + "\tkeepalive_requests 1000;\n"),
        BASIC, [BASIC_NEXT], [TIMEOUT_LINE, REQUESTS_LINE], lines);
    } else if !hasRequests {
      TimeoutLine(lines);
      ghost var a, b := FirstTimeout(lines);
      var l := FirstLine(Split(text, '\n'), IsTimeout);
      RequestsLiterals(l);
      text' := Insertion(text, l + "\n", l + "\n\tkeepalive_requests 1000;\n", l, [], [REQUESTS_LINE], lines);
    }
  }

  /** What the script makes of a text: what the stages on lines make of the text once its first match is tuned. */
  function ScriptText(text: string): string { PatchText(Tuned(text)) }

  /** After tuning, the first stage leaves a settled text, whose lines the second stage leaves alone. */
  lemma LimitedSettled(text: string) returns (lines: seq<string>)
    ensures lines == Split(Tuned(text), '\n') && Lines(Tuned(LimitText(text)), LimitFiles(lines))
    ensures TuneLines(LimitFiles(lines)) == LimitFiles(lines)
  {
    hide *;
    var t := Tuned(text);
    lines := Split(t, '\n');
    SplitLines(t);
    LimitLines(t, lines);
    LimitTuned(text);
    LimitTuned(t);
    TunedTwice(text);
    LinesAre(LimitText(t), LimitFiles(lines));
    SettledLines(LimitFiles(lines));
  }

  lemma LinesAre(text: string, lines: seq<string>)
    requires Lines(text, lines)
    ensures text == Join(lines, "\n") && Whole(lines)
  {
  }

  lemma UncommentMeaning(s: string)
    ensures Uncommented(s, Uncomment(s))
  {
    ReplaceAllMeaning(s, COMMENTED, ENABLED);
  }

  lemma LimitAdds(s: string)
    ensures MayAdd(s, "worker_rlimit_nofile 200000;\n", LimitText(s))
  {
    hide FirstReplaced, HasDirective, ReplaceFirst, SearchFrom, LimitText, MayAdd;
    LimitMeaning(s);
    if HasDirective(s, "worker_rlimit_nofile") {
      NothingAdded(s, "worker_rlimit_nofile 200000;\n");
    } else {
      PidTexts();
      ReplacedAdds(s, "pid /run/nginx.pid;", "worker_rlimit_nofile 200000;\n", LimitText(s));
    }
  }

  lemma PidTexts()
    ensures "pid /run/nginx.pid;\n" == "pid /run/nginx.pid;" + "\n"
    ensures "pid /run/nginx.pid;\nworker_rlimit_nofile 200000;\n" ==
            "pid /run/nginx.pid;" + "\n" + "worker_rlimit_nofile 200000;\n"
  {
  }

  /** Put before the two rewrites, the file limit is added to the rewritten text. */
  lemma OnlyLines(original: string, plain: string, polled: string, text: string)
    requires plain == Uncomment(Tuned(LimitText(original))) && EpollUsed(plain, polled) && KeptAlive(polled, text)
    ensures OnlyAdds(original, text)
  {
    hide *;
    var s := Tuned(original);
    TunedMeaning(original);
    UncommentMeaning(s);
    LimitTuned(original);
    LimitAdds(s);
    LimitLineAdded(s, LimitText(s));
    EpollLineAdded(plain, polled);
    KeepAliveLinesAdded(polled, text);
    OnlyAddsBy(original, s, Uncomment(s), plain, polled, text);
  }

  lemma OnlyAddsBy(original: string, s: string, u: string, plain: string, polled: string, text: string)
    requires ConnectionsRaised(original, s) && Uncommented(s, u)
    requires MayAdd(u, "worker_rlimit_nofile 200000;\n", plain) && MayAdd(plain, "\tuse epoll;\n", polled)
    requires KeepAliveAdded(polled, text)
    ensures OnlyAdds(original, text)
  {
    hide ConnectionsRaised, Uncommented, MayAdd, KeepAliveAdded;
  }

  lemma PatchedBy(original: string, limited: string, raised: string, plain: string, polled: string, text: string)
    requires LimitSet(original, limited) && ConnectionsRaised(limited, raised) && Uncommented(raised, plain)
    requires EpollUsed(plain, polled) && KeptAlive(polled, text)
    ensures Patched(original, text)
  {
    hide LimitSet, ConnectionsRaised, Uncommented, EpollUsed, KeptAlive;
  }

  /** The whole script. */
  method PatchNginxMainConfig(original: string) returns (text: string)
    ensures Patched(original, text)
    ensures OnlyAdds(original, text)
    ensures text == ScriptText(original)
  {
    hide LimitSet, ConnectionsRaised, Uncommented, EpollUsed, KeptAlive, Patched, OnlyAdds, LimitText, Tuned, Uncomment;
    hide LimitFiles, UseEpoll, KeepAlive, UncommentLines, TuneLines;
    var limited := LimitFilesInText(original);
    ghost var start := LimitedSettled(original);
    ghost var lines := LimitFiles(start);
    var raised := Tuned(limited);
    TunedMeaning(limited);
    UncommentText(lines);
    UncommentWhole(lines);
    var plain := Uncomment(raised);
    UncommentMeaning(raised);
    lines := UncommentLines(lines);
    var polled := UseEpollInText(plain, lines);
    text := KeepAliveInText(polled, UseEpoll(lines));
    PatchedBy(original, limited, raised, plain, polled, text);
    OnlyLines(original, plain, polled, text);
  }

  // ----- running it again -----

  lemma UncommentWhole(lines: seq<string>)
    requires Whole(lines)
    ensures Whole(UncommentLines(lines))
  {
    forall i | 0 <= i < |lines| ensures '\n' !in UncommentLines(lines)[i] {
      UncommentAt(lines, i);
      UncommentBreakFree(lines[i]);
    }
  }

  lemma KeepAliveWhole(lines: seq<string>)
    requires Whole(lines)
    ensures Whole(KeepAlive(lines))
  {
    AddedWhole();
    InsertWhole(lines, BASIC, [BASIC_NEXT], [TIMEOUT_LINE, REQUESTS_LINE]);
    InsertWhole(lines, FirstLine(lines, IsTimeout), [], [REQUESTS_LINE]);
  }

  lemma AddedSteady()
    ensures 'w' !in Unlines([EPOLL_LINE]) && Steady(Unlines([EPOLL_LINE]))
    ensures 'w' !in Unlines([REQUESTS_LINE]) && Steady(Unlines([REQUESTS_LINE]))
    ensures 'w' !in Unlines([TIMEOUT_LINE, REQUESTS_LINE]) && Steady(Unlines([TIMEOUT_LINE, REQUESTS_LINE]))
  {
    hide Steady, Unlines;
    OneUnlined(EPOLL_LINE);
    OneUnlined(REQUESTS_LINE);
    OneUnlined(TIMEOUT_LINE);
    UnlinesAppend([TIMEOUT_LINE], [REQUESTS_LINE]);
    assert [TIMEOUT_LINE] + [REQUESTS_LINE] == [TIMEOUT_LINE, REQUESTS_LINE];
    Associate(TIMEOUT_LINE, "\n", REQUESTS_LINE + "\n");
    AddedWords();
    TabSteady("use epoll;", EPOLL_LINE, "\n");
    TabSteady("keepalive_requests 1000;", REQUESTS_LINE, "\n");
    TabSteady("keepalive_timeout 15;", TIMEOUT_LINE, "\n" + (REQUESTS_LINE + "\n"));
  }

  lemma AddedWords()
    ensures 'w' !in EPOLL_LINE && 'w' !in TIMEOUT_LINE && 'w' !in REQUESTS_LINE && 'w' !in "\n"
    ensures EPOLL_LINE == "\t" + "use epoll;" && REQUESTS_LINE == "\t" + "keepalive_requests 1000;"
    ensures TIMEOUT_LINE == "\t" + "keepalive_timeout 15;"
  {
    hide *;
    EpollWord();
    TimeoutWord();
    RequestsWord();
  }

  lemma EpollWord()
    ensures 'w' !in EPOLL_LINE && 'w' !in "\n" && EPOLL_LINE == "\t" + "use epoll;"
  {
  }

  lemma TimeoutWord()
    ensures 'w' !in TIMEOUT_LINE && TIMEOUT_LINE == "\t" + "keepalive_timeout 15;"
  {
  }

  lemma RequestsWord()
    ensures 'w' !in REQUESTS_LINE && REQUESTS_LINE == "\t" + "keepalive_requests 1000;"
  {
  }

  lemma TabSteady(word: string, l: string, rest: string)
    requires word != "" && l == "\t" + word && !IsSpace(word[0]) && !IsDigit(word[0])
    ensures Steady(l + rest)
  {
    var s := l + rest;
    assert s[0] == '\t' && s[1..] == word + rest && (word + rest)[0] == word[0];
  }

  /** What the script prints has no match but the tuned one. */
  lemma OutputSettled(text: string)
    ensures Tuned(ScriptText(text)) == ScriptText(text)
    ensures Split(ScriptText(text), '\n') == Patch(Split(Tuned(text), '\n'))
  {
    hide *;
    var start := LimitedSettled(text);
    var limited := LimitFiles(start);
    LinesAre(Tuned(LimitText(text)), limited);
    TunedTwice(LimitText(text));
    UncommentText(limited);
    UncommentWhole(limited);
    Commute(Join(limited, "\n"));
    OutputStages(start, limited, UncommentLines(limited), text);
  }

  lemma OutputStages(start: seq<string>, limited: seq<string>, plain: seq<string>, text: string)
    requires limited == LimitFiles(start) == TuneLines(limited) && plain == UncommentLines(limited)
    requires start == Split(Tuned(text), '\n')
    requires Whole(plain) && Tuned(Join(plain, "\n")) == Join(plain, "\n")
    ensures Tuned(ScriptText(text)) == ScriptText(text)
    ensures Split(ScriptText(text), '\n') == Patch(start)
  {
    hide Tuned, Insert, HasEpoll, Steady, UncommentLines, LimitFiles, Whole, IsTimeout, IsRequests;
    AddedSteady();
    AddedWhole();
    SettledInsert(plain, EVENTS, [], [EPOLL_LINE]);
    InsertWhole(plain, EVENTS, [], [EPOLL_LINE]);
    var k := UseEpoll(plain);
    SettledInsert(k, BASIC, [BASIC_NEXT], [TIMEOUT_LINE, REQUESTS_LINE]);
    SettledInsert(k, FirstLine(k, IsTimeout), [], [REQUESTS_LINE]);
    KeepAliveWhole(k);
    SplitWhole(KeepAlive(k));
  }

  lemma SplitWhole(lines: seq<string>)
    requires Whole(lines)
    ensures Split(Join(lines, "\n"), '\n') == lines
  {
    SplitJoin(lines, '\n');
  }

  lemma {:induction false} ContainsLine(l: string, rest: string, x: string)
    requires x != "" && '\n' !in x
    ensures Contains(l + "\n" + rest, x) <==> Contains(l, x) || Contains(rest, x)
  {
    var s := l + "\n" + rest;
    if x <= s { PrefixInLine(x, l, rest); }
    if l == "" {
      assert s == "\n" + rest;
      assert x[0] in x;
      ContainsSkip("\n", rest, x);
    } else {
      assert l == [l[0]] + l[1..] && s == [l[0]] + (l[1..] + "\n" + rest);
      ContainsCons(l[0], l[1..], x);
      ContainsCons(l[0], l[1..] + "\n" + rest, x);
      ContainsLine(l[1..], rest, x);
      if x <= l { assert s == x + (l[|x|..] + "\n" + rest); }
    }
  }

  lemma {:induction false} TwiceText(lines: seq<string>)
    requires Whole(lines)
    ensures Contains(Join(lines, "\n"), TWICE) <==> Any(lines, HasTwice)
  {
    var l, more := lines[0], lines[1..];
    assert lines == [l] + more;
    AnyCons(lines, HasTwice);
    if more != [] {
      JoinCons(l, more);
      assert '\n' !in TWICE;
      ContainsLine(l, Join(more, "\n"), TWICE);
      TwiceText(more);
    }
  }

  lemma {:induction false} PidText(lines: seq<string>)
    requires Whole(lines)
    ensures Contains(Join(lines, "\n"), PID + "\n") <==> Before(lines, PID)
  {
    hide Contains, EndsWith;
    InsertableBefore(lines, PID);
    var l, more := lines[0], lines[1..];
    assert lines == [l] + more;
    if more == [] {
      NoBreakNoPid(l);
    } else {
      JoinCons(l, more);
      EndsText(l, Join(more, "\n"), PID);
      PidText(more);
      BeforeCons(l, more, PID);
    }
  }

  lemma BeforeCons(l: string, more: seq<string>, x: string)
    requires more != []
    ensures Before([l] + more, x) <==> EndsWith(l, x) || Before(more, x)
  {
    var lines := [l] + more;
    InsertableBefore(lines, x);
    InsertableBefore(more, x);
    assert lines[1..] == more && lines[1..1] == [];
  }

  lemma NoBreakNoPid(l: string)
    requires '\n' !in l
    ensures !Contains(l, PID + "\n")
  {
    BreakAbsent(l, PID + "\n");
    assert (PID + "\n")[|PID|] == '\n';
  }

  lemma {:induction false} BreakAbsent(s: string, x: string)
    requires '\n' !in s && x != "" && '\n' in x
    ensures !Contains(s, x)
  {
    if |x| <= |s| {
      if x <= s { PrefixChars(x, s, '\n'); }
      BreakAbsent(s[1..], x);
    }
  }

  /** A line ending is found in the text where a line that is not the last ends so. */
  lemma {:induction false} EndsText(l: string, rest: string, x: string)
    requires '\n' !in l && x != "" && '\n' !in x
    ensures Contains(l + "\n" + rest, x + "\n") <==> EndsWith(l, x) || Contains(rest, x + "\n")
  {
    var s, what := l + "\n" + rest, x + "\n";
    if what <= s {
      assert what + "" == x + "\n" + "" == what;
      LineEnd(l, rest, x, "");
    }
    if l == "" {
      assert s == "\n" + rest && s[0] == '\n';
      assert x[0] in x;
      ContainsSkip("\n", rest, what);
    } else {
      assert s == [l[0]] + (l[1..] + "\n" + rest);
      ContainsCons(l[0], l[1..] + "\n" + rest, what);
      EndsText(l[1..], rest, x);
      if l == x {
        assert s == what + rest;
        EndsWhole(x);
      } else {
        EndsTail(l, x);
      }
    }
  }

  lemma EndsWhole(x: string)
    ensures EndsWith(x, x)
  {
    assert x[0..] == x;
  }

  /** Tuning neither makes nor unmakes an occurrence of a text that begins with an alien character. */
  lemma {:induction false} ContainsTuned(s: string, x: string)
    requires x != "" && Alien(x[0]) && 'w' !in x
    ensures Contains(Tuned(s), x) <==> Contains(s, x)
  {
    hide MatchConnections, Alien, Retune, Contains;
    if MatchConnections(s).Some? {
      var m, r := MatchSplit(s);
      TunedMatches();
      MatchFreeOf(m, x[0]);
      MatchFreeOf(TUNED, x[0]);
      TunedHitIs(m, r);
      ContainsSkip(m, r, x);
      ContainsSkip(TUNED, r, x);
    } else if s == "" {
      NothingTuned("");
    } else {
      var c, t := s[0], s[1..];
      assert s == [c] + t;
      TunedMiss(s);
      ContainsTuned(t, x);
      ContainsCons(c, t, x);
      ContainsCons(c, Tuned(t), x);
      if x <= Tuned(s) { TunedLead(x, s); }
      if x <= s { TunedSkip(x, s[|x|..]); assert s == x + s[|x|..]; }
    }
  }

  lemma TwiceAlien()
    ensures Alien(TWICE[0]) && 'w' !in TWICE
  {
  }

  /** The file limit is set, but no longer once the comments are taken away, and the line to insert after is there. */
  predicate Vanishes(text: string) {
    Search(text, IsRlimit) && !Search(Uncomment(text), IsRlimit) && Contains(text, PID + "\n")
  }

  /** Of the tuned text's lines this says the same. */
  lemma VanishesInLines(text: string)
    ensures LimitVanishes(Split(Tuned(text), '\n')) <==> Vanishes(text)
  {
    hide Tuned, Uncomment, SearchFrom, IsRlimit, Contains, Alien, Before;
    var lines := Split(Tuned(text), '\n');
    SplitLines(Tuned(text));
    DirectivesInLine();
    SearchTuned(text, true);
    SearchInLines(lines, IsRlimit);
    UncommentText(lines);
    UncommentWhole(lines);
    SearchInLines(UncommentLines(lines), IsRlimit);
    Commute(text);
    SearchTuned(Uncomment(text), true);
    AnyUncommented(lines);
    PidText(lines);
    PidAlien();
    ContainsTuned(text, PID + "\n");
  }

  lemma {:induction false} AnyUncommented(lines: seq<string>)
    ensures Any(UncommentLines(lines), IsRlimit) <==> Any(lines, RlimitAfter)
  {
    forall i | 0 <= i < |lines| ensures UncommentLines(lines)[i] == Uncomment(lines[i]) { UncommentAt(lines, i); }
    hide IsRlimit, Uncomment, UncommentLines;
  }

  lemma TwiceInLines(text: string)
    ensures Any(Split(Tuned(text), '\n'), HasTwice) <==> Contains(text, TWICE)
  {
    hide Tuned, Contains, Alien, HasTwice;
    SplitLines(Tuned(text));
    TwiceText(Split(Tuned(text), '\n'));
    TwiceAlien();
    ContainsTuned(text, TWICE);
  }

  /** Running the script on its own output changes nothing, for exactly these texts: those without a comment sign in
      front of "# multi_accept on;", except where the only lines setting the file limit lose their word boundary to
      the uncommenting while the line to insert after is there. */
  lemma ScriptIdempotent(text: string)
    ensures ScriptText(ScriptText(text)) == ScriptText(text) <==> !Contains(text, TWICE) && !Vanishes(text)
  {
    hide *;
    var lines := Split(Tuned(text), '\n');
    OutputSettled(text);
    OutputSettled(ScriptText(text));
    TwiceInLines(text);
    VanishesInLines(text);
    PatchTwice(lines);
    SameOutput(text, lines);
  }

  lemma SameOutput(text: string, lines: seq<string>)
    requires lines == Split(Tuned(text), '\n') && Tuned(ScriptText(text)) == ScriptText(text)
    requires Split(ScriptText(text), '\n') == Patch(lines)
    requires Split(ScriptText(ScriptText(text)), '\n') == Patch(Split(Tuned(ScriptText(text)), '\n'))
    ensures ScriptText(ScriptText(text)) == ScriptText(text) <==> Patch(Patch(lines)) == Patch(lines)
  {
    hide Patch, Tuned;
  }

  lemma CommentedLimit()
    ensures IsRlimit(RLIMIT + COMMENTED) && Uncomment(RLIMIT + COMMENTED) == RLIMIT + ENABLED
  {
    CommentFacts();
    DirectiveAt(RLIMIT, COMMENTED);
    assert '#' !in RLIMIT;
    ReplaceSkip(RLIMIT, COMMENTED, COMMENTED, ENABLED);
    assert COMMENTED + "" == COMMENTED;
    ReplaceHit("", COMMENTED, ENABLED);
  }

  lemma JoinedLimit()
    ensures !IsRlimit(RLIMIT + ENABLED)
  {
    CommentFacts();
    assert SkipBlanks(RLIMIT + ENABLED) == RLIMIT + ENABLED;
    assert (RLIMIT + ENABLED)[|RLIMIT|] == ENABLED[0];
  }

  lemma PidOnly()
    ensures !RlimitAfter(PID) && EndsWith(PID, PID)
  {
    assert '#' !in PID;
    NotCommented(PID);
    assert SkipBlanks(PID) == PID && PID[0] == 'p' && RLIMIT[0] == 'w';
    assert PID[0..] == PID;
  }

  lemma VanishesIn(x: string, l: string)
    requires '\n' !in x && '\n' !in l && !RlimitAfter(x) && IsRlimit(l) && !RlimitAfter(l) && EndsWith(x, PID)
    ensures Vanishes(x + "\n" + l)
  {
    var lines := [x, l];
    assert Join([l], "\n") == l && Join(lines, "\n") == x + "\n" + l;
    assert IsRlimit(lines[1]) && EndsWith(lines[0], PID);
    DirectivesInLine();
    SearchInLines(lines, IsRlimit);
    UncommentText(lines);
    UncommentWhole(lines);
    SearchInLines(UncommentLines(lines), IsRlimit);
    AnyUncommented(lines);
    PidText(lines);
  }

  /** The first exception is real: one pass uncovers a comment that the next pass takes away. */
  lemma DoubleCommentTakesTwoRuns()
    ensures ScriptText(ScriptText(TWICE)) != ScriptText(TWICE)
  {
    ScriptIdempotent(TWICE);
  }

  /** So is the second: `pid /run/nginx.pid;` and, on the next line, `worker_rlimit_nofile# multi_accept on;`. */
  lemma LimitCanVanish()
    ensures Vanishes(PID + "\n" + (RLIMIT + COMMENTED))
    ensures ScriptText(ScriptText(PID + "\n" + (RLIMIT + COMMENTED))) != ScriptText(PID + "\n" + (RLIMIT + COMMENTED))
  {
    CommentedLimit();
    JoinedLimit();
    PidOnly();
    LimitBreakFree();
    VanishesIn(PID, RLIMIT + COMMENTED);
    ScriptIdempotent(PID + "\n" + (RLIMIT + COMMENTED));
  }

  lemma LimitBreakFree()
    ensures '\n' !in PID && '\n' !in RLIMIT + COMMENTED
  {
  }
}
