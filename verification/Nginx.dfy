/** The installer's rewriting of nginx.conf, and when running it again changes nothing. */
module Nginx {
  import opened Text
  import opened Rewriting
  import opened Tuning

  // ----- the script, on lines -----

  predicate Any(lines: seq<string>, p: string -> bool) {
    exists i :: 0 <= i < |lines| && p(lines[i])
  }

  function FirstLine(lines: seq<string>, p: string -> bool): string {
    if lines == [] then "" else if p(lines[0]) then lines[0] else FirstLine(lines[1..], p)
  }

  predicate InsertHere(lines: seq<string>, x: string, next: seq<string>) {
    |lines| > 1 + |next| && EndsWith(lines[0], x) && lines[1..1 + |next|] == next
  }

  /** New lines after the first line that ends with `x`, is followed by the lines `next`, and then not by the end. */
  function Insert(lines: seq<string>, x: string, next: seq<string>, added: seq<string>): seq<string> {
    if lines == [] then []
    else if InsertHere(lines, x, next) then lines[..1 + |next|] + added + lines[1 + |next|..]
    else [lines[0]] + Insert(lines[1..], x, next, added)
  }

  function TuneLines(lines: seq<string>): (r: seq<string>)
    ensures |r| == |lines|
  {
    if lines == [] then []
    else if Retune(lines[0]).Some? then [Tuned(lines[0])] + lines[1..]
    else [lines[0]] + TuneLines(lines[1..])
  }

  function UncommentLines(lines: seq<string>): (r: seq<string>)
    ensures |r| == |lines|
  {
    if lines == [] then [] else [Uncomment(lines[0])] + UncommentLines(lines[1..])
  }

  const RLIMIT_LINE := "worker_rlimit_nofile 200000;"
  const EPOLL_LINE := "\tuse epoll;"
  const TIMEOUT_LINE := "\tkeepalive_timeout 15;"
  const REQUESTS_LINE := "\tkeepalive_requests 1000;"
  const EVENTS := "events {"
  const BASIC := "\t# Basic Settings"
  const BASIC_NEXT := "\t##"

  function LimitFiles(lines: seq<string>): seq<string> {
    if Any(lines, IsRlimit) then lines else Insert(lines, PID, [], [RLIMIT_LINE])
  }

  /** The expression for `use epoll;`, which can reach over line breaks, matches at the start of some line. */
  predicate HasEpoll(lines: seq<string>) {
    lines != [] && (IsEpoll(Join(lines, "\n")) || HasEpoll(lines[1..]))
  }

  function UseEpoll(lines: seq<string>): seq<string> {
    if HasEpoll(lines) then lines else Insert(lines, EVENTS, [], [EPOLL_LINE])
  }

  function KeepAlive(lines: seq<string>): seq<string> {
    if !Any(lines, IsTimeout) then Insert(lines, BASIC, [BASIC_NEXT], [TIMEOUT_LINE, REQUESTS_LINE])
    else if !Any(lines, IsRequests) then Insert(lines, FirstLine(lines, IsTimeout), [], [REQUESTS_LINE])
    else lines
  }

  function Patch(lines: seq<string>): seq<string> {
    KeepAlive(UseEpoll(UncommentLines(TuneLines(LimitFiles(lines)))))
  }

  function PatchText(text: string): string { Join(Patch(Split(text, '\n')), "\n") }

  // ----- insertions -----

  predicate Insertable(lines: seq<string>, x: string, next: seq<string>) {
    lines != [] && (InsertHere(lines, x, next) || Insertable(lines[1..], x, next))
  }

  /** The line that an insertion comes after. */
  predicate After(l: string, x: string, next: seq<string>) {
    (next == [] ==> EndsWith(l, x)) && (|next| == 1 ==> l == next[0])
  }

  lemma InsertHereSplits(lines: seq<string>, x: string, next: seq<string>)
    returns (a: seq<string>, b: seq<string>)
    requires InsertHere(lines, x, next)
    ensures lines == a + b && b != [] && a != [] && After(a[|a| - 1], x, next)
    ensures a == lines[..1 + |next|] && b == lines[1 + |next|..]
  {
    a, b := lines[..1 + |next|], lines[1 + |next|..];
    if |next| == 1 { assert lines[1..2][0] == lines[1]; }
  }

  /** An insertion happens between two non-empty parts, or not at all. */
  lemma {:induction false} InsertSplits(lines: seq<string>, x: string, next: seq<string>, added: seq<string>)
    returns (a: seq<string>, b: seq<string>)
    ensures lines == a + b
    ensures Insertable(lines, x, next) ==> b != [] && Insert(lines, x, next, added) == a + added + b
    ensures Insertable(lines, x, next) ==> a != [] && After(a[|a| - 1], x, next)
    ensures !Insertable(lines, x, next) ==> Insert(lines, x, next, added) == lines
  {
    hide InsertHere, After, EndsWith;
    if lines == [] {
      a, b := [], [];
    } else if InsertHere(lines, x, next) {
      a, b := InsertHereSplits(lines, x, next);
    } else {
      var l, rest := [lines[0]], lines[1..];
      assert lines == l + rest;
      a, b := InsertSplits(rest, x, next, added);
      Associate(l, a, b);
      Associate(l, a + added, b);
      Associate(l, a, added);
      a := l + a;
    }
  }

  /** A line ending with `x` that is not the last. */
  predicate Before(lines: seq<string>, x: string) {
    exists i :: 0 <= i < |lines| - 1 && EndsWith(lines[i], x)
  }

  lemma {:induction false} InsertableBefore(lines: seq<string>, x: string)
    ensures Insertable(lines, x, []) <==> Before(lines, x)
  {
    if lines != [] {
      InsertableBefore(lines[1..], x);
      assert lines[1..1] == [];
      assert forall i :: 0 <= i < |lines[1..]| ==> lines[1..][i] == lines[i + 1];
      if Before(lines, x) {
        var i :| 0 <= i < |lines| - 1 && EndsWith(lines[i], x);
        if i > 0 { assert lines[1..][i - 1] == lines[i]; }
      }
      if Before(lines[1..], x) {
        var i :| 0 <= i < |lines[1..]| - 1 && EndsWith(lines[1..][i], x);
        assert lines[i + 1] == lines[1..][i];
      }
    }
  }

  lemma AnyAround(a: seq<string>, added: seq<string>, b: seq<string>, p: string -> bool)
    ensures Any(a + added + b, p) <==> Any(a + b, p) || Any(added, p)
  {
    var all, prior := a + added + b, a + b;
    if Any(all, p) {
      var i :| 0 <= i < |all| && p(all[i]);
      if i < |a| { assert prior[i] == all[i]; }
      else if i < |a| + |added| { assert added[i - |a|] == all[i]; }
      else { assert prior[i - |added|] == all[i]; }
    }
    if Any(prior, p) {
      var i :| 0 <= i < |prior| && p(prior[i]);
      if i < |a| { assert all[i] == prior[i]; } else { assert all[i + |added|] == prior[i]; }
    }
    if Any(added, p) {
      var i :| 0 <= i < |added| && p(added[i]);
      assert all[|a| + i] == added[i];
    }
  }

  lemma BeforeAround(a: seq<string>, added: seq<string>, b: seq<string>, x: string)
    requires b != [] && forall i :: 0 <= i < |added| ==> !EndsWith(added[i], x)
    ensures Before(a + added + b, x) <==> Before(a + b, x)
  {
    var all, prior := a + added + b, a + b;
    forall j | |a| <= j < |a| + |added| ensures !EndsWith(all[j], x) { assert all[j] == added[j - |a|]; }
    if Before(all, x) {
      var i :| 0 <= i < |all| - 1 && EndsWith(all[i], x);
      if i < |a| { assert prior[i] == all[i]; } else if i >= |a| + |added| { assert prior[i - |added|] == all[i]; }
    }
    if Before(prior, x) {
      var i :| 0 <= i < |prior| - 1 && EndsWith(prior[i], x);
      if i < |a| { assert all[i] == prior[i]; } else { assert all[i + |added|] == prior[i]; }
    }
  }

  predicate Retunable(l: string) { Retune(l).Some? }

  lemma TuneCons(l: string, more: seq<string>)
    ensures TuneLines([l] + more) == if Retunable(l) then [Tuned(l)] + more else [l] + TuneLines(more)
  {
    assert ([l] + more)[1..] == more;
  }

  lemma {:induction false} TuneAppend(a: seq<string>, b: seq<string>)
    ensures TuneLines(a + b) == if Any(a, Retunable) then TuneLines(a) + b else a + TuneLines(b)
    ensures !Any(a, Retunable) ==> TuneLines(a) == a
  {
    if a == [] {
      assert a + b == b && a + TuneLines(b) == TuneLines(b);
    } else {
      var l, more := a[0], a[1..];
      assert a == [l] + more;
      Associate([l], more, b);
      TuneCons(l, more + b);
      TuneCons(l, more);
      AnyCons(a, Retunable);
      if Retunable(l) {
        Associate([Tuned(l)], more, b);
      } else {
        TuneAppend(more, b);
        Associate([l], TuneLines(more), b);
        Associate([l], more, TuneLines(b));
      }
    }
  }

  lemma AnyCons(lines: seq<string>, p: string -> bool)
    requires lines != []
    ensures Any(lines, p) <==> p(lines[0]) || Any(lines[1..], p)
  {
    assert forall i :: 0 <= i < |lines[1..]| ==> lines[1..][i] == lines[i + 1];
    if Any(lines, p) {
      var i :| 0 <= i < |lines| && p(lines[i]);
      if i > 0 { assert lines[1..][i - 1] == lines[i]; }
    }
  }

  /** Lines without a match, added to settled lines, leave them settled. */
  lemma TuneAround(a: seq<string>, added: seq<string>, b: seq<string>)
    requires TuneLines(a + b) == a + b && forall i :: 0 <= i < |added| ==> Retune(added[i]) == None
    ensures TuneLines(a + added + b) == a + added + b
  {
    TuneAppend(a, b);
    Associate(a, added, b);
    TuneAppend(a, added + b);
    TuneAppend(added, b);
    assert !Any(added, Retunable);
    if Any(a, Retunable) {
      assert TuneLines(a) + b == a + b;
      assert (TuneLines(a) + b)[..|a|] == TuneLines(a) && (a + b)[..|a|] == a;
    } else {
      assert a + TuneLines(b) == a + b;
      assert (a + TuneLines(b))[|a|..] == TuneLines(b) && (a + b)[|a|..] == b;
    }
  }

  lemma {:induction false} UncommentAppend(a: seq<string>, b: seq<string>)
    ensures UncommentLines(a + b) == UncommentLines(a) + UncommentLines(b)
  {
    if a == [] {
      assert a + b == b;
    } else {
      assert (a + b)[0] == a[0] && (a + b)[1..] == a[1..] + b;
      UncommentAppend(a[1..], b);
    }
  }

  function AllHashes(lines: seq<string>): nat {
    if lines == [] then 0 else Hashes(lines[0]) + AllHashes(lines[1..])
  }

  lemma {:induction false} AllHashesAppend(a: seq<string>, b: seq<string>)
    ensures AllHashes(a + b) == AllHashes(a) + AllHashes(b)
  {
    if a == [] {
      assert a + b == b;
    } else {
      assert (a + b)[0] == a[0] && (a + b)[1..] == a[1..] + b;
      AllHashesAppend(a[1..], b);
    }
  }

  lemma {:induction false} LinesHashes(lines: seq<string>)
    ensures AllHashes(TuneLines(lines)) == AllHashes(lines)
    ensures AllHashes(UncommentLines(lines)) <= AllHashes(lines)
    ensures UncommentLines(lines) == lines <==> AllHashes(UncommentLines(lines)) == AllHashes(lines)
  {
    if lines != [] {
      LinesHashes(lines[1..]);
      TunedHashes(lines[0]);
      UncommentHashes(lines[0]);
      assert lines == [lines[0]] + lines[1..];
      assert UncommentLines(lines)[1..] == UncommentLines(lines[1..]);
    }
  }

  lemma {:induction false} NoHashes(added: seq<string>)
    requires forall i :: 0 <= i < |added| ==> '#' !in added[i]
    ensures AllHashes(added) == 0 && UncommentLines(added) == added
  {
    if added != [] {
      HashFree(added[0]);
      UncommentHashes(added[0]);
      NoHashes(added[1..]);
      assert added == [added[0]] + added[1..];
    }
  }

  // ----- what the added lines leave alone -----

  /** An added line that means nothing to the first three stages. */
  predicate Quiet(l: string) {
    !IsRlimit(l) && !EndsWith(l, PID) && Retune(l) == None && '#' !in l
  }

  predicate AllQuiet(added: seq<string>) {
    forall i :: 0 <= i < |added| ==> Quiet(added[i])
  }

  /** To the first three stages, `after` looks like `before`. */
  predicate SameToFirst(before: seq<string>, after: seq<string>) {
    && (Any(after, IsRlimit) <==> Any(before, IsRlimit))
    && (Before(after, PID) <==> Before(before, PID))
    && (TuneLines(before) == before ==> TuneLines(after) == after)
    && AllHashes(after) == AllHashes(before)
    && AllHashes(UncommentLines(after)) == AllHashes(UncommentLines(before))
    && |after| >= |before|
  }

  lemma QuietAround(a: seq<string>, added: seq<string>, b: seq<string>)
    requires AllQuiet(added) && b != []
    ensures SameToFirst(a + b, a + added + b)
  {
    AnyAround(a, added, b, IsRlimit);
    assert !Any(added, IsRlimit);
    BeforeAround(a, added, b, PID);
    if TuneLines(a + b) == a + b { TuneAround(a, added, b); }
    HashesAround(a, added, b);
  }

  lemma HashesAround(a: seq<string>, added: seq<string>, b: seq<string>)
    requires forall i :: 0 <= i < |added| ==> '#' !in added[i]
    ensures AllHashes(a + added + b) == AllHashes(a + b)
    ensures AllHashes(UncommentLines(a + added + b)) == AllHashes(UncommentLines(a + b))
  {
    hide *;
    NoHashes(added);
    AllHashesAppend(a + added, b);
    AllHashesAppend(a, added);
    AllHashesAppend(a, b);
    UncommentAppend(a + added, b);
    UncommentAppend(a, added);
    UncommentAppend(a, b);
    AllHashesAppend(UncommentLines(a) + added, UncommentLines(b));
    AllHashesAppend(UncommentLines(a), added);
    AllHashesAppend(UncommentLines(a), UncommentLines(b));
  }

  lemma QuietInsert(lines: seq<string>, x: string, next: seq<string>, added: seq<string>)
    requires AllQuiet(added)
    ensures SameToFirst(lines, Insert(lines, x, next, added))
  {
    var a, b := InsertSplits(lines, x, next, added);
    if Insertable(lines, x, next) { QuietAround(a, added, b); }
  }

  lemma BlankSkipped(b: char, s: string)
    requires IsBlank(b)
    ensures SkipBlanks([b] + s) == SkipBlanks(s)
  {
    assert ([b] + s)[1..] == s;
  }

  lemma SameEnd(l: string, x: string)
    requires EndsWith(l, x) && |x| >= 2
    ensures l[|l| - 2] == x[|x| - 2]
  {
    assert l[|l| - |x|..][|x| - 2] == l[|l| - 2];
  }

  lemma QuietLine(l: string)
    requires 'w' !in l && '#' !in l && |l| >= 2 && l[|l| - 2] != 'd'
    ensures Quiet(l)
  {
    NothingTuned(l);
    if IsRlimit(l) {
      PrefixChars(RLIMIT, SkipBlanks(l), 'w');
      SkippedChars(l, 'w');
    }
    if EndsWith(l, PID) { SameEnd(l, PID); }
  }

  lemma {:induction false} SkippedChars(l: string, c: char)
    requires c in SkipBlanks(l)
    ensures c in l
  {
    if l != "" && IsBlank(l[0]) { SkippedChars(l[1..], c); }
  }

  lemma EpollQuiet()
    ensures Quiet(EPOLL_LINE)
  {
    assert EPOLL_LINE[9] == 'l';
    QuietLine(EPOLL_LINE);
  }

  lemma TimeoutQuiet()
    ensures Quiet(TIMEOUT_LINE)
  {
    assert TIMEOUT_LINE[20] == '5';
    QuietLine(TIMEOUT_LINE);
  }

  lemma RequestsQuiet()
    ensures Quiet(REQUESTS_LINE)
  {
    assert REQUESTS_LINE[23] == '0';
    QuietLine(REQUESTS_LINE);
  }

  lemma DirectiveAt(word: string, rest: string)
    requires word != "" && !IsBlank(word[0]) && (rest == "" || !IsWord(rest[0]))
    ensures Directive("\t" + (word + rest), word) && Directive(word + rest, word)
  {
    BlankSkipped('\t', word + rest);
    assert SkipBlanks(word + rest) == word + rest;
  }

  lemma FreeOfEpoll(word: string, rest: string, l: string)
    requires l == "\t" + (word + rest) && word != "" && !IsBlank(word[0]) && word[0] != 'u'
    requires |l| >= 2 && l[|l| - 2] != EVENTS[|EVENTS| - 2]
    ensures !IsEpoll(l) && !EndsWith(l, EVENTS)
  {
    BlankSkipped('\t', word + rest);
    assert SkipBlanks(l) == word + rest && "use"[0] == 'u';
    if EndsWith(l, EVENTS) { SameEnd(l, EVENTS); }
  }

  lemma AddedDirectives()
    ensures TIMEOUT_LINE == "\t" + ("keepalive_timeout" + " 15;") &&
            REQUESTS_LINE == "\t" + ("keepalive_requests" + " 1000;")
    ensures TIMEOUT_LINE[20] == '5' && REQUESTS_LINE[23] == '0' && EVENTS[6] == ' '
  {
  }

  lemma AddedFound()
    ensures IsTimeout(TIMEOUT_LINE) && IsRequests(REQUESTS_LINE) && IsRlimit(RLIMIT_LINE) && IsEpoll(EPOLL_LINE)
    ensures !IsEpoll(TIMEOUT_LINE) && !IsEpoll(REQUESTS_LINE)
    ensures !EndsWith(TIMEOUT_LINE, EVENTS) && !EndsWith(REQUESTS_LINE, EVENTS)
  {
    AddedDirectives();
    DirectiveAt("keepalive_timeout", " 15;");
    DirectiveAt("keepalive_requests", " 1000;");
    assert RLIMIT_LINE == RLIMIT + " 200000;";
    DirectiveAt(RLIMIT, " 200000;");
    EpollFound();
    FreeOfEpoll("keepalive_timeout", " 15;", TIMEOUT_LINE);
    FreeOfEpoll("keepalive_requests", " 1000;", REQUESTS_LINE);
  }

  lemma EpollFound()
    ensures IsEpoll(EPOLL_LINE)
  {
    var s := "use" + (" " + "epoll;");
    assert EPOLL_LINE == "\t" + s;
    BlankSkipped('\t', s);
    assert SkipBlanks(s) == s && s[3..] == " " + "epoll;";
    SkipSpacesAt(" ", "epoll;");
  }

  const RLIMIT_REST := "orker_rlimit_nofile 200000;"

  lemma RlimitLineParts()
    ensures RLIMIT_LINE == "w" + RLIMIT_REST
  {
  }

  lemma RlimitRestFree()
    ensures 'w' !in RLIMIT_REST && '#' !in RLIMIT_REST && RLIMIT_REST[6] == 'r' && CONNECTIONS[7] == 'c'
  {
  }

  lemma RlimitLineUntuned(rest: string, l: string)
    requires l == "w" + rest && 'w' !in rest && |rest| > 6 && rest[6] != CONNECTIONS[7]
    ensures Retune(l) == None
  {
    NothingTuned(rest);
    assert l[1..] == rest && l[7] == rest[6];
  }

  /** The line added first stays as it is. */
  lemma RlimitLineStays()
    ensures Retune(RLIMIT_LINE) == None && '#' !in RLIMIT_LINE && Uncomment(RLIMIT_LINE) == RLIMIT_LINE
  {
    RlimitLineParts();
    RlimitRestFree();
    RlimitLineUntuned(RLIMIT_REST, RLIMIT_LINE);
    NotCommented(RLIMIT_LINE);
  }

  lemma NotCommented(l: string)
    requires '#' !in l
    ensures Uncomment(l) == l
  {
    CommentFacts();
    assert l + "" == l;
    ReplaceSkip(l, "", COMMENTED, ENABLED);
  }

  // ----- what the in-line rewrites leave alone -----

  lemma TunedHead(s: string)
    ensures s == "" <==> Tuned(s) == ""
    ensures s != "" ==> Tuned(s)[0] == s[0]
  {
    if MatchConnections(s).Some? {
      MatchStart(s);
      TunedStart(s);
    }
  }

  const RLIMIT_TAIL := "orker_rlimit_nofile"

  lemma RlimitPrefix(s: string)
    requires s != ""
    ensures RLIMIT <= s <==> s[0] == 'w' && RLIMIT_TAIL <= s[1..]
  {
    assert RLIMIT == "w" + RLIMIT_TAIL && RLIMIT[1..] == RLIMIT_TAIL;
    if s[0] == 'w' && RLIMIT_TAIL <= s[1..] { assert s == "w" + RLIMIT_TAIL + s[1..][|RLIMIT_TAIL|..]; }
    if RLIMIT <= s { assert RLIMIT[0] == s[0]; }
  }

  predicate RlimitNow(s: string) {
    RLIMIT <= s && (|s| == |RLIMIT| || !IsWord(s[|RLIMIT|]))
  }

  lemma MatchIsNotRlimit(s: string)
    requires MatchConnections(s).Some?
    ensures !(RLIMIT <= s) && !(RLIMIT <= Tuned(s))
  {
    assert CONNECTIONS[7] == s[7] == TUNED[7] == Tuned(s)[7] != RLIMIT[7];
  }

  /** The text after a leading `worker_rlimit_nofile`. */
  lemma RlimitSplit(c: char, tail: string, rest: string)
    requires tail == RLIMIT_TAIL
    ensures ([c] + (tail + rest))[|RLIMIT|..] == rest
    ensures RlimitNow([c] + (tail + rest)) <==> c == 'w' && (rest == "" || !IsWord(rest[0]))
  {
    var s := [c] + (tail + rest);
    assert s[1..] == tail + rest && |RLIMIT| == 1 + |tail|;
    RlimitPrefix(s);
    if rest != "" { assert s[|RLIMIT|] == rest[0]; }
  }

  /** A text that begins with the tail before or after tuning begins with it both times. */
  lemma TunedTail(t: string) returns (rest: string)
    requires RLIMIT_TAIL <= Tuned(t) || RLIMIT_TAIL <= t
    ensures t == RLIMIT_TAIL + rest && Tuned(t) == RLIMIT_TAIL + Tuned(rest)
  {
    hide *;
    RlimitTailFree();
    if RLIMIT_TAIL <= Tuned(t) { TunedLead(RLIMIT_TAIL, t); }
    rest := t[|RLIMIT_TAIL|..];
    TunedSkip(RLIMIT_TAIL, rest);
  }

  lemma RlimitTailFree()
    ensures 'w' !in RLIMIT_TAIL
  {
  }

  lemma TunedRlimitNow(s: string)
    ensures RlimitNow(Tuned(s)) <==> RlimitNow(s)
  {
    if MatchConnections(s).Some? {
      MatchIsNotRlimit(s);
    } else if s != "" {
      TunedMiss(s);
      var t := s[1..];
      assert s == [s[0]] + t && Tuned(s)[1..] == Tuned(t);
      if RLIMIT_TAIL <= Tuned(t) || RLIMIT_TAIL <= t {
        var rest := TunedTail(t);
        TunedHead(rest);
        RlimitSplit(s[0], RLIMIT_TAIL, rest);
        RlimitSplit(s[0], RLIMIT_TAIL, Tuned(rest));
      } else {
        RlimitPrefix(s);
        RlimitPrefix(Tuned(s));
      }
    }
  }

  lemma {:induction false} TunedRlimit(s: string)
    ensures IsRlimit(Tuned(s)) <==> IsRlimit(s)
  {
    if s != "" && IsBlank(s[0]) {
      if MatchConnections(s).Some? { MatchStart(s); }
      TunedMiss(s);
      TunedRlimit(s[1..]);
      BlankSkipped(s[0], Tuned(s[1..]));
    } else {
      TunedHead(s);
      TunedRlimitNow(s);
    }
  }

  /** A line ending whose last two characters tell it from every text the rewrites put in or take out. */
  predicate Tail(x: string) {
    |x| >= 2 && x[|x| - 1] == ';' && x[|x| - 2] == 'd' && ';' !in x[..|x| - 1] && 'w' !in x && 'm' !in x && '#' !in x
  }

  lemma EndsInside(p: string, t: string, x: string)
    requires EndsWith(p + t, x) && |t| < |x| && |x| >= 2 && |p| >= 2 && p[|p| - 1] == ';'
    ensures (t == "" && p[|p| - 2] == x[|x| - 2]) || ';' in x[..|x| - 1]
  {
    var s := p + t;
    assert s[|s| - |x|..] == x;
    if t == "" {
      assert s == p;
      SameEnd(p, x);
    } else {
      var i := |x| - |t| - 1;
      assert x[i] == s[|s| - |x|..][i] == p[|p| - 1];
      assert x[..|x| - 1][i] == x[i];
    }
  }

  lemma EndsPiece(p: string, t: string, x: string)
    requires Tail(x) && |p| >= 2 && p[|p| - 1] == ';' && p[|p| - 2] != 'd'
    ensures EndsWith(p + t, x) <==> EndsWith(t, x)
  {
    if EndsWith(p + t, x) && |t| < |x| { EndsInside(p, t, x); }
    if |t| >= |x| { assert (p + t)[|p + t| - |x|..] == t[|t| - |x|..]; }
  }

  lemma EndsCons(c: char, t: string, x: string)
    requires x != ""
    ensures EndsWith([c] + t, x) <==> EndsWith(t, x) || [c] + t == x
  {
    var s := [c] + t;
    if |t| >= |x| { assert s[|s| - |x|..] == t[|t| - |x|..]; }
    if |s| == |x| { assert s[0..] == s; }
  }

  lemma TunedWhole(c: char, t: string, x: string)
    requires 'w' !in x
    ensures [c] + Tuned(t) == x <==> [c] + t == x
  {
    hide *;
    if [c] + t == x {
      assert forall d :: d in t ==> d in [c] + t;
      NothingTuned(t);
    }
    if [c] + Tuned(t) == x {
      var u := Tuned(t);
      assert forall d :: d in u ==> d in [c] + u;
      TunedLead(u, t);
      assert u == u + Tuned(t[|u|..]);
      TunedHead(t[|u|..]);
      assert t == u + t[|u|..];
    }
  }

  lemma {:induction false} TunedEnds(s: string, x: string)
    requires Tail(x)
    ensures EndsWith(Tuned(s), x) <==> EndsWith(s, x)
  {
    if MatchConnections(s).Some? {
      var m, rest := MatchSplit(s);
      TunedMatches();
      TunedHit(m, rest);
      EndsPiece(m, rest, x);
      EndsPiece(TUNED, rest, x);
    } else if s != "" {
      TunedMiss(s);
      TunedEnds(s[1..], x);
      EndsCons(s[0], s[1..], x);
      EndsCons(s[0], Tuned(s[1..]), x);
      TunedWhole(s[0], s[1..], x);
      assert s == [s[0]] + s[1..];
    }
  }

  lemma UncommentedWhole(c: char, t: string, x: string)
    requires '#' !in x && 'm' !in x
    ensures [c] + Uncomment(t) == x <==> [c] + t == x
  {
    CommentFacts();
    if [c] + t == x {
      assert forall d :: d in t ==> d in [c] + t;
      assert t + "" == t;
      ReplaceSkip(t, "", COMMENTED, ENABLED);
    }
    if [c] + Uncomment(t) == x {
      var u := Uncomment(t);
      assert forall d :: d in u ==> d in [c] + u;
      ReplaceLead(u, t, COMMENTED, ENABLED);
      var rest := t[|u|..];
      assert u == u + Uncomment(rest) && Uncomment(rest) == "";
      assert rest == "" by { NotErased(rest); }
      assert t == u + rest;
    }
  }

  lemma NotErased(s: string)
    ensures Uncomment(s) == "" ==> s == ""
  {
    CommentFacts();
  }

  lemma {:induction false} UncommentedEnds(s: string, x: string)
    requires Tail(x)
    ensures EndsWith(Uncomment(s), x) <==> EndsWith(s, x)
    decreases |s|
  {
    CommentFacts();
    if COMMENTED <= s {
      var t := s[|COMMENTED|..];
      assert s == COMMENTED + t;
      ReplaceHit(t, COMMENTED, ENABLED);
      UncommentedEnds(t, x);
      assert COMMENTED[17] == ENABLED[15] == ';' && COMMENTED[16] == ENABLED[14] == 'n';
      EndsPiece(COMMENTED, t, x);
      EndsPiece(ENABLED, Uncomment(t), x);
    } else if s != "" {
      ReplaceMiss(s, COMMENTED, ENABLED);
      UncommentedEnds(s[1..], x);
      EndsCons(s[0], s[1..], x);
      EndsCons(s[0], Uncomment(s[1..]), x);
      UncommentedWhole(s[0], s[1..], x);
      assert s == [s[0]] + s[1..];
    }
  }

  lemma PidTail()
    ensures Tail(PID)
  {
    assert PID[..|PID| - 1] == "pid /run/nginx.pid";
  }

  // ----- the in-line stages, line by line -----

  lemma {:induction false} TuneAt(lines: seq<string>, i: nat)
    requires i < |lines|
    ensures TuneLines(lines)[i] == lines[i] || TuneLines(lines)[i] == Tuned(lines[i])
  {
    if i > 0 && !Retunable(lines[0]) { TuneAt(lines[1..], i - 1); }
  }

  lemma {:induction false} UncommentAt(lines: seq<string>, i: nat)
    requires i < |lines|
    ensures UncommentLines(lines)[i] == Uncomment(lines[i])
  {
    if i > 0 { UncommentAt(lines[1..], i - 1); }
  }

  function InLine(lines: seq<string>): (r: seq<string>)
    ensures |r| == |lines|
  {
    UncommentLines(TuneLines(lines))
  }

  predicate RlimitAfter(l: string) { IsRlimit(Uncomment(l)) }

  lemma InLineAt(lines: seq<string>, i: nat)
    requires i < |lines|
    ensures IsRlimit(InLine(lines)[i]) <==> RlimitAfter(lines[i])
    ensures EndsWith(InLine(lines)[i], PID) <==> EndsWith(lines[i], PID)
  {
    var l := lines[i];
    TuneAt(lines, i);
    UncommentAt(TuneLines(lines), i);
    Commute(l);
    TunedRlimit(Uncomment(l));
    PidTail();
    TunedEnds(l, PID);
    UncommentedEnds(l, PID);
    UncommentedEnds(Tuned(l), PID);
  }

  lemma InLineSame(lines: seq<string>)
    ensures Any(InLine(lines), IsRlimit) <==> Any(lines, RlimitAfter)
    ensures Before(InLine(lines), PID) <==> Before(lines, PID)
  {
    forall i | 0 <= i < |lines|
      ensures IsRlimit(InLine(lines)[i]) <==> RlimitAfter(lines[i])
      ensures EndsWith(InLine(lines)[i], PID) <==> EndsWith(lines[i], PID)
    {
      InLineAt(lines, i);
    }
  }

  lemma {:induction false} TuneLinesTwice(lines: seq<string>)
    ensures TuneLines(TuneLines(lines)) == TuneLines(lines)
  {
    if lines != [] {
      TunedTwice(lines[0]);
      if Retunable(lines[0]) {
        TuneCons(Tuned(lines[0]), lines[1..]);
      } else {
        TuneLinesTwice(lines[1..]);
        TuneCons(lines[0], TuneLines(lines[1..]));
      }
    }
  }

  lemma {:induction false} StagesCommute(lines: seq<string>)
    ensures TuneLines(UncommentLines(lines)) == UncommentLines(TuneLines(lines))
  {
    if lines != [] {
      Commute(lines[0]);
      StagesCommute(lines[1..]);
      TuneCons(Uncomment(lines[0]), UncommentLines(lines[1..]));
      if Retunable(lines[0]) {
        assert TuneLines(lines)[1..] == lines[1..];
      } else {
        assert TuneLines(lines)[1..] == TuneLines(lines[1..]);
      }
    }
  }

  lemma InLineSettled(lines: seq<string>)
    ensures TuneLines(InLine(lines)) == InLine(lines)
  {
    StagesCommute(TuneLines(lines));
    TuneLinesTwice(lines);
  }

  predicate HasTwice(l: string) { Contains(l, TWICE) }

  lemma {:induction false} UncommentLinesTwice(lines: seq<string>)
    ensures UncommentLines(UncommentLines(lines)) == UncommentLines(lines) <==> !Any(lines, HasTwice)
  {
    if lines != [] {
      var u := UncommentLines(lines);
      UncommentTwice(lines[0]);
      UncommentLinesTwice(lines[1..]);
      AnyCons(lines, HasTwice);
      assert u[0] == Uncomment(lines[0]) && u[1..] == UncommentLines(lines[1..]);
      assert UncommentLines(u)[0] == Uncomment(u[0]) && UncommentLines(u)[1..] == UncommentLines(u[1..]);
      assert u == [u[0]] + u[1..];
      assert UncommentLines(u) == [UncommentLines(u)[0]] + UncommentLines(u)[1..];
    }
  }

  lemma InLineTwice(lines: seq<string>)
    ensures AllHashes(UncommentLines(InLine(lines))) == AllHashes(InLine(lines)) <==> !Any(lines, HasTwice)
  {
    var u := UncommentLines(lines);
    StagesCommute(lines);
    StagesCommute(u);
    LinesHashes(u);
    LinesHashes(UncommentLines(u));
    UncommentLinesTwice(lines);
  }

  // ----- the last two stages settle -----

  lemma UseEpollQuiet(lines: seq<string>)
    ensures SameToFirst(lines, UseEpoll(lines))
  {
    EpollQuiet();
    if !HasEpoll(lines) { QuietPair(lines, EVENTS, [], EPOLL_LINE, EPOLL_LINE); }
  }

  lemma QuietPair(lines: seq<string>, x: string, next: seq<string>, l: string, k: string)
    requires Quiet(l) && Quiet(k)
    ensures SameToFirst(lines, Insert(lines, x, next, [l, k])) && SameToFirst(lines, Insert(lines, x, next, [k]))
  {
    hide *;
    QuietInsert(lines, x, next, [l, k]);
    QuietInsert(lines, x, next, [k]);
  }

  lemma KeepAliveQuiet(lines: seq<string>)
    ensures SameToFirst(lines, KeepAlive(lines))
  {
    TimeoutQuiet();
    RequestsQuiet();
    if !Any(lines, IsTimeout) {
      QuietPair(lines, BASIC, [BASIC_NEXT], TIMEOUT_LINE, REQUESTS_LINE);
    } else if !Any(lines, IsRequests) {
      QuietPair(lines, FirstLine(lines, IsTimeout), [], TIMEOUT_LINE, REQUESTS_LINE);
    }
  }

  lemma InsertAny(lines: seq<string>, x: string, next: seq<string>, added: seq<string>, p: string -> bool)
    ensures Any(lines, p) ==> Any(Insert(lines, x, next, added), p)
    ensures Any(added, p) && Insertable(lines, x, next) ==> Any(Insert(lines, x, next, added), p)
    ensures !Any(lines, p) && !Any(added, p) ==> !Any(Insert(lines, x, next, added), p)
  {
    var a, b := InsertSplits(lines, x, next, added);
    if Insertable(lines, x, next) { AnyAround(a, added, b, p); }
  }

  lemma InsertBefore(lines: seq<string>, x: string, next: seq<string>, added: seq<string>, y: string)
    requires forall i :: 0 <= i < |added| ==> !EndsWith(added[i], y)
    ensures Before(Insert(lines, x, next, added), y) <==> Before(lines, y)
  {
    var a, b := InsertSplits(lines, x, next, added);
    if Insertable(lines, x, next) { BeforeAround(a, added, b, y); }
  }

  // ----- an expression over several lines -----

  /** Nothing but what `use` and white space allow: more text could complete the expression. */
  predicate Open(s: string) {
    "use" <= SkipBlanks(s) && SkipSpaces(SkipBlanks(s)[3..]) == ""
  }

  lemma {:induction false} SkipBlanksOver(l: string, rest: string)
    ensures SkipBlanks(l + "\n" + rest) == SkipBlanks(l) + "\n" + rest
  {
    var s := l + "\n" + rest;
    if l != "" && IsBlank(l[0]) {
      assert s[0] == l[0] && s[1..] == l[1..] + "\n" + rest;
      SkipBlanksOver(l[1..], rest);
    } else if l == "" {
      assert s[0] == '\n';
    } else {
      assert s[0] == l[0];
    }
  }

  lemma {:induction false} SkipSpacesOver(l: string, rest: string)
    requires SkipSpaces(l) != ""
    ensures SkipSpaces(l + rest) == SkipSpaces(l) + rest
  {
    assert (l + rest)[0] == l[0] && (l + rest)[1..] == l[1..] + rest;
    if IsSpace(l[0]) { SkipSpacesOver(l[1..], rest); }
  }

  lemma PrefixOver(x: string, l: string, rest: string)
    requires '\n' !in x
    ensures x <= l + "\n" + rest <==> x <= l
  {
    if x <= l + "\n" + rest { PrefixInLine(x, l, rest); }
    if x <= l { assert l + "\n" + rest == x + (l[|x|..] + "\n" + rest); }
  }

  /** More text does not matter to a text that is not open. */
  lemma EpollOver(l: string, rest: string)
    requires !Open(l)
    ensures IsEpoll(l + "\n" + rest) <==> IsEpoll(l)
  {
    var t := SkipBlanks(l);
    SkipBlanksOver(l, rest);
    PrefixOver("use", t, rest);
    if "use" <= t {
      var u, more := t[3..], "\n" + rest;
      assert (t + "\n" + rest)[3..] == u + more == u + "\n" + rest;
      SkipSpacesOver(u, more);
      assert SkipSpaces(u) + more == SkipSpaces(u) + "\n" + rest;
      PrefixOver("epoll;", SkipSpaces(u), rest);
    }
  }

  predicate SolidChar(c: char) { !IsSpace(c) && c !in "use" }

  /** A line that is not open, and that no open text holds. */
  predicate Solid(l: string) { exists i :: 0 <= i < |l| && SolidChar(l[i]) }

  lemma {:induction false} BlanksSkipped(s: string, c: char)
    requires c in s
    ensures IsBlank(c) || c in SkipBlanks(s)
  {
    if IsBlank(s[0]) && c != s[0] { BlanksSkipped(s[1..], c); }
  }

  lemma OpenChars(s: string, c: char)
    requires Open(s) && c in s
    ensures !SolidChar(c)
  {
    BlanksSkipped(s, c);
    var t := SkipBlanks(s);
    var sp := SpacesSkipped(t[3..]);
    assert t == "use" + sp;
  }

  lemma SolidClosed(s: string, c: char)
    requires c in s && SolidChar(c)
    ensures !Open(s)
  {
    if Open(s) { OpenChars(s, c); }
  }

  lemma {:induction false} JoinHolds(lines: seq<string>, i: nat, c: char)
    requires i < |lines| && c in lines[i]
    ensures c in Join(lines, "\n")
  {
    if i > 0 { JoinHolds(lines[1..], i - 1, c); }
  }

  lemma LinesClosed(lines: seq<string>)
    requires lines != [] && Solid(lines[|lines| - 1])
    ensures !Open(Join(lines, "\n"))
  {
    var l := lines[|lines| - 1];
    var i :| 0 <= i < |l| && SolidChar(l[i]);
    JoinHolds(lines, |lines| - 1, l[i]);
    SolidClosed(Join(lines, "\n"), l[i]);
  }

  lemma {:induction false} JoinParts(a: seq<string>, b: seq<string>)
    requires a != [] && b != []
    ensures Join(a + b, "\n") == Join(a, "\n") + "\n" + Join(b, "\n")
  {
    var l, more := a[0], a[1..];
    assert (a + b)[1..] == more + b;
    if more == [] {
      assert more + b == b;
    } else {
      JoinParts(more, b);
      assert Join(a + b, "\n") == l + "\n" + (Join(more, "\n") + "\n" + Join(b, "\n"));
    }
  }

  /** No match reaches over a solid line. */
  lemma {:induction false} EpollApart(a: seq<string>, b: seq<string>)
    requires a != [] && b != [] && Solid(a[|a| - 1])
    ensures HasEpoll(a + b) <==> HasEpoll(a) || HasEpoll(b)
  {
    hide IsEpoll, Open, Solid;
    LinesClosed(a);
    JoinParts(a, b);
    EpollOver(Join(a, "\n"), Join(b, "\n"));
    assert (a + b)[1..] == a[1..] + b;
    if |a| == 1 {
      assert a[1..] + b == b;
    } else {
      EpollApart(a[1..], b);
    }
  }

  lemma EpollPair(l: string, k: string)
    requires Solid(l)
    ensures HasEpoll([k]) <==> IsEpoll(k)
    ensures HasEpoll([l, k]) <==> IsEpoll(l) || IsEpoll(k)
  {
    hide IsEpoll, Solid;
    assert [l] + [k] == [l, k];
    EpollApart([l], [k]);
    assert HasEpoll([k][1..]) == false && HasEpoll([l][1..]) == false;
  }

  /** Solid lines added after a solid line matter as far as they match themselves. */
  lemma EpollInserted(lines: seq<string>, x: string, next: seq<string>, added: seq<string>)
    requires Insertable(lines, x, next)
    requires forall l :: After(l, x, next) ==> Solid(l)
    requires added != [] && Solid(added[|added| - 1])
    ensures HasEpoll(Insert(lines, x, next, added)) <==> HasEpoll(lines) || HasEpoll(added)
  {
    hide IsEpoll, Solid, HasEpoll, Insert, Insertable;
    var a, b := InsertSplits(lines, x, next, added);
    EpollApart(a, b);
    EpollApart(added, b);
    assert (added + b)[|added| - 1] == added[|added| - 1];
    EpollApart(a, added + b);
    Associate(a, added, b);
  }

  lemma AddsOne(lines: seq<string>, x: string, next: seq<string>, l: string, p: string -> bool)
    requires !p(l)
    ensures Any(Insert(lines, x, next, [l]), p) <==> Any(lines, p)
  {
    assert !Any([l], p);
    InsertAny(lines, x, next, [l], p);
  }

  predicate OfNoConcern(l: string) { !IsEpoll(l) && !EndsWith(l, EVENTS) && Solid(l) }

  lemma AddsNothing(lines: seq<string>, x: string, next: seq<string>, l: string, k: string)
    requires OfNoConcern(l) && OfNoConcern(k) && forall z :: After(z, x, next) ==> Solid(z)
    ensures HasEpoll(Insert(lines, x, next, [l, k])) <==> HasEpoll(lines)
    ensures Before(Insert(lines, x, next, [l, k]), EVENTS) <==> Before(lines, EVENTS)
    ensures HasEpoll(Insert(lines, x, next, [k])) <==> HasEpoll(lines)
    ensures Before(Insert(lines, x, next, [k]), EVENTS) <==> Before(lines, EVENTS)
  {
    hide IsEpoll, Solid, HasEpoll, Insert, Insertable, After, Before, EndsWith;
    EpollPair(l, k);
    InsertBefore(lines, x, next, [l, k], EVENTS);
    InsertBefore(lines, x, next, [k], EVENTS);
    if Insertable(lines, x, next) {
      EpollInserted(lines, x, next, [l, k]);
      EpollInserted(lines, x, next, [k]);
    } else {
      var a, b := InsertSplits(lines, x, next, [l, k]);
      var c, d := InsertSplits(lines, x, next, [k]);
    }
  }

  lemma AddedSolid()
    ensures Solid(TIMEOUT_LINE) && Solid(REQUESTS_LINE)
  {
    assert SolidChar(TIMEOUT_LINE[1]) && SolidChar(REQUESTS_LINE[1]);
  }

  lemma AddedNoConcern()
    ensures OfNoConcern(TIMEOUT_LINE) && OfNoConcern(REQUESTS_LINE)
  {
    hide IsEpoll, EndsWith, Solid, Directive;
    AddedFound();
    AddedSolid();
  }

  lemma EndsSolid(l: string, x: string)
    requires EndsWith(l, x) && Solid(x)
    ensures Solid(l)
  {
    var i :| 0 <= i < |x| && SolidChar(x[i]);
    assert l[|l| - |x|..][i] == l[|l| - |x| + i];
  }

  lemma DirectiveSolid(l: string, word: string)
    requires Directive(l, word) && word != "" && SolidChar(word[0])
    ensures Solid(l)
  {
    SkippedChars(l, word[0]);
    var i :| 0 <= i < |l| && l[i] == word[0];
    assert SolidChar(l[i]);
  }

  lemma {:induction false} FirstLineIn(lines: seq<string>, p: string -> bool)
    requires Any(lines, p)
    ensures FirstLine(lines, p) in lines && p(FirstLine(lines, p))
  {
    AnyCons(lines, p);
    if !p(lines[0]) { FirstLineIn(lines[1..], p); }
  }

  /** The lines the last stage adds are of no concern to the stage before it. */
  lemma KeepAliveAdds(lines: seq<string>)
    ensures HasEpoll(KeepAlive(lines)) <==> HasEpoll(lines)
    ensures Before(KeepAlive(lines), EVENTS) <==> Before(lines, EVENTS)
  {
    hide HasEpoll, Before, Solid, OfNoConcern, EndsWith;
    AddedNoConcern();
    if !Any(lines, IsTimeout) {
      BasicSolid();
      AddsNothing(lines, BASIC, [BASIC_NEXT], TIMEOUT_LINE, REQUESTS_LINE);
    } else if !Any(lines, IsRequests) {
      var g := FirstLine(lines, IsTimeout);
      FirstLineIn(lines, IsTimeout);
      TimeoutSolid(g);
      forall z | After(z, g, []) ensures Solid(z) { EndsSolid(z, g); }
      AddsNothing(lines, g, [], TIMEOUT_LINE, REQUESTS_LINE);
    }
  }

  lemma BasicSolid()
    ensures Solid(BASIC_NEXT)
  {
    assert SolidChar(BASIC_NEXT[1]);
  }

  lemma TimeoutSolid(l: string)
    requires IsTimeout(l)
    ensures Solid(l)
  {
    assert SolidChar("keepalive_timeout"[0]);
    DirectiveSolid(l, "keepalive_timeout");
  }

  lemma EpollAdded(lines: seq<string>)
    requires Insertable(lines, EVENTS, [])
    ensures HasEpoll(Insert(lines, EVENTS, [], [EPOLL_LINE]))
  {
    EpollFound();
    assert SolidChar(EPOLL_LINE[6]) && SolidChar(EVENTS[1]);
    forall z | After(z, EVENTS, []) ensures Solid(z) { EndsSolid(z, EVENTS); }
    hide HasEpoll, IsEpoll, Solid, Insert, Insertable;
    EpollPair(EPOLL_LINE, EPOLL_LINE);
    EpollInserted(lines, EVENTS, [], [EPOLL_LINE]);
  }

  lemma UseEpollSettles(lines: seq<string>)
    ensures UseEpoll(KeepAlive(UseEpoll(lines))) == KeepAlive(UseEpoll(lines))
  {
    hide HasEpoll, KeepAlive, Before;
    var k := UseEpoll(lines);
    var m := KeepAlive(k);
    KeepAliveAdds(k);
    if Insertable(lines, EVENTS, []) { EpollAdded(lines); }
    InsertableBefore(lines, EVENTS);
    InsertableBefore(m, EVENTS);
    var a, b := InsertSplits(m, EVENTS, [], [EPOLL_LINE]);
    var c, d := InsertSplits(lines, EVENTS, [], [EPOLL_LINE]);
  }

  lemma KeepAliveSettles(lines: seq<string>)
    ensures KeepAlive(KeepAlive(lines)) == KeepAlive(lines)
  {
    AddedFound();
    var both, one, g := [TIMEOUT_LINE, REQUESTS_LINE], [REQUESTS_LINE], FirstLine(lines, IsTimeout);
    assert IsTimeout(both[0]) && IsRequests(both[1]) && IsRequests(one[0]);
    if !Any(lines, IsTimeout) {
      var a, b := InsertSplits(lines, BASIC, [BASIC_NEXT], both);
      InsertAny(lines, BASIC, [BASIC_NEXT], both, IsTimeout);
      InsertAny(lines, BASIC, [BASIC_NEXT], both, IsRequests);
    } else if !Any(lines, IsRequests) {
      var a, b := InsertSplits(lines, g, [], one);
      InsertAny(lines, g, [], one, IsTimeout);
      InsertAny(lines, g, [], one, IsRequests);
    }
  }

  // ----- running the script again -----

  lemma RunLooksLike(lines: seq<string>)
    ensures SameToFirst(InLine(LimitFiles(lines)), Patch(lines))
  {
    var k := InLine(LimitFiles(lines));
    UseEpollQuiet(k);
    KeepAliveQuiet(UseEpoll(k));
  }

  /** The file limit is set by a line that loses its word boundary when the comment behind it is taken away. */
  predicate LimitVanishes(lines: seq<string>) {
    Any(lines, IsRlimit) && !Any(lines, RlimitAfter) && Before(lines, PID)
  }

  lemma LimitStays(lines: seq<string>)
    ensures LimitFiles(lines) == lines <==> Any(lines, IsRlimit) || !Before(lines, PID)
    ensures LimitFiles(lines) != lines ==> |LimitFiles(lines)| == |lines| + 1
  {
    InsertableBefore(lines, PID);
    var a, b := InsertSplits(lines, PID, [], [RLIMIT_LINE]);
  }

  lemma LimitAdded(lines: seq<string>)
    requires !Any(lines, IsRlimit) && Before(lines, PID)
    ensures Any(LimitFiles(lines), RlimitAfter)
  {
    AddedFound();
    RlimitLineStays();
    InsertableBefore(lines, PID);
    assert RlimitAfter([RLIMIT_LINE][0]);
    InsertAny(lines, PID, [], [RLIMIT_LINE], RlimitAfter);
  }

  lemma LimitSettles(lines: seq<string>)
    ensures LimitFiles(Patch(lines)) == Patch(lines) <==> !LimitVanishes(lines)
  {
    RunLooksLike(lines);
    InLineSame(LimitFiles(lines));
    LimitStays(lines);
    LimitStays(Patch(lines));
    if !Any(lines, IsRlimit) && Before(lines, PID) { LimitAdded(lines); }
  }

  lemma NoHashNoTwice(l: string)
    requires '#' !in l
    ensures !HasTwice(l)
  {
    TwiceFacts();
    assert l + "" == l;
    ContainsSkip(l, "", TWICE);
  }

  lemma RlimitLineNotTwice()
    ensures !HasTwice(RLIMIT_LINE)
  {
    RlimitLineStays();
    NoHashNoTwice(RLIMIT_LINE);
  }

  lemma LimitHasTwice(lines: seq<string>)
    ensures Any(LimitFiles(lines), HasTwice) <==> Any(lines, HasTwice)
  {
    RlimitLineNotTwice();
    AddsOne(lines, PID, [], RLIMIT_LINE, HasTwice);
  }

  lemma UncommentSettles(lines: seq<string>)
    ensures AllHashes(UncommentLines(Patch(lines))) == AllHashes(Patch(lines)) <==> !Any(lines, HasTwice)
  {
    RunLooksLike(lines);
    InLineTwice(LimitFiles(lines));
    LimitHasTwice(lines);
  }

  lemma AddedAround(a: seq<string>, line: string, b: seq<string>)
    requires TuneLines(a + b) == a + b && Retune(line) == None && '#' !in line
    ensures AllHashes(InLine(a + [line] + b)) == AllHashes(UncommentLines(a + b))
  {
    TuneAround(a, [line], b);
    HashesAround(a, [line], b);
  }

  /** A first stage that adds its line leaves the work of the next two as it was. */
  lemma LimitedHashes(lines: seq<string>)
    requires TuneLines(lines) == lines
    ensures AllHashes(InLine(LimitFiles(lines))) == AllHashes(UncommentLines(lines))
  {
    var a, b := InsertSplits(lines, PID, [], [RLIMIT_LINE]);
    RlimitLineStays();
    if LimitFiles(lines) != lines { AddedAround(a, RLIMIT_LINE, b); }
  }

  /** Patching twice is patching once, exactly when no comment is commented out once more and the file limit does not
      vanish. */
  lemma PatchTwice(lines: seq<string>)
    ensures Patch(Patch(lines)) == Patch(lines) <==> !LimitVanishes(lines) && !Any(lines, HasTwice)
  {
    var m := Patch(lines);
    LimitSettles(lines);
    UncommentSettles(lines);
    RunLooksLike(lines);
    InLineSettled(LimitFiles(lines));
    LinesHashes(m);
    UseEpollSettles(InLine(LimitFiles(lines)));
    KeepAliveSettles(UseEpoll(InLine(LimitFiles(lines))));
    RunLooksLike(m);
    LimitStays(m);
    LimitedHashes(m);
  }
}
