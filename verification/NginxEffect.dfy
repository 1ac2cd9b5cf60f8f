/** What the tuning script does to nginx.conf, stage by stage, in terms of where texts occur. */
module NginxEffect {
  import opened Text
  import opened Rewriting
  import opened Matching
  import opened Tuning

  // ----- the stages -----

  /** Unless a line sets it, the file limit is set behind the first line that names the process file. */
  ghost predicate LimitSet(s: string, r: string) {
    if HasDirective(s, "worker_rlimit_nofile") then r == s
    else FirstReplaced(s, "pid /run/nginx.pid;\n", "pid /run/nginx.pid;\nworker_rlimit_nofile 200000;\n", r)
  }

  ghost predicate Uncommented(s: string, r: string) {
    AllReplaced(s, "# multi_accept on;", "multi_accept on;", r)
  }

  /** Unless a line says so already, epoll is used in the first events block that opens at the end of a line. */
  ghost predicate EpollUsed(s: string, r: string) {
    if HasUseEpoll(s) then r == s else FirstReplaced(s, "events {\n", "events {\n\tuse epoll;\n", r)
  }

  /** `l` is the first line that begins with the directive, without its line break. */
  ghost predicate DirectiveLine(text: string, word: string, a: string, l: string, b: string) {
    && text == a + l + b && LineStart(a) && '\n' !in l && (b == "" || b[0] == '\n') && BeginsDirective(l, word)
    && forall i :: 0 <= i < |a| && LineStart(text[..i]) ==> !BeginsDirective(text[i..], word)
  }

  ghost predicate RequestsAdded(s: string, r: string) {
    exists a, l, b ::
      DirectiveLine(s, "keepalive_timeout", a, l, b) &&
      FirstReplaced(s, l + "\n", l + "\n\tkeepalive_requests 1000;\n", r)
  }

  /** Without a time-out both lines are added under the basic settings; with one the limit on requests alone, behind
      the first text that reads like the line with the time-out, and only when there is none. */
  ghost predicate KeptAlive(s: string, r: string) {
    if !HasDirective(s, "keepalive_timeout") then
      FirstReplaced(s, "\t# Basic Settings\n\t##\n",
                    "\t# Basic Settings\n\t##\n" + ("\tkeepalive_timeout 15;\n" + "\tkeepalive_requests 1000;\n"), r)
    else if !HasDirective(s, "keepalive_requests") then RequestsAdded(s, r)
    else r == s
  }

  /** The whole script. Every stage determines what it leaves. */
  ghost predicate Patched(original: string, text: string) {
    exists limited, raised, plain, polled ::
      LimitSet(original, limited) && ConnectionsRaised(limited, raised) && Uncommented(raised, plain) &&
      EpollUsed(plain, polled) && KeptAlive(polled, text)
  }

  // ----- what is added -----

  predicate AddedBetween(s: string, added: string, r: string, a: string, b: string) {
    a != "" && a[|a| - 1] == '\n' && s == a + b && r == a + added + b
  }

  /** `r` is `s`, or what a line break of `s` leaves on its two sides with `added` in between. */
  ghost predicate MayAdd(s: string, added: string, r: string) {
    r == s || exists a, b :: AddedBetween(s, added, r, a, b)
  }

  ghost predicate KeepAliveAdded(s: string, r: string) {
    MayAdd(s, "\tkeepalive_timeout 15;\n" + "\tkeepalive_requests 1000;\n", r) ||
    MayAdd(s, "\tkeepalive_requests 1000;\n", r)
  }

  /** Nothing is lost: the output is the text with the two rewrites inside lines, and some of four whole lines more. */
  ghost predicate OnlyAdds(original: string, text: string) {
    exists raised, plain, limited, polled ::
      ConnectionsRaised(original, raised) && Uncommented(raised, plain) &&
      MayAdd(plain, "worker_rlimit_nofile 200000;\n", limited) && MayAdd(limited, "\tuse epoll;\n", polled) &&
      KeepAliveAdded(polled, text)
  }

  lemma ReplacedAdds(s: string, x: string, added: string, r: string)
    requires FirstReplaced(s, x + "\n", x + "\n" + added, r)
    ensures MayAdd(s, added, r)
  {
    if r != s {
      var a, b :| FirstBetween(s, a, x + "\n", b) && r == a + (x + "\n" + added) + b;
      var front := a + (x + "\n");
      assert s == front + b && r == front + added + b && front[|front| - 1] == '\n';
      assert AddedBetween(s, added, r, front, b);
    }
  }

  lemma EpollLineAdded(s: string, r: string)
    requires EpollUsed(s, r)
    ensures MayAdd(s, "\tuse epoll;\n", r)
  {
    hide HasUseEpoll, FirstReplaced, MayAdd;
    if !HasUseEpoll(s) {
      EpollTexts();
      ReplacedAdds(s, "events {", "\tuse epoll;\n", r);
    } else {
      NothingAdded(s, "\tuse epoll;\n");
    }
  }

  lemma NothingAdded(s: string, added: string)
    ensures MayAdd(s, added, s)
  {
  }

  lemma EpollTexts()
    ensures "events {\n" == "events {" + "\n" && "events {\n\tuse epoll;\n" == "events {" + "\n" + "\tuse epoll;\n"
  {
  }

  lemma BasicTexts()
    ensures "\t# Basic Settings\n\t##\n" == "\t# Basic Settings\n\t##" + "\n"
  {
  }

  lemma RequestsText(l: string)
    ensures l + "\n\tkeepalive_requests 1000;\n" == l + "\n" + "\tkeepalive_requests 1000;\n"
  {
  }

  lemma KeepAliveLinesAdded(s: string, r: string)
    requires KeptAlive(s, r)
    ensures KeepAliveAdded(s, r)
  {
    hide HasDirective, FirstReplaced, MayAdd, DirectiveLine;
    if !HasDirective(s, "keepalive_timeout") {
      BasicTexts();
      ReplacedAdds(s, "\t# Basic Settings\n\t##", "\tkeepalive_timeout 15;\n" + "\tkeepalive_requests 1000;\n", r);
    } else if !HasDirective(s, "keepalive_requests") {
      var a, l, b :|
        DirectiveLine(s, "keepalive_timeout", a, l, b) &&
        FirstReplaced(s, l + "\n", l + "\n\tkeepalive_requests 1000;\n", r);
      RequestsText(l);
      ReplacedAdds(s, l, "\tkeepalive_requests 1000;\n", r);
    } else {
      NothingAdded(s, "\tkeepalive_requests 1000;\n");
    }
  }

  /** Uncommenting does not reach over a line break. */
  lemma UncommentOver(a: string, b: string)
    ensures Uncomment(a + "\n" + b) == Uncomment(a) + ("\n" + Uncomment(b))
  {
    assert '\n' !in COMMENTED;
    ReplaceLine(a, b, COMMENTED, ENABLED);
  }

  lemma LimitUncommented(t: string)
    ensures Uncomment("worker_rlimit_nofile 200000;\n" + t) == "worker_rlimit_nofile 200000;\n" + Uncomment(t)
  {
    ReplaceSkip("worker_rlimit_nofile 200000;\n", t, COMMENTED, ENABLED);
  }

  /** A line added between two lines is added between two lines of the uncommented text. */
  lemma LimitLineAdded(s: string, r: string)
    requires MayAdd(s, "worker_rlimit_nofile 200000;\n", r)
    ensures MayAdd(Uncomment(s), "worker_rlimit_nofile 200000;\n", Uncomment(r))
  {
    hide Uncomment;
    var added := "worker_rlimit_nofile 200000;\n";
    if r != s {
      var a, b :| AddedBetween(s, added, r, a, b);
      var front := a[..|a| - 1];
      assert a == front + "\n";
      UncommentOver(front, b);
      UncommentOver(front, added + b);
      LimitUncommented(b);
      Associate(a, added, b);
      BetweenBreaks(Uncomment(front), added, Uncomment(b));
      assert AddedBetween(Uncomment(s), added, Uncomment(r), Uncomment(front) + "\n", Uncomment(b));
    }
  }

  lemma BetweenBreaks(a: string, added: string, b: string)
    ensures a + ("\n" + b) == a + "\n" + b && a + ("\n" + (added + b)) == a + "\n" + added + b
  {
  }
}
