/** Python's str.replace and what it does to a text line by line. */
module Rewriting {
  import opened Text

  predicate EndsWith(s: string, x: string) { |x| <= |s| && s[|s| - |x|..] == x }

  predicate Contains(s: string, x: string)
    requires x != ""
  {
    |x| <= |s| && (x <= s || Contains(s[1..], x))
  }

  /** str.replace with a count of 1. */
  function ReplaceFirst(s: string, what: string, into: string): string
    requires what != ""
  {
    if |s| < |what| then s
    else if what <= s then into + s[|what|..]
    else [s[0]] + ReplaceFirst(s[1..], what, into)
  }

  // ----- replacement, from the left -----

  lemma ReplaceHit(t: string, what: string, into: string)
    requires what != ""
    ensures ReplaceAll(what + t, what, into) == into + ReplaceAll(t, what, into)
  {
    assert (what + t)[|what|..] == t;
  }

  lemma ReplaceMiss(s: string, what: string, into: string)
    requires what != "" && s != "" && !(what <= s)
    ensures ReplaceAll(s, what, into) == [s[0]] + ReplaceAll(s[1..], what, into)
  {
    if |s| < |what| { assert s == [s[0]] + s[1..]; }
  }

  /** Text that cannot begin an occurrence is copied. */
  lemma {:induction false} ReplaceSkip(p: string, t: string, what: string, into: string)
    requires what != "" && what[0] !in p
    ensures ReplaceAll(p + t, what, into) == p + ReplaceAll(t, what, into)
  {
    hide *;
    if p == "" {
      assert p + t == t;
    } else {
      assert (p + t)[0] == p[0] && p[0] in p && (p + t)[1..] == p[1..] + t;
      ReplaceMiss(p + t, what, into);
      ReplaceSkip(p[1..], t, what, into);
      assert p == [p[0]] + p[1..];
    }
  }

  /** A printed prefix that no replacement can have begun was there before. */
  lemma {:induction false} ReplaceLead(p: string, s: string, what: string, into: string)
    requires what != "" && into != "" && into[0] !in p
    requires p <= ReplaceAll(s, what, into)
    ensures p <= s && ReplaceAll(s, what, into) == p + ReplaceAll(s[|p|..], what, into)
  {
    if p != "" {
      var r := ReplaceAll(s, what, into);
      assert p[0] == r[0] && p[0] in p;
      assert !(what <= s);
      ReplaceMiss(s, what, into);
      assert r[1..] == ReplaceAll(s[1..], what, into);
      ReplaceLead(p[1..], s[1..], what, into);
      assert p == [p[0]] + p[1..] && s == [s[0]] + s[1..];
      assert s[1..][|p[1..]|..] == s[|p|..];
    }
  }

  /** A text is left alone exactly when there is nothing to replace. */
  lemma {:induction false} ReplaceNothing(s: string, what: string, into: string)
    requires what != "" && |into| < |what|
    ensures |ReplaceAll(s, what, into)| <= |s|
    ensures ReplaceAll(s, what, into) == s <==> !Contains(s, what)
    decreases |s|
  {
    if |s| >= |what| {
      if what <= s {
        ReplaceNothing(s[|what|..], what, into);
      } else {
        ReplaceNothing(s[1..], what, into);
        assert s == [s[0]] + s[1..];
        assert ReplaceAll(s, what, into)[1..] == ReplaceAll(s[1..], what, into);
      }
    }
  }

  lemma {:induction false} ContainsSkip(p: string, t: string, x: string)
    requires x != "" && x[0] !in p
    ensures Contains(p + t, x) <==> Contains(t, x)
  {
    if p == "" {
      assert p + t == t;
    } else {
      assert (p + t)[0] == p[0] && p[0] in p && (p + t)[1..] == p[1..] + t;
      ContainsSkip(p[1..], t, x);
    }
  }

  // ----- line by line -----

  lemma LineHit(l: string, rest: string, what: string, into: string)
    requires what != "" && what <= l
    ensures ReplaceAll(l, what, into) == into + ReplaceAll(l[|what|..], what, into)
    ensures ReplaceAll(l + "\n" + rest, what, into) == into + ReplaceAll(l[|what|..] + "\n" + rest, what, into)
  {
    var t := l[|what|..];
    assert l == what + t && l + "\n" + rest == what + (t + "\n" + rest);
    ReplaceHit(t + "\n" + rest, what, into);
    ReplaceHit(t, what, into);
  }

  lemma LineMiss(l: string, rest: string, what: string, into: string)
    requires what != "" && l != "" && '\n' !in what && !(what <= l)
    ensures ReplaceAll(l, what, into) == [l[0]] + ReplaceAll(l[1..], what, into)
    ensures ReplaceAll(l + "\n" + rest, what, into) == [l[0]] + ReplaceAll(l[1..] + "\n" + rest, what, into)
  {
    hide *;
    var s := l + "\n" + rest;
    if what <= s { PrefixInLine(what, l, rest); }
    ReplaceMiss(s, what, into);
    ReplaceMiss(l, what, into);
    assert s[0] == l[0] && s[1..] == l[1..] + "\n" + rest;
  }

  lemma LineOver(rest: string, what: string, into: string)
    requires what != "" && '\n' !in what
    ensures ReplaceAll("\n" + rest, what, into) == "\n" + ReplaceAll(rest, what, into)
  {
    var s := "\n" + rest;
    assert s[0] == '\n' && s[1..] == rest && what[0] in what;
    ReplaceMiss(s, what, into);
  }

  /** Replacement in a line does not reach into the next. */
  lemma {:induction false} ReplaceLine(l: string, rest: string, what: string, into: string)
    requires what != "" && '\n' !in what
    ensures ReplaceAll(l + "\n" + rest, what, into) == ReplaceAll(l, what, into) + ("\n" + ReplaceAll(rest, what, into))
    decreases |l|
  {
    var after := "\n" + ReplaceAll(rest, what, into);
    if l == "" {
      assert l + "\n" + rest == "\n" + rest && ReplaceAll(l, what, into) == "";
      LineOver(rest, what, into);
    } else if what <= l {
      LineHit(l, rest, what, into);
      ReplaceLine(l[|what|..], rest, what, into);
      Associate(into, ReplaceAll(l[|what|..], what, into), after);
    } else {
      LineMiss(l, rest, what, into);
      ReplaceLine(l[1..], rest, what, into);
      Associate([l[0]], ReplaceAll(l[1..], what, into), after);
    }
  }

  lemma PrefixChars(what: string, s: string, c: char)
    requires what <= s && c in what
    ensures c in s
  {
    var i :| 0 <= i < |what| && what[i] == c;
    assert s[i] == c;
  }

  lemma BreakInside(what: string, l: string, rest: string)
    requires what <= l + "\n" + rest && |l| < |what|
    ensures '\n' in what
  {
    assert what[|l|] == (l + "\n" + rest)[|l|];
  }

  lemma PrefixInLine(what: string, l: string, rest: string)
    requires '\n' !in what && what <= l + "\n" + rest
    ensures what <= l
  {
    var s := l + "\n" + rest;
    if |l| < |what| { BreakInside(what, l, rest); }
    assert what == s[..|what|] == l[..|what|];
  }

  lemma FirstHere(rest: string, x: string, more: string, into: string)
    requires more <= rest
    ensures ReplaceFirst(x + "\n" + rest, x + "\n" + more, into) == into + rest[|more|..]
  {
    var what := x + "\n" + more;
    assert x + "\n" + rest == what + rest[|more|..];
    assert (what + rest[|more|..])[|what|..] == rest[|more|..];
  }

  lemma FirstLater(l: string, rest: string, x: string, more: string, into: string)
    requires '\n' !in l && '\n' !in x && l != "" && !(l == x && more <= rest)
    ensures ReplaceFirst(l + "\n" + rest, x + "\n" + more, into) ==
            [l[0]] + ReplaceFirst(l[1..] + "\n" + rest, x + "\n" + more, into)
  {
    var s, what := l + "\n" + rest, x + "\n" + more;
    if what <= s { LineEnd(l, rest, x, more); }
    ReplaceFirstMiss(s, what, into);
    assert s[0] == l[0] && s[1..] == l[1..] + "\n" + rest;
  }

  lemma FirstOver(rest: string, x: string, more: string, into: string)
    requires '\n' !in x && x != ""
    ensures ReplaceFirst("" + "\n" + rest, x + "\n" + more, into) ==
            "" + "\n" + ReplaceFirst(rest, x + "\n" + more, into)
  {
    var s, what := "" + "\n" + rest, x + "\n" + more;
    if what <= s { LineEnd("", rest, x, more); }
    ReplaceFirstMiss(s, what, into);
    assert s[0] == '\n' && s[1..] == rest;
  }

  /** `hit` after what stands before the line ending, or else `miss` after the whole line. */
  function Ending(l: string, x: string, found: bool, hit: string, miss: string): string {
    if found && EndsWith(l, x) then l[..|l| - |x|] + hit else l + miss
  }

  lemma EndingStep(l: string, x: string, found: bool, hit: string, miss: string)
    requires l != "" && x != "" && !(l == x && found)
    ensures Ending(l, x, found, hit, miss) == [l[0]] + Ending(l[1..], x, found, hit, miss)
  {
    assert l == [l[0]] + l[1..];
    Associate([l[0]], l[1..], miss);
    if l != x { EndsTail(l, x); }
    if found && EndsWith(l, x) { Associate([l[0]], l[1..][..|l[1..]| - |x|], hit); }
  }

  /** The first occurrence of a line ending, followed by fixed text. */
  lemma {:induction false} ReplaceFirstLine(l: string, rest: string, x: string, more: string, into: string)
    requires '\n' !in l && '\n' !in x && x != ""
    ensures ReplaceFirst(l + "\n" + rest, x + "\n" + more, into) ==
            Ending(l, x, more <= rest, if more <= rest then into + rest[|more|..] else "",
                   "\n" + ReplaceFirst(rest, x + "\n" + more, into))
  {
    var hit := if more <= rest then into + rest[|more|..] else "";
    if l == x && more <= rest {
      FirstHere(rest, x, more, into);
      assert l[..0] == "";
    } else if l == "" {
      FirstOver(rest, x, more, into);
    } else {
      FirstLater(l, rest, x, more, into);
      ReplaceFirstLine(l[1..], rest, x, more, into);
      EndingStep(l, x, more <= rest, hit, "\n" + ReplaceFirst(rest, x + "\n" + more, into));
    }
  }

  lemma ReplaceFirstMiss(s: string, what: string, into: string)
    requires what != "" && s != "" && !(what <= s)
    ensures ReplaceFirst(s, what, into) == [s[0]] + ReplaceFirst(s[1..], what, into)
  {
    if |s| < |what| { assert s == [s[0]] + s[1..]; }
  }

  lemma ReplaceFirstHit(t: string, what: string, into: string)
    requires what != ""
    ensures ReplaceFirst(what + t, what, into) == into + t
  {
    assert (what + t)[|what|..] == t;
  }

  lemma {:induction false} ReplaceFirstSkip(p: string, t: string, what: string, into: string)
    requires what != "" && what[0] !in p
    ensures ReplaceFirst(p + t, what, into) == p + ReplaceFirst(t, what, into)
  {
    if p == "" {
      assert p + t == t;
    } else {
      assert (p + t)[0] == p[0] && p[0] in p && (p + t)[1..] == p[1..] + t;
      ReplaceFirstMiss(p + t, what, into);
      ReplaceFirstSkip(p[1..], t, what, into);
      assert p == [p[0]] + p[1..];
    }
  }

  lemma {:induction false} ReplaceFirstLead(p: string, s: string, what: string, into: string)
    requires what != "" && into != "" && into[0] !in p && p <= ReplaceFirst(s, what, into)
    ensures p <= s
  {
    if p != "" && |s| >= |what| {
      assert p[0] == ReplaceFirst(s, what, into)[0] && p[0] in p;
      ReplaceFirstMiss(s, what, into);
      assert p[1..] <= ReplaceFirst(s[1..], what, into) by {
        assert ReplaceFirst(s, what, into)[1..] == ReplaceFirst(s[1..], what, into);
      }
      ReplaceFirstLead(p[1..], s[1..], what, into);
      assert p == [p[0]] + p[1..] && s == [s[0]] + s[1..];
    }
  }

  lemma EndsTail(l: string, x: string)
    requires l != "" && l != x && x != ""
    ensures EndsWith(l, x) <==> EndsWith(l[1..], x)
    ensures EndsWith(l, x) ==> l[..|l| - |x|] == [l[0]] + l[1..][..|l[1..]| - |x|]
  {
    if |l| > |x| { assert l[|l| - |x|..] == l[1..][|l[1..]| - |x|..]; }
  }

  lemma LineEnd(l: string, rest: string, x: string, more: string)
    requires '\n' !in l && '\n' !in x && x + "\n" + more <= l + "\n" + rest
    ensures l == x && more <= rest
  {
    var tail := (l + "\n" + rest)[|x + "\n" + more|..];
    assert l + "\n" + rest == x + "\n" + (more + tail);
    CutFirstAt(l, rest, '\n');
    CutFirstAt(x, more + tail, '\n');
  }

  lemma {:induction false} ReplaceFirstAbsent(s: string, what: string, into: string, c: char)
    requires what != "" && c in what && c !in s
    ensures ReplaceFirst(s, what, into) == s
  {
    if |s| >= |what| {
      if what <= s { PrefixChars(what, s, c); }
      ReplaceFirstAbsent(s[1..], what, into, c);
    }
  }
}
