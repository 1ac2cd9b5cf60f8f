/** Strings as sequences of bytes, and the string operations both registries are built from.
    A Go string is a byte sequence: here a `char` below 256 stands for one byte. */
module Text {
  /** The conventional optional value; `:-` propagates None. */
  datatype Option<+T> = None | Some(value: T) {
    predicate IsFailure() { None? }
    function PropagateFailure<U>(): Option<U> requires None? { None }
    function Extract(): T requires Some? { value }
    function GetOr(default: T): T { if Some? then value else default }
  }

  /** All the values, unless one is missing. */
  function Gather<T>(found: seq<Option<T>>): Option<seq<T>> {
    if found == [] then Some([])
    else
      var init :- Gather(found[..|found| - 1]);
      var last :- found[|found| - 1];
      Some(init + [last])
  }

  lemma GatherLast<T>(init: seq<Option<T>>, last: Option<T>)
    ensures Gather(init + [last]) ==
            if Gather(init).Some? && last.Some? then Some(Gather(init).value + [last.value]) else None
  {
    assert (init + [last])[..|init|] == init;
  }

  lemma {:induction false} GatherAll<T>(found: seq<Option<T>>)
    ensures Gather(found).Some? <==> forall i :: 0 <= i < |found| ==> found[i].Some?
    ensures Gather(found).Some? ==> |Gather(found).value| == |found|
  {
    if found != [] {
      var init := found[..|found| - 1];
      GatherAll(init);
      assert forall i :: 0 <= i < |init| ==> init[i] == found[i];
    }
  }

  lemma {:induction false} GatherAt<T>(found: seq<Option<T>>, i: nat)
    requires Gather(found).Some? && i < |found| == |Gather(found).value|
    ensures found[i] == Some(Gather(found).value[i])
  {
    var init := found[..|found| - 1];
    GatherAll(init);
    if i < |init| { GatherAt(init, i); }
  }

  predicate AllBytes(s: string) {
    forall i :: 0 <= i < |s| ==> s[i] as int < 256
  }

  type Bytes = s: string | AllBytes(s) witness ""

  predicate IsDigit(c: char) { '0' <= c <= '9' }

  predicate IsAlnum(c: char) { '0' <= c <= '9' || 'A' <= c <= 'Z' || 'a' <= c <= 'z' }

  /** Replacement of every non-overlapping occurrence of `what`, found from the left. */
  function ReplaceAll(s: string, what: string, into: string): string
    requires what != ""
  {
    if |s| < |what| then s
    else if what <= s then into + ReplaceAll(s[|what|..], what, into)
    else [s[0]] + ReplaceAll(s[1..], what, into)
  }

  function Join(parts: seq<string>, sep: string): string {
    if |parts| == 0 then ""
    else if |parts| == 1 then parts[0]
    else parts[0] + sep + Join(parts[1..], sep)
  }

  /** The pieces between the occurrences of `c`: always at least one. */
  function Split(s: string, c: char): (parts: seq<string>)
    ensures |parts| >= 1
  {
    if s == "" then [""]
    else
      var rest := Split(s[1..], c);
      if s[0] == c then [""] + rest else [[s[0]] + rest[0]] + rest[1..]
  }

  /** Cut at the first occurrence of `c`. */
  function CutFirst(s: string, c: char): (r: Option<(string, string)>)
    ensures r.Some? ==> |r.value.0| + 1 + |r.value.1| == |s|
  {
    if s == "" then None
    else if s[0] == c then Some(("", s[1..]))
    else
      var (a, b) :- CutFirst(s[1..], c);
      Some(([s[0]] + a, b))
  }

  /** Cut at the last occurrence of `c`. */
  function CutLast(s: string, c: char): Option<(string, string)> {
    if s == "" then None
    else if s[|s| - 1] == c then Some((s[..|s| - 1], ""))
    else
      var (a, b) :- CutLast(s[..|s| - 1], c);
      Some((a, b + [s[|s| - 1]]))
  }

  /** The text after the literal `lit`, when the text starts with it. */
  function Expect(lit: string, s: string): Option<string> {
    if lit <= s then Some(s[|lit|..]) else None
  }

  /** Every line followed into a line feed. */
  function Unlines(lines: seq<string>): string {
    if lines == [] then "" else Unlines(lines[..|lines| - 1]) + lines[|lines| - 1] + "\n"
  }

  lemma Associate<T>(a: seq<T>, b: seq<T>, c: seq<T>)
    ensures a + (b + c) == a + b + c
  {
  }

  lemma SameElements<T>(a: seq<T>, b: seq<T>)
    requires |a| == |b|
    ensures a == b <==> forall i :: 0 <= i < |a| ==> a[i] == b[i]
  {
  }

  // ----- the two languages -----

  /** The two implementations. A JavaScript string is represented by its UTF-8 encoding. */
  datatype Side = Go | Js

  predicate IsAscii(s: string) {
    forall i :: 0 <= i < |s| ==> s[i] as int < 128
  }

  /** The bytes of the first character of a UTF-8 text. */
  function CharBytes(s: string): (k: nat)
    requires s != ""
    ensures 1 <= k <= |s|
  {
    var c := s[0] as int;
    if c >= 0xF0 && |s| >= 4 then 4
    else if 0xE0 <= c < 0xF0 && |s| >= 3 then 3
    else if 0xC0 <= c < 0xE0 && |s| >= 2 then 2
    else 1
  }

  /** The length of a JavaScript string: UTF-16 units, two of them for a character of four bytes. */
  function Utf16Length(s: string): nat {
    if s == "" then 0 else (if CharBytes(s) == 4 then 2 else 1) + Utf16Length(s[CharBytes(s)..])
  }

  /** Go counts bytes, so it never counts less. */
  lemma {:induction false} Utf16Shorter(s: string)
    ensures Utf16Length(s) <= |s|
  {
    if s != "" { Utf16Shorter(s[CharBytes(s)..]); }
  }

  lemma {:induction false} Utf16Ascii(s: string)
    requires IsAscii(s)
    ensures Utf16Length(s) == |s|
  {
    if s != "" { Utf16Ascii(s[1..]); }
  }

  /** The characters of a text as single bytes, which is what `btoa` works on; None, an exception there, for a character
      above U+00FF. */
  function Latin1(s: string): (r: Option<Bytes>)
    ensures r.Some? ==> |r.value| <= |s|
  {
    if s == "" then Some("")
    else if s[0] as int < 0x80 then
      var rest :- Latin1(s[1..]);
      Some([s[0]] + rest)
    else if |s| >= 2 && 0xC2 <= s[0] as int <= 0xC3 && 0x80 <= s[1] as int < 0xC0 then
      var rest :- Latin1(s[2..]);
      Some([((s[0] as int - 0xC0) * 64 + (s[1] as int - 0x80)) as char] + rest)
    else None
  }

  /** `btoa` sees the bytes Go encodes exactly when the text is ASCII. */
  lemma {:induction false} Latin1Same(s: string)
    ensures Latin1(s) == Some(s) <==> IsAscii(s)
    ensures Latin1(s).Some? && !IsAscii(s) ==> |Latin1(s).value| < |s|
  {
    if s != "" {
      assert s == [s[0]] + s[1..];
      if s[0] as int < 0x80 {
        Latin1Same(s[1..]);
        assert IsAscii(s) <==> IsAscii(s[1..]);
        if Latin1(s[1..]).Some? { assert Latin1(s).value[1..] == Latin1(s[1..]).value; }
      }
    }
  }

  /** An ASCII character is in the one text exactly when it is in the other, at the matching place. */
  lemma {:induction false} Latin1Ascii(s: string, c: char)
    requires Latin1(s).Some? && c as int < 0x80
    ensures c in s <==> c in Latin1(s).value
  {
    if s != "" {
      var k := if s[0] as int < 0x80 then 1 else 2;
      Latin1Ascii(s[k..], c);
      assert s == s[..k] + s[k..];
    }
  }

  // ----- trimming -----

  /** The length of the white-space character a UTF-8 text starts with; 0 if none. Go's unicode.IsSpace and JavaScript's
      trim differ on U+0085, which only Go takes, and U+FEFF, which only JavaScript takes. */
  function SpacePrefix(side: Side, s: string): (k: nat)
    ensures k <= |s|
  {
    if s == "" then 0
    else if s[0] == ' ' || 9 <= s[0] as int <= 13 then 1
    else if |s| < 2 then 0
    else if s[0] as int == 0xC2 && (s[1] as int == 0xA0 || (s[1] as int == 0x85 && side == Go)) then 2
    else if |s| < 3 then 0
    else
      var a, b, c := s[0] as int, s[1] as int, s[2] as int;
      if || (a == 0xE1 && b == 0x9A && c == 0x80)
         || (a == 0xE2 && b == 0x80 && (0x80 <= c <= 0x8A || c == 0xA8 || c == 0xA9 || c == 0xAF))
         || (a == 0xE2 && b == 0x81 && c == 0x9F)
         || (a == 0xE3 && b == 0x80 && c == 0x80)
         || (a == 0xEF && b == 0xBB && c == 0xBF && side == Js)
      then 3 else 0
  }

  /** The last `k` bytes are one white-space character. */
  predicate EndsInSpace(side: Side, s: string, k: nat) {
    k <= |s| && SpacePrefix(side, s[|s| - k..]) == k
  }

  function SpaceSuffix(side: Side, s: string): (k: nat)
    ensures k <= |s|
  {
    if EndsInSpace(side, s, 1) then 1
    else if EndsInSpace(side, s, 2) then 2
    else if EndsInSpace(side, s, 3) then 3
    else 0
  }

  function TrimLeft(side: Side, s: string): string
    decreases |s|
  {
    if SpacePrefix(side, s) == 0 then s else TrimLeft(side, s[SpacePrefix(side, s)..])
  }

  function TrimRight(side: Side, s: string): string
    decreases |s|
  {
    if SpaceSuffix(side, s) == 0 then s else TrimRight(side, s[..|s| - SpaceSuffix(side, s)])
  }

  /** Go's strings.TrimSpace and JavaScript's trim. */
  function TrimSpace(side: Side, s: string): string { TrimRight(side, TrimLeft(side, s)) }

  lemma {:induction false} TrimLeftChars(side: Side, s: string, c: char)
    requires c in TrimLeft(side, s)
    ensures c in s
    decreases |s|
  {
    if SpacePrefix(side, s) != 0 { TrimLeftChars(side, s[SpacePrefix(side, s)..], c); }
  }

  lemma {:induction false} TrimRightChars(side: Side, s: string, c: char)
    requires c in TrimRight(side, s)
    ensures c in s
    decreases |s|
  {
    if SpaceSuffix(side, s) != 0 { TrimRightChars(side, s[..|s| - SpaceSuffix(side, s)], c); }
  }

  lemma TrimSpaceChars(side: Side, s: string, c: char)
    requires c in TrimSpace(side, s)
    ensures c in s
  {
    TrimRightChars(side, TrimLeft(side, s), c);
    TrimLeftChars(side, s, c);
  }

  predicate IsAsciiSpace(c: char) { c == ' ' || 9 <= c as int <= 13 }

  lemma AsciiPrefix(side: Side, s: string)
    requires IsAscii(s)
    ensures SpacePrefix(side, s) == if s != "" && IsAsciiSpace(s[0]) then 1 else 0
  {
  }

  lemma AsciiEnd(side: Side, s: string, k: nat)
    requires IsAscii(s) && k >= 1
    ensures EndsInSpace(side, s, k) <==> k == 1 && s != "" && IsAsciiSpace(s[|s| - 1])
  {
    if k <= |s| {
      var end := s[|s| - k..];
      assert IsAscii(end) && end[0] == s[|s| - k];
      AsciiPrefix(side, end);
    }
  }

  lemma AsciiSuffix(side: Side, s: string)
    requires IsAscii(s)
    ensures SpaceSuffix(side, s) == if s != "" && IsAsciiSpace(s[|s| - 1]) then 1 else 0
  {
    AsciiEnd(side, s, 1);
    AsciiEnd(side, s, 2);
    AsciiEnd(side, s, 3);
  }

  lemma {:induction false} TrimLeftAgree(s: string)
    requires IsAscii(s)
    ensures TrimLeft(Go, s) == TrimLeft(Js, s) && IsAscii(TrimLeft(Go, s))
    decreases |s|
  {
    AsciiPrefix(Go, s);
    AsciiPrefix(Js, s);
    if SpacePrefix(Go, s) != 0 { TrimLeftAgree(s[1..]); }
  }

  lemma {:induction false} TrimRightAgree(s: string)
    requires IsAscii(s)
    ensures TrimRight(Go, s) == TrimRight(Js, s)
    decreases |s|
  {
    AsciiSuffix(Go, s);
    AsciiSuffix(Js, s);
    if SpaceSuffix(Go, s) != 0 { TrimRightAgree(s[..|s| - 1]); }
  }

  /** On ASCII text the two trims agree. */
  lemma TrimAgree(s: string)
    requires IsAscii(s)
    ensures TrimSpace(Go, s) == TrimSpace(Js, s)
  {
    TrimLeftAgree(s);
    TrimRightAgree(TrimLeft(Go, s));
  }

  /** What is left after the white space both know. */
  function TrimCommon(s: string): string
    decreases |s|
  {
    if SpacePrefix(Go, s) == 0 || SpacePrefix(Js, s) == 0 then s else TrimCommon(s[SpacePrefix(Go, s)..])
  }

  /** The text begins with U+0085 or U+FEFF, white space to one of the two only. */
  predicate Divides(s: string) {
    (|s| >= 2 && s[0] as int == 0xC2 && s[1] as int == 0x85) ||
    (|s| >= 3 && s[0] as int == 0xEF && s[1] as int == 0xBB && s[2] as int == 0xBF)
  }

  lemma DividesPrefix(s: string)
    ensures if Divides(s) then (SpacePrefix(Go, s) == 0) != (SpacePrefix(Js, s) == 0)
            else SpacePrefix(Go, s) == SpacePrefix(Js, s)
  {
  }

  lemma {:induction false} TrimLeftLength(side: Side, s: string)
    ensures |TrimLeft(side, s)| <= |s| && (SpacePrefix(side, s) > 0 ==> |TrimLeft(side, s)| < |s|)
    decreases |s|
  {
    if SpacePrefix(side, s) > 0 { TrimLeftLength(side, s[SpacePrefix(side, s)..]); }
  }

  /** Left trimming agrees exactly when the first character that is not white space to both is so to neither. */
  lemma {:induction false} TrimLeftSame(s: string)
    ensures TrimLeft(Go, s) == TrimLeft(Js, s) <==> !Divides(TrimCommon(s))
    decreases |s|
  {
    DividesPrefix(s);
    if SpacePrefix(Go, s) != 0 && SpacePrefix(Js, s) != 0 {
      TrimLeftSame(s[SpacePrefix(Go, s)..]);
    } else {
      TrimLeftLength(Go, s);
      TrimLeftLength(Js, s);
    }
  }

  // ----- one-character replacement -----

  lemma ReplaceOne(x: char, c: char, into: string)
    ensures ReplaceAll([x], [c], into) == if x == c then into else [x]
  {
    assert ([c] <= [x]) == ([c][0] == [x][0]);
    assert [x][1..] == "";
  }

  lemma {:induction false} ReplaceCharAppend(s: string, t: string, c: char, into: string)
    ensures ReplaceAll(s + t, [c], into) == ReplaceAll(s, [c], into) + ReplaceAll(t, [c], into)
  {
    if s == "" {
      assert s + t == t;
    } else {
      assert (s + t)[0] == s[0] && (s + t)[1..] == s[1..] + t;
      ReplaceCharAppend(s[1..], t, c, into);
      assert ([c] <= s) == (s[0] == c) == ([c] <= s + t);
    }
  }

  lemma {:induction false} ReplaceCharChars(s: string, c: char, into: string, x: char)
    ensures x in ReplaceAll(s, [c], into) <==> (x in s && x != c) || (c in s && x in into)
  {
    if s != "" {
      ReplaceCharChars(s[1..], c, into, x);
      assert s == [s[0]] + s[1..];
      assert ([c] <= s) == (s[0] == c);
    }
  }

  lemma {:induction false} ReplaceAbsentChar(s: string, c: char, into: string)
    requires c !in s
    ensures ReplaceAll(s, [c], into) == s
  {
    if s != "" {
      assert s[0] in s;
      ReplaceAbsentChar(s[1..], c, into);
    }
  }

  // ----- splitting undoes joining -----

  lemma {:induction false} SplitPiece(p: string, rest: string, c: char)
    requires c !in p
    ensures Split(p + [c] + rest, c) == [p] + Split(rest, c)
  {
    var s := p + [c] + rest;
    if p == "" {
      assert s[1..] == rest;
    } else {
      assert s[1..] == p[1..] + [c] + rest;
      SplitPiece(p[1..], rest, c);
      assert s[0] == p[0] && p == [p[0]] + p[1..];
    }
  }

  lemma {:induction false} SplitLast(p: string, c: char)
    requires c !in p
    ensures Split(p, c) == [p]
  {
    if p != "" {
      SplitLast(p[1..], c);
      assert p == [p[0]] + p[1..];
    }
  }

  lemma {:induction false} SplitJoin(parts: seq<string>, c: char)
    requires |parts| >= 1
    requires forall p :: p in parts ==> c !in p
    ensures Split(Join(parts, [c]), c) == parts
  {
    if |parts| == 1 {
      SplitLast(parts[0], c);
    } else {
      SplitJoin(parts[1..], c);
      SplitPiece(parts[0], Join(parts[1..], [c]), c);
    }
  }

  lemma {:induction false} JoinSnoc(parts: seq<string>, last: string, sep: string)
    requires |parts| >= 1
    ensures Join(parts + [last], sep) == Join(parts, sep) + sep + last
  {
    if |parts| > 1 {
      JoinSnoc(parts[1..], last, sep);
      assert (parts + [last])[1..] == parts[1..] + [last];
    }
  }

  lemma {:induction false} JoinSplit(s: string, c: char)
    ensures Join(Split(s, c), [c]) == s
    ensures forall p :: p in Split(s, c) ==> c !in p
  {
    if s != "" {
      JoinSplit(s[1..], c);
      var rest := Split(s[1..], c);
      if s[0] != c && |rest| > 1 {
        assert Split(s, c)[1..] == rest[1..];
      }
      assert s == [s[0]] + s[1..];
    }
  }

  /** A line list printed with terminators is the same text as the list joined by line feeds plus a final one. */
  lemma {:induction false} UnlinesJoin(lines: seq<string>)
    requires |lines| >= 1
    ensures Unlines(lines) == Join(lines, "\n") + "\n"
  {
    var init, last := lines[..|lines| - 1], lines[|lines| - 1];
    assert lines == init + [last];
    if init == [] {
      assert Unlines(init) == "";
    } else {
      UnlinesJoin(init);
      JoinSnoc(init, last, "\n");
    }
  }

  lemma {:induction false} UnlinesAppend(a: seq<string>, b: seq<string>)
    ensures Unlines(a + b) == Unlines(a) + Unlines(b)
  {
    if b == [] {
      assert a + b == a;
    } else {
      assert (a + b)[..|a + b| - 1] == a + b[..|b| - 1];
      UnlinesAppend(a, b[..|b| - 1]);
    }
  }

  lemma {:induction false} SplitUnlines(lines: seq<string>)
    requires forall l :: l in lines ==> '\n' !in l
    ensures Split(Unlines(lines), '\n') == lines + [""]
  {
    if lines == [] {
    } else {
      UnlinesJoin(lines);
      JoinSnoc(lines, "", "\n");
      SplitJoin(lines + [""], '\n');
      assert Join(lines, "\n") + "\n" + "" == Unlines(lines);
      forall l | l in lines + [""] ensures '\n' !in l { }
    }
  }

  lemma {:induction false} SplitUnlinesThen(lines: seq<string>, rest: string)
    requires forall i :: 0 <= i < |lines| ==> '\n' !in lines[i]
    ensures Split(Unlines(lines) + rest, '\n') == lines + Split(rest, '\n')
  {
    if lines == [] {
      assert Unlines(lines) + rest == rest;
    } else {
      var init, last := lines[..|lines| - 1], lines[|lines| - 1];
      SplitUnlinesThen(init, last + "\n" + rest);
      SplitPiece(last, rest, '\n');
      assert Unlines(lines) + rest == Unlines(init) + (last + "\n" + rest);
      assert lines == init + [last];
      Associate(init, [last], Split(rest, '\n'));
    }
  }

  // ----- cutting -----

  lemma {:induction false} CutFirstAt(a: string, b: string, c: char)
    requires c !in a
    ensures CutFirst(a + [c] + b, c) == Some((a, b))
  {
    var s := a + [c] + b;
    if a == "" {
      assert s[1..] == b;
    } else {
      assert s[1..] == a[1..] + [c] + b && s[0] in a;
      CutFirstAt(a[1..], b, c);
      assert a == [a[0]] + a[1..];
    }
  }

  lemma {:induction false} CutFirstAbsent(s: string, c: char)
    requires c !in s
    ensures CutFirst(s, c) == None
  {
    if s != "" { CutFirstAbsent(s[1..], c); }
  }

  lemma {:induction false} CutLastAt(a: string, b: string, c: char)
    requires c !in b
    ensures CutLast(a + [c] + b, c) == Some((a, b))
  {
    var s := a + [c] + b;
    if b == "" {
      assert s[..|s| - 1] == a;
    } else {
      assert s[..|s| - 1] == a + [c] + b[..|b| - 1] && s[|s| - 1] in b;
      CutLastAt(a, b[..|b| - 1], c);
      assert b == b[..|b| - 1] + [b[|b| - 1]];
    }
  }

  lemma ExpectAt(lit: string, rest: string)
    ensures Expect(lit, lit + rest) == Some(rest)
  {
    assert (lit + rest)[|lit|..] == rest;
  }
}
