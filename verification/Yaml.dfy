/** Line-structured YAML as the Clash printers write it, and a scanner for it: fixed lines, keys with a
    double-quoted scalar (section 7.3.1 of YAML 1.2, on one line), and keys with an integer. */
module Yaml {
  import opened Text
  import opened Numbers

  /** Two passes: backslashes first, then double quotes. */
  function YamlQuote(value: string): string {
    var escaped := ReplaceAll(value, "\\", "\\\\");
    "\"" + ReplaceAll(escaped, "\"", "\\\"") + "\""
  }

  function EscapeOnce(value: string): string {
    if value == "" then ""
    else (if value[0] == '\\' || value[0] == '"' then ['\\', value[0]] else [value[0]]) + EscapeOnce(value[1..])
  }

  /** A character a one-line double-quoted scalar may hold: everything but control characters, tab excepted. */
  predicate ScalarChar(c: char) { c as int >= 0x20 || c as int == 9 }

  predicate Quotable(value: string) {
    forall i :: 0 <= i < |value| ==> ScalarChar(value[i])
  }

  /** The rest of a double-quoted scalar, after its opening quote: its value, and the text after the closing quote. */
  function ScanScalar(s: string): (r: Option<(string, string)>)
    ensures r.Some? ==> |r.value.1| < |s|
  {
    if s == "" then None
    else if s[0] == '"' then Some(("", s[1..]))
    else if s[0] == '\\' then
      if |s| < 2 || !(s[1] == '\\' || s[1] == '"') then None
      else
        var (value, rest) :- ScanScalar(s[2..]);
        Some(([s[1]] + value, rest))
    else if !ScalarChar(s[0]) then None
    else
      var (value, rest) :- ScanScalar(s[1..]);
      Some(([s[0]] + value, rest))
  }

  lemma {:induction false} TwoPassesAreOne(value: string)
    ensures ReplaceAll(ReplaceAll(value, "\\", "\\\\"), "\"", "\\\"") == EscapeOnce(value)
  {
    if value != "" {
      var c, rest := value[0], value[1..];
      TwoPassesAreOne(rest);
      assert value == [c] + rest;
      ReplaceCharAppend([c], rest, '\\', "\\\\");
      ReplaceOne(c, '\\', "\\\\");
      var first := if c == '\\' then "\\\\" else [c];
      ReplaceCharAppend(first, ReplaceAll(rest, "\\", "\\\\"), '"', "\\\"");
      if c == '\\' { ReplaceAbsentChar("\\\\", '"', "\\\""); } else { ReplaceOne(c, '"', "\\\""); }
    }
  }

  lemma {:induction false} ScanEscaped(value: string, rest: string)
    ensures ScanScalar(EscapeOnce(value) + "\"" + rest) == if Quotable(value) then Some((value, rest)) else None
  {
    var s := EscapeOnce(value) + "\"" + rest;
    if value == "" {
      assert s[1..] == rest;
    } else {
      var tail := EscapeOnce(value[1..]) + "\"" + rest;
      ScanEscaped(value[1..], rest);
      assert value == [value[0]] + value[1..];
      assert Quotable(value) <==> ScalarChar(value[0]) && Quotable(value[1..]);
      if value[0] == '\\' || value[0] == '"' {
        assert s == ['\\', value[0]] + tail;
        assert s[2..] == tail;
      } else {
        assert s == [value[0]] + tail;
        assert s[1..] == tail;
      }
    }
  }

  /** The quoted form is self-delimiting: a scanner gets back exactly the value and exactly the following text,
      if and only if the value has no control character. */
  lemma QuoteRoundTrip(value: string, rest: string)
    ensures YamlQuote(value)[0] == '"'
    ensures ScanScalar((YamlQuote(value) + rest)[1..]) == if Quotable(value) then Some((value, rest)) else None
  {
    TwoPassesAreOne(value);
    ScanEscaped(value, rest);
    assert (YamlQuote(value) + rest)[1..] == EscapeOnce(value) + "\"" + rest;
  }

  // ----- lines -----

  datatype Line = Plain(text: string) | Quote(key: string, value: string) | Num(key: string, number: int)

  function LineText(line: Line): string {
    match line
    case Plain(text) => text
    case Quote(key, value) => key + YamlQuote(value)
    case Num(key, number) => key + PrintInt(number)
  }

  function LineTexts(lines: seq<Line>): seq<string> {
    if lines == [] then [] else [LineText(lines[0])] + LineTexts(lines[1..])
  }

  /** Every line with its line feed. */
  function DocText(lines: seq<Line>): string {
    if lines == [] then "" else LineText(lines[0]) + "\n" + DocText(lines[1..])
  }

  function ValueOf(line: Line): string { if line.Quote? then line.value else "" }

  /** A line with its value forgotten: what a reader expects to find. */
  function Blank(line: Line): Line {
    match line
    case Plain(text) => line
    case Quote(key, _) => Quote(key, "")
    case Num(key, _) => Num(key, 0)
  }

  function Blanks(lines: seq<Line>): (r: seq<Line>)
    ensures |r| == |lines|
  {
    if lines == [] then [] else [Blank(lines[0])] + Blanks(lines[1..])
  }

  predicate LineQuotable(line: Line) { line.Quote? ==> Quotable(line.value) }

  predicate AllQuotable(lines: seq<Line>) {
    forall i :: 0 <= i < |lines| ==> LineQuotable(lines[i])
  }

  /** Reads one line of the expected kind, up to and including its line feed. */
  function ScanLine(shape: Line, s: string): (r: Option<(Line, string)>)
    ensures r.Some? ==> |r.value.1| < |s|
  {
    match shape
    case Plain(text) =>
      var rest :- Expect(text + "\n", s);
      Some((shape, rest))
    case Quote(key, _) =>
      var quoted :- Expect(key + "\"", s);
      var (value, after) :- ScanScalar(quoted);
      var rest :- Expect("\n", after);
      Some((Quote(key, value), rest))
    case Num(key, _) =>
      var digits :- Expect(key, s);
      var (text, rest) :- CutFirst(digits, '\n');
      var number :- ParseInt(text);
      Some((Num(key, number), rest))
  }

  function Scan(shapes: seq<Line>, s: string): (r: Option<(seq<Line>, string)>)
    ensures r.Some? ==> |r.value.1| <= |s| - |shapes| && |r.value.0| == |shapes|
  {
    if shapes == [] then Some(([], s))
    else
      var (line, after) :- ScanLine(shapes[0], s);
      var (lines, rest) :- Scan(shapes[1..], after);
      Some(([line] + lines, rest))
  }

  lemma ScanLineRoundTrip(line: Line, rest: string)
    ensures ScanLine(Blank(line), LineText(line) + "\n" + rest) ==
            if LineQuotable(line) then Some((line, rest)) else None
  {
    var s := LineText(line) + "\n" + rest;
    match line
    case Plain(text) => ExpectAt(text + "\n", rest);
    case Quote(key, value) =>
      QuoteRoundTrip(value, "\n" + rest);
      var tail := (YamlQuote(value) + ("\n" + rest))[1..];
      assert s == key + "\"" + tail;
      ExpectAt(key + "\"", tail);
      ExpectAt("\n", rest);
    case Num(key, number) =>
      forall c | c in PrintInt(number) ensures c != '\n' { PrintIntChars(number, c); }
      assert s == key + (PrintInt(number) + "\n" + rest);
      ExpectAt(key, PrintInt(number) + "\n" + rest);
      CutFirstAt(PrintInt(number), rest, '\n');
      PrintParseInt(number);
  }

  lemma DocTextCons(line: Line, rest: seq<Line>)
    ensures DocText([line] + rest) == LineText(line) + "\n" + DocText(rest)
  {
    var whole := [line] + rest;
    assert whole[0] == line && whole[1..] == rest;
  }

  lemma {:induction false} DocTextAppend(a: seq<Line>, b: seq<Line>)
    ensures DocText(a + b) == DocText(a) + DocText(b)
  {
    if a == [] {
      assert a + b == b;
    } else {
      var first, rest := a[0], a[1..];
      DocTextAppend(rest, b);
      DocTextCons(first, rest);
      DocTextCons(first, rest + b);
      assert a == [first] + rest;
      Associate([first], rest, b);
      Associate(LineText(first) + "\n", DocText(rest), DocText(b));
    }
  }

  lemma DocTextLast(a: seq<Line>, line: Line)
    ensures DocText(a + [line]) == DocText(a) + (LineText(line) + "\n")
  {
    DocTextAppend(a, [line]);
    assert DocText([line]) == LineText(line) + "\n" + "";
  }

  lemma {:induction false} LineTextsAppend(a: seq<Line>, b: seq<Line>)
    ensures LineTexts(a + b) == LineTexts(a) + LineTexts(b)
  {
    if a == [] {
      assert a + b == b;
    } else {
      assert (a + b)[0] == a[0] && (a + b)[1..] == a[1..] + b;
      LineTextsAppend(a[1..], b);
    }
  }

  /** A line list joined by line feeds, plus a final one, is the text built line by line. */
  lemma {:induction false} DocTextJoin(lines: seq<Line>)
    requires lines != []
    ensures DocText(lines) == Join(LineTexts(lines), "\n") + "\n"
  {
    if |lines| == 1 {
      assert LineTexts(lines) == [LineText(lines[0])];
    } else {
      DocTextJoin(lines[1..]);
      assert LineTexts(lines)[1..] == LineTexts(lines[1..]);
      Associate(LineText(lines[0]) + "\n", Join(LineTexts(lines[1..]), "\n"), "\n");
    }
  }

  lemma AllQuotableCons(line: Line, more: seq<Line>)
    ensures AllQuotable([line] + more) <==> LineQuotable(line) && AllQuotable(more)
  {
    var lines := [line] + more;
    assert forall i :: 0 <= i < |more| ==> lines[i + 1] == more[i];
    assert forall i :: 1 <= i < |lines| ==> lines[i] == more[i - 1];
    assert lines[0] == line;
  }

  /** Printed lines are read back line for line, exactly when every quoted value is free of control characters. */
  lemma {:induction false} ScanRoundTrip(lines: seq<Line>, rest: string)
    ensures Scan(Blanks(lines), DocText(lines) + rest) == if AllQuotable(lines) then Some((lines, rest)) else None
  {
    if lines == [] {
      assert DocText(lines) + rest == rest;
    } else {
      var line, more := lines[0], lines[1..];
      assert lines == [line] + more;
      var after := DocText(more) + rest;
      assert DocText(lines) + rest == LineText(line) + "\n" + after by {
        Associate(LineText(line) + "\n", DocText(more), rest);
      }
      ScanLineRoundTrip(line, after);
      ScanRoundTrip(more, rest);
      AllQuotableCons(line, more);
      ScanCons(line, more, LineText(line) + "\n" + after);
    }
  }

  lemma ScanCons(line: Line, more: seq<Line>, s: string)
    ensures Scan(Blanks([line] + more), s) ==
            var (first, after) :- ScanLine(Blank(line), s);
            var (others, rest) :- Scan(Blanks(more), after);
            Some(([first] + others, rest))
  {
    assert ([line] + more)[1..] == more;
    assert Blanks([line] + more) == [Blank(line)] + Blanks(more);
    assert ([Blank(line)] + Blanks(more))[1..] == Blanks(more);
  }

  /** Tries two line patterns in turn. */
  function ScanEither(a: seq<Line>, b: seq<Line>, s: string): (r: Option<(seq<Line>, string)>)
    ensures r.Some? ==> (|r.value.0| == |a| || |r.value.0| == |b|) && |r.value.1| <= |s| - |r.value.0|
  {
    if Scan(a, s).Some? then Scan(a, s) else Scan(b, s)
  }

  lemma SecondPlain(lines: seq<Line>, rest: string) returns (tail: string)
    requires |lines| >= 2 && lines[1].Plain? && |lines[1].text| > 10
    ensures DocText(lines) + rest == LineText(lines[0]) + "\n" + tail
    ensures |tail| > 10 && tail[10] == lines[1].text[10]
  {
    tail := DocText(lines[1..]) + rest;
    assert lines[1..][0] == lines[1];
    Associate(LineText(lines[0]) + "\n", DocText(lines[1..]), rest);
  }

  /** A reader expecting another second line stops there. */
  lemma SecondLineMismatch(shapes: seq<Line>, lines: seq<Line>, rest: string)
    requires Rival(shapes, lines)
    ensures Scan(shapes, DocText(lines) + rest) == None
  {
    var tail := SecondPlain(lines, rest);
    PlainMismatch(shapes[1].text, tail);
    ScanStops(shapes, lines[0], tail);
  }

  lemma PlainMismatch(text: string, s: string)
    requires |text| > 10 && |s| > 10 && text[10] != s[10]
    ensures ScanLine(Plain(text), s) == None
  {
    assert (text + "\n")[10] == text[10];
  }

  lemma ScanStops(shapes: seq<Line>, line: Line, tail: string)
    requires |shapes| >= 2 && shapes[0] == Blank(line) && ScanLine(shapes[1], tail) == None
    ensures Scan(shapes, LineText(line) + "\n" + tail) == None
  {
    ScanLineRoundTrip(line, tail);
    assert shapes[1..][0] == shapes[1];
  }

  /** The lines are printed after one of the two patterns, which part at their second line. */
  predicate Rival(shapes: seq<Line>, lines: seq<Line>) {
    |shapes| >= 2 && |lines| >= 2 && shapes[0] == Blank(lines[0]) && shapes[1].Plain? && lines[1].Plain? &&
    |shapes[1].text| > 10 && |lines[1].text| > 10 && shapes[1].text[10] != lines[1].text[10]
  }

  /** Either order of trying finds the printed pattern. */
  lemma ScanEitherRoundTrip(other: seq<Line>, lines: seq<Line>, rest: string)
    requires Rival(other, lines)
    ensures ScanEither(Blanks(lines), other, DocText(lines) + rest) ==
            if AllQuotable(lines) then Some((lines, rest)) else None
    ensures ScanEither(other, Blanks(lines), DocText(lines) + rest) ==
            if AllQuotable(lines) then Some((lines, rest)) else None
  {
    ScanRoundTrip(lines, rest);
    SecondLineMismatch(other, lines, rest);
  }

  // ----- writing -----

  /** Go's strings.Builder, written a line at a time. */
  class Builder {
    var text: string
    ghost var lines: seq<Line>

    ghost predicate Valid()
      reads this
    {
      text == DocText(lines)
    }

    constructor ()
      ensures Valid() && lines == []
    {
      text := "";
      lines := [];
    }

    method WriteLine(line: Line)
      requires Valid()
      modifies this
      ensures Valid() && lines == old(lines) + [line]
    {
      DocTextLast(lines, line);
      text := text + (LineText(line) + "\n");
      lines := lines + [line];
    }
  }
}
