/** The three escapings of URL components in the two registries, and the form decoding that undoes all of them:
    Go's url.QueryEscape, JavaScript's encodeURIComponent, and URLSearchParams.toString. */
module Escape {
  import opened Text

  datatype Style = GoQuery | JsComponent | JsForm

  predicate Unreserved(style: Style, c: char) {
    IsAlnum(c) || c == '-' || c == '_' || c == '.' ||
    match style
    case GoQuery => c == '~'
    case JsComponent => c == '~' || c == '!' || c == '*' || c == '\'' || c == '(' || c == ')'
    case JsForm => c == '*'
  }

  function HexDigit(v: int): char
    requires 0 <= v < 16
  {
    if v < 10 then v as char + '0' else (v - 10) as char + 'A'
  }

  function HexValue(c: char): Option<int> {
    if '0' <= c <= '9' then Some(c as int - '0' as int)
    else if 'A' <= c <= 'F' then Some(c as int - 'A' as int + 10)
    else if 'a' <= c <= 'f' then Some(c as int - 'a' as int + 10)
    else None
  }

  function EscapeByte(style: Style, c: char): string
    requires c as int < 256
  {
    if Unreserved(style, c) then [c]
    else if c == ' ' && style != JsComponent then "+"
    else ['%', HexDigit(c as int / 16), HexDigit(c as int % 16)]
  }

  function Escape(style: Style, s: Bytes): string {
    if s == "" then "" else EscapeByte(style, s[0]) + Escape(style, s[1..])
  }

  /** Percent decoding. With `plusIsSpace` it is form decoding; without, decoding by section 2.1 of RFC 3986. */
  function Decode(s: string, plusIsSpace: bool): Option<string> {
    if s == "" then Some("")
    else if s[0] == '%' then
      if |s| < 3 then None
      else
        var hi :- HexValue(s[1]);
        var lo :- HexValue(s[2]);
        var rest :- Decode(s[3..], plusIsSpace);
        Some([(16 * hi + lo) as char] + rest)
    else
      var rest :- Decode(s[1..], plusIsSpace);
      Some([if s[0] == '+' && plusIsSpace then ' ' else s[0]] + rest)
  }

  /** What decoding makes of an escaped text: the text itself, unless `+` stands for a space and is not read so. */
  function Surviving(style: Style, s: string, plusIsSpace: bool): string {
    if style != JsComponent && !plusIsSpace then ReplaceAll(s, " ", "+") else s
  }

  lemma DecodeByte(style: Style, c: char, tail: string, plusIsSpace: bool)
    requires c as int < 256
    requires Decode(tail, plusIsSpace).Some?
    ensures Decode(EscapeByte(style, c) + tail, plusIsSpace) ==
            Some(Surviving(style, [c], plusIsSpace) + Decode(tail, plusIsSpace).value)
  {
    var e := EscapeByte(style, c);
    var text := e + tail;
    ReplaceOne(c, ' ', "+");
    if |e| == 3 {
      assert text[3..] == tail;
      assert HexValue(text[1]) == Some(c as int / 16) && HexValue(text[2]) == Some(c as int % 16);
      assert (16 * (c as int / 16) + c as int % 16) as char == c;
      assert Unreserved(style, ' ') == false && Surviving(style, [c], plusIsSpace) == [c];
    } else {
      assert text[1..] == tail;
    }
  }

  lemma {:induction false} DecodeEscape(style: Style, s: Bytes, plusIsSpace: bool)
    ensures Decode(Escape(style, s), plusIsSpace) == Some(Surviving(style, s, plusIsSpace))
  {
    if s != "" {
      DecodeEscape(style, s[1..], plusIsSpace);
      DecodeByte(style, s[0], Escape(style, s[1..]), plusIsSpace);
      ReplaceCharAppend([s[0]], s[1..], ' ', "+");
      assert s == [s[0]] + s[1..];
    }
  }

  /** Form decoding recovers every byte string from all three escapings. */
  lemma FormRoundTrip(style: Style, s: Bytes)
    ensures Decode(Escape(style, s), true) == Some(s)
  {
    DecodeEscape(style, s, true);
  }

  /** Decoding by section 2.1 of RFC 3986 recovers it too, except where a space was written as a plus sign. */
  lemma StrictRoundTrip(style: Style, s: Bytes)
    ensures Decode(Escape(style, s), false) == Some(s) <==> style == JsComponent || ' ' !in s
  {
    DecodeEscape(style, s, false);
    ReplaceCharChars(s, ' ', "+", ' ');
    if ' ' !in s { ReplaceAbsentChar(s, ' ', "+"); }
  }

  predicate IsEscapedChar(c: char) {
    IsAlnum(c) || c in "-_.~!*'()%+"
  }

  /** Escaped text holds none of the delimiters of a link or a query. */
  lemma {:induction false} EscapedChars(style: Style, s: Bytes, c: char)
    requires c in Escape(style, s)
    ensures IsEscapedChar(c)
  {
    var e := EscapeByte(style, s[0]);
    if c !in e { EscapedChars(style, s[1..], c); }
  }

  /** Where the three escapings part: on a space, a tilde, an asterisk, an exclamation mark, an apostrophe and
      parentheses, and on nothing else. */
  lemma StylesDiffer(c: char)
    requires c as int < 256
    ensures EscapeByte(GoQuery, c) == EscapeByte(JsComponent, c) == EscapeByte(JsForm, c) <==> c !in " ~*!'()"
  {
    var escaped := ['%', HexDigit(c as int / 16), HexDigit(c as int % 16)];
    assert escaped != [c] && escaped != "+" by { assert |escaped| == 3; }
  }

  /** Letters and digits are written as they are. */
  lemma {:induction false} PlainEscaped(style: Style, s: Bytes)
    requires forall i :: 0 <= i < |s| ==> IsAlnum(s[i])
    ensures Escape(style, s) == s
  {
    if s != "" {
      PlainEscaped(style, s[1..]);
      assert s == [s[0]] + s[1..];
    }
  }

  /** What each of the three writes for a byte: letters, digits and a few marks stay, a space may become a plus sign,
      and everything else is a percent sign and two upper-case hexadecimal digits. */
  lemma EscapeMeaning(style: Style, c: char)
    requires c as int < 256
    ensures var marks := match style case GoQuery => "-_.~" case JsComponent => "-_.~!*'()" case JsForm => "-_.*";
            EscapeByte(style, c) ==
            if '0' <= c <= '9' || 'A' <= c <= 'Z' || 'a' <= c <= 'z' || c in marks then [c]
            else if c == ' ' && style != JsComponent then "+"
            else ['%', "0123456789ABCDEF"[c as int / 16], "0123456789ABCDEF"[c as int % 16]]
  {
    HexDigits(c as int / 16);
    HexDigits(c as int % 16);
    hide HexDigit;
  }

  lemma HexDigits(v: int)
    requires 0 <= v < 16
    ensures HexDigit(v) == "0123456789ABCDEF"[v]
  {
  }
}
