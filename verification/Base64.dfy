/** Base64 by sections 4 and 5 of RFC 4648, in both alphabets, padded and unpadded. */
module Base64 {
  import opened Text

  datatype Alphabet = Std | Url

  function Digit(alphabet: Alphabet, v: int): char {
    if 0 <= v < 26 then v as char + 'A'
    else if 26 <= v < 52 then (v - 26) as char + 'a'
    else if 52 <= v < 62 then (v - 52) as char + '0'
    else if v == 62 then (if alphabet == Std then '+' else '-')
    else (if alphabet == Std then '/' else '_')
  }

  /** Tables 1 and 2 of RFC 4648. */
  lemma Alphabets(alphabet: Alphabet, v: int)
    ensures 0 <= v < 26 ==> Digit(alphabet, v) == "ABCDEFGHIJKLMNOPQRSTUVWXYZ"[v]
    ensures 26 <= v < 52 ==> Digit(alphabet, v) == "abcdefghijklmnopqrstuvwxyz"[v - 26]
    ensures 52 <= v < 62 ==> Digit(alphabet, v) == "0123456789"[v - 52]
    ensures Digit(Std, 62) == '+' && Digit(Std, 63) == '/' && Digit(Url, 62) == '-' && Digit(Url, 63) == '_'
  {
  }

  function Value(alphabet: Alphabet, c: char): Option<int> {
    if 'A' <= c <= 'Z' then Some(c as int - 'A' as int)
    else if 'a' <= c <= 'z' then Some(c as int - 'a' as int + 26)
    else if '0' <= c <= '9' then Some(c as int - '0' as int + 52)
    else if c == (if alphabet == Std then '+' else '-') then Some(62)
    else if c == (if alphabet == Std then '/' else '_') then Some(63)
    else None
  }

  /** The four sextets of three bytes. */
  function Group(a: int, b: int, c: int): seq<int> {
    [a / 4, a % 4 * 16 + b / 16, b % 16 * 4 + c / 64, c % 64]
  }

  lemma Periods(bytes: nat, sextets: nat)
    requires bytes >= 3
    ensures (bytes - 3) % 3 == bytes % 3 && (4 + sextets) % 4 == sextets % 4
  {
  }

  /** The bits of a byte string regrouped six at a time; the last sextet is filled with zero bits. */
  function Pack(s: Bytes): (vs: seq<int>)
    ensures |vs| % 4 == if |s| % 3 == 0 then 0 else |s| % 3 + 1
  {
    if |s| == 0 then []
    else
      var a := s[0] as int;
      if |s| == 1 then [a / 4, a % 4 * 16]
      else
        var b := s[1] as int;
        if |s| == 2 then [a / 4, a % 4 * 16 + b / 16, b % 16 * 4]
        else
          Periods(|s|, |Pack(s[3..])|);
          Group(a, b, s[2] as int) + Pack(s[3..])
  }

  predicate Sextets(vs: seq<int>) {
    forall i :: 0 <= i < |vs| ==> 0 <= vs[i] < 64
  }

  /** Section 4 of RFC 4648: three bytes are one number of 24 bits, written with four digits to the base 64; one byte or
      two at the end are filled up with zero bits. */
  lemma PackBits(s: Bytes, rest: Bytes)
    requires 1 <= |s| <= 3 && (|s| < 3 ==> rest == "")
    ensures Pack(s + rest) == Pack(s) + Pack(rest) && Sextets(Pack(s)) && |Pack(s)| == |s| + 1
    ensures var v := Pack(s);
            && (|s| == 1 ==> v[0] * 64 + v[1] == s[0] as int * 16)
            && (|s| == 2 ==> (v[0] * 64 + v[1]) * 64 + v[2] == (s[0] as int * 256 + s[1] as int) * 4)
            && (|s| == 3 ==> ((v[0] * 64 + v[1]) * 64 + v[2]) * 64 + v[3] ==
                             (s[0] as int * 256 + s[1] as int) * 256 + s[2] as int)
  {
    assert Pack("") == [];
    if |s| == 3 {
      assert (s + rest)[3..] == rest && s[3..] == "";
      assert Group(s[0] as int, s[1] as int, s[2] as int) + [] == Group(s[0] as int, s[1] as int, s[2] as int);
    } else {
      assert s + rest == s;
    }
  }

  /** The bytes of a sextet sequence; a lone last sextet carries no whole byte and is refused. */
  function Unpack(vs: seq<int>): Option<string>
    requires Sextets(vs)
  {
    if |vs| == 0 then Some("")
    else if |vs| == 1 then None
    else
      var x := (vs[0] * 4 + vs[1] / 16) as char;
      if |vs| == 2 then Some([x])
      else
        var y := (vs[1] % 16 * 16 + vs[2] / 4) as char;
        if |vs| == 3 then Some([x, y])
        else
          var rest :- Unpack(vs[4..]);
          Some([x, y, (vs[2] % 4 * 64 + vs[3]) as char] + rest)
  }

  function Digits(alphabet: Alphabet, vs: seq<int>): string {
    if vs == [] then "" else [Digit(alphabet, vs[0])] + Digits(alphabet, vs[1..])
  }

  function Values(alphabet: Alphabet, s: string): (r: Option<seq<int>>)
    ensures r.Some? ==> Sextets(r.value)
  {
    if s == "" then Some([])
    else
      var v :- Value(alphabet, s[0]);
      var rest :- Values(alphabet, s[1..]);
      Some([v] + rest)
  }

  function Padding(length: nat): string {
    if length % 3 == 1 then "==" else if length % 3 == 2 then "=" else ""
  }

  function Encode(alphabet: Alphabet, padded: bool, s: Bytes): string {
    Digits(alphabet, Pack(s)) + if padded then Padding(|s|) else ""
  }

  /** The text before its padding; a padded text has whole groups of four. */
  function StripPadding(s: string): Option<string> {
    if |s| % 4 != 0 then None
    else if |s| > 0 && s[|s| - 2..] == "==" then Some(s[..|s| - 2])
    else if |s| > 0 && s[|s| - 1] == '=' then Some(s[..|s| - 1])
    else Some(s)
  }

  function Decode(alphabet: Alphabet, padded: bool, s: string): Option<string> {
    var digits :- if padded then StripPadding(s) else Some(s);
    var vs :- Values(alphabet, digits);
    Unpack(vs)
  }

  lemma DigitValue(alphabet: Alphabet, v: int)
    requires 0 <= v < 64
    ensures Value(alphabet, Digit(alphabet, v)) == Some(v)
    ensures Digit(alphabet, v) != '='
  {
  }

  /** Three bytes as four sextets and back. */
  lemma Regroup(a: int, b: int, c: int)
    requires 0 <= a < 256 && 0 <= b < 256 && 0 <= c < 256
    ensures a / 4 * 4 + (a % 4 * 16 + b / 16) / 16 == a
    ensures (a % 4 * 16 + b / 16) % 16 * 16 + (b % 16 * 4 + c / 64) / 4 == b
    ensures (b % 16 * 4 + c / 64) % 4 * 64 + c % 64 == c
  {
  }

  lemma UnpackFour(v0: int, v1: int, v2: int, v3: int, vs: seq<int>, rest: string)
    requires 0 <= v0 < 64 && 0 <= v1 < 64 && 0 <= v2 < 64 && 0 <= v3 < 64 && Sextets(vs) && Unpack(vs) == Some(rest)
    ensures Sextets([v0, v1, v2, v3] + vs)
    ensures Unpack([v0, v1, v2, v3] + vs) ==
            Some([(v0 * 4 + v1 / 16) as char, (v1 % 16 * 16 + v2 / 4) as char, (v2 % 4 * 64 + v3) as char] + rest)
  {
    assert ([v0, v1, v2, v3] + vs)[4..] == vs;
  }

  lemma GroupBack(x: char, y: char, z: char)
    requires x as int < 256 && y as int < 256 && z as int < 256
    ensures var g := Group(x as int, y as int, z as int);
            && 0 <= g[0] < 64 && 0 <= g[1] < 64 && 0 <= g[2] < 64 && 0 <= g[3] < 64
            && (g[0] * 4 + g[1] / 16) as char == x && (g[1] % 16 * 16 + g[2] / 4) as char == y
            && (g[2] % 4 * 64 + g[3]) as char == z
  {
    Regroup(x as int, y as int, z as int);
  }

  lemma UnpackGroup(x: char, y: char, z: char, vs: seq<int>, rest: string)
    requires x as int < 256 && y as int < 256 && z as int < 256 && Sextets(vs) && Unpack(vs) == Some(rest)
    ensures Sextets(Group(x as int, y as int, z as int) + vs)
    ensures Unpack(Group(x as int, y as int, z as int) + vs) == Some([x, y, z] + rest)
  {
    var g := Group(x as int, y as int, z as int);
    GroupBack(x, y, z);
    UnpackFour(g[0], g[1], g[2], g[3], vs, rest);
    assert g == [g[0], g[1], g[2], g[3]];
  }

  lemma ThreeBytes(s: Bytes, vs: seq<int>)
    requires |s| >= 3 && Sextets(vs) && Unpack(vs) == Some(s[3..])
    ensures Sextets(Group(s[0] as int, s[1] as int, s[2] as int) + vs)
    ensures Unpack(Group(s[0] as int, s[1] as int, s[2] as int) + vs) == Some(s)
  {
    UnpackGroup(s[0], s[1], s[2], vs, s[3..]);
    assert s == [s[0], s[1], s[2]] + s[3..];
  }

  lemma OneByte(a: char)
    requires a as int < 256
    ensures Sextets(Pack([a])) && Unpack(Pack([a])) == Some([a])
  {
  }

  lemma TwoBytes(a: char, b: char)
    requires a as int < 256 && b as int < 256
    ensures Sextets(Pack([a, b])) && Unpack(Pack([a, b])) == Some([a, b])
  {
  }

  lemma {:induction false} UnpackPack(s: Bytes)
    ensures Sextets(Pack(s)) && Unpack(Pack(s)) == Some(s)
  {
    if |s| == 1 {
      assert s == [s[0]];
      OneByte(s[0]);
    } else if |s| == 2 {
      assert s == [s[0], s[1]];
      TwoBytes(s[0], s[1]);
    } else if |s| > 2 {
      UnpackPack(s[3..]);
      ThreeBytes(s, Pack(s[3..]));
    }
  }

  lemma {:induction false} ValuesDigits(alphabet: Alphabet, vs: seq<int>)
    requires Sextets(vs)
    ensures Values(alphabet, Digits(alphabet, vs)) == Some(vs)
    ensures |Digits(alphabet, vs)| == |vs|
    ensures '=' !in Digits(alphabet, vs)
  {
    if vs != [] {
      DigitValue(alphabet, vs[0]);
      ValuesDigits(alphabet, vs[1..]);
      assert Digits(alphabet, vs)[1..] == Digits(alphabet, vs[1..]);
      assert vs == [vs[0]] + vs[1..];
    }
  }

  lemma StripTwo(digits: string)
    requires (|digits| + 2) % 4 == 0
    ensures StripPadding(digits + "==") == Some(digits)
  {
    var s := digits + "==";
    assert s[|s| - 2..] == "==" && s[..|digits|] == digits;
  }

  lemma NotTwo(s: string)
    requires |s| >= 2 && s[|s| - 2] != '='
    ensures s[|s| - 2..] != "=="
  {
    assert s[|s| - 2..][0] == s[|s| - 2] && "=="[0] == '=';
  }

  lemma StripOne(digits: string)
    requires '=' !in digits && (|digits| + 1) % 4 == 0
    ensures StripPadding(digits + "=") == Some(digits)
  {
    var s := digits + "=";
    assert s[|s| - 2] == digits[|digits| - 1];
    NotTwo(s);
    assert s[|s| - 1] == '=' && s[..|s| - 1] == digits;
  }

  lemma StripNone(digits: string)
    requires '=' !in digits && |digits| % 4 == 0
    ensures StripPadding(digits) == Some(digits)
  {
    if digits != "" {
      assert digits[|digits| - 1] in digits && digits[|digits| - 2] in digits;
      NotTwo(digits);
    }
  }

  lemma StripPaddingAt(digits: string, pad: string)
    requires '=' !in digits && (|digits| + |pad|) % 4 == 0
    requires pad == "==" || pad == "=" || pad == ""
    ensures StripPadding(digits + pad) == Some(digits)
  {
    if pad == "==" {
      StripTwo(digits);
    } else if pad == "=" {
      StripOne(digits);
    } else {
      assert digits + pad == digits;
      StripNone(digits);
    }
  }

  lemma PaddingLength(n: nat, m: nat)
    requires m % 4 == if n % 3 == 0 then 0 else n % 3 + 1
    ensures (m + |Padding(n)|) % 4 == 0
  {
  }

  /** Every byte string is recovered, whatever its length modulo three. */
  lemma RoundTrip(alphabet: Alphabet, padded: bool, s: Bytes)
    ensures Decode(alphabet, padded, Encode(alphabet, padded, s)) == Some(s)
  {
    UnpackPack(s);
    ValuesDigits(alphabet, Pack(s));
    if padded {
      PaddedDigits(alphabet, s);
    } else {
      assert Digits(alphabet, Pack(s)) + "" == Digits(alphabet, Pack(s));
    }
  }

  lemma PaddedDigits(alphabet: Alphabet, s: Bytes)
    requires Sextets(Pack(s))
    ensures StripPadding(Encode(alphabet, true, s)) == Some(Digits(alphabet, Pack(s)))
  {
    ValuesDigits(alphabet, Pack(s));
    PaddingLength(|s|, |Pack(s)|);
    StripPaddingAt(Digits(alphabet, Pack(s)), Padding(|s|));
  }

  /** The Worker's chain: encode with the standard alphabet and padding, swap two digits, drop the padding. */
  function Unpad(s: string): string {
    ReplaceAll(ReplaceAll(ReplaceAll(s, "+", "-"), "/", "_"), "=", "")
  }

  /** ... is Go's RawURLEncoding. */
  lemma UnpadIsRawUrl(s: Bytes)
    ensures Unpad(Encode(Std, true, s)) == Encode(Url, false, s)
  {
    UnpadAppend(Digits(Std, Pack(s)), Padding(|s|));
    UnpadDigits(Pack(s));
    assert Unpad("==") == "" && Unpad("=") == "" && Unpad("") == "";
  }

  /** JavaScript's btoa: base64 of the characters as single bytes; None where it throws. */
  function Btoa(s: string): Option<string> {
    var bytes :- Latin1(s);
    Some(Encode(Std, true, bytes))
  }

  /** The Worker's base64UrlEncode. */
  function JsUrlEncode(s: string): Option<string> {
    var encoded :- Btoa(s);
    Some(Unpad(encoded))
  }

  lemma JsUrlEncodeIs(s: string)
    ensures JsUrlEncode(s) == if Latin1(s).Some? then Some(Encode(Url, false, Latin1(s).value)) else None
  {
    if Latin1(s).Some? { UnpadIsRawUrl(Latin1(s).value); }
  }

  /** The Worker's chain gives what Go's RawURLEncoding gives exactly on ASCII text; elsewhere it throws or encodes
      other bytes. */
  lemma JsEncodesLikeGo(s: Bytes)
    ensures JsUrlEncode(s) == Some(Encode(Url, false, s)) <==> IsAscii(s)
  {
    JsUrlEncodeIs(s);
    Latin1Same(s);
    RoundTrip(Url, false, s);
    if Latin1(s).Some? { RoundTrip(Url, false, Latin1(s).value); }
  }

  lemma {:induction false} UnpadDigits(vs: seq<int>)
    ensures Unpad(Digits(Std, vs)) == Digits(Url, vs)
  {
    if vs != [] {
      UnpadDigits(vs[1..]);
      UnpadAppend([Digit(Std, vs[0])], Digits(Std, vs[1..]));
      UnpadDigit(vs[0]);
    }
  }

  lemma UnpadAppend(s: string, t: string)
    ensures Unpad(s + t) == Unpad(s) + Unpad(t)
  {
    ReplaceCharAppend(s, t, '+', "-");
    var s1, t1 := ReplaceAll(s, "+", "-"), ReplaceAll(t, "+", "-");
    ReplaceCharAppend(s1, t1, '/', "_");
    ReplaceCharAppend(ReplaceAll(s1, "/", "_"), ReplaceAll(t1, "/", "_"), '=', "");
  }

  lemma UnpadDigit(v: int)
    ensures Unpad([Digit(Std, v)]) == [Digit(Url, v)]
  {
    var c := Digit(Std, v);
    ReplaceOne(c, '+', "-");
    var c1 := if c == '+' then '-' else c;
    ReplaceOne(c1, '/', "_");
    ReplaceOne(if c1 == '/' then '_' else c1, '=', "");
  }

  lemma PackedVectors()
    ensures Pack("") == [] && Pack("f") == [25, 32] && Pack("fo") == [25, 38, 60] && Pack("foo") == [25, 38, 61, 47]
  {
    assert "foo"[3..] == "";
  }

  /** The encoding of a text, from its sextets. */
  lemma Vector(s: Bytes, vs: seq<int>, digits: string)
    requires Pack(s) == vs && |digits| == |vs| && (forall i :: 0 <= i < |vs| ==> digits[i] == Digit(Std, vs[i]))
    ensures Encode(Std, true, s) == digits + (if |vs| % 4 == 2 then "==" else if |vs| % 4 == 3 then "=" else "")
  {
    hide Digit;
    DigitsOf(Std, vs);
    assert Digits(Std, vs) == digits;
  }

  /** Test vectors of section 10 of RFC 4648. */
  lemma Vectors()
    ensures Encode(Std, true, "") == "" && Encode(Std, true, "f") == "Zg==" && Encode(Std, true, "fo") == "Zm8="
    ensures Encode(Std, true, "foo") == "Zm9v"
  {
    hide Pack, Encode;
    PackedVectors();
    Vector("", [], "");
    Vector("f", [25, 32], "Zg");
    Vector("fo", [25, 38, 60], "Zm8");
    Vector("foo", [25, 38, 61, 47], "Zm9v");
  }

  lemma {:induction false} DigitsOf(alphabet: Alphabet, vs: seq<int>)
    ensures |Digits(alphabet, vs)| == |vs|
    ensures forall i :: 0 <= i < |vs| ==> Digits(alphabet, vs)[i] == Digit(alphabet, vs[i])
  {
    if vs != [] { DigitsOf(alphabet, vs[1..]); }
  }
}
