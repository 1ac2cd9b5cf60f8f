/** What the operations on UTF-8 bytes mean for the characters of a text. */
module Unicode {
  import opened Text
  import opened FormatNames

  /** A code point that is no surrogate. */
  type Char = c: int | 0 <= c < 0xD800 || 0xE000 <= c < 0x110000 witness 0

  function Byte(n: int): (b: char)
    requires 0 <= n < 0x100
    ensures b as int == n
  {
    n as char
  }

  /** Section 3 of RFC 3629. */
  function Utf8(c: Char): (s: Bytes)
    ensures 1 <= |s| <= 4
  {
    if c < 0x80 then [Byte(c)]
    else if c < 0x800 then [Byte(0xC0 + c / 0x40), Byte(0x80 + c % 0x40)]
    else if c < 0x10000 then [Byte(0xE0 + c / 0x1000), Byte(0x80 + c / 0x40 % 0x40), Byte(0x80 + c % 0x40)]
    else
      [Byte(0xF0 + c / 0x40000), Byte(0x80 + c / 0x1000 % 0x40), Byte(0x80 + c / 0x40 % 0x40), Byte(0x80 + c % 0x40)]
  }

  predicate Continues(b: char) { 0x80 <= b as int < 0xC0 }

  lemma Utf8Bytes(c: Char)
    ensures !Continues(Utf8(c)[0]) && forall i :: 1 <= i < |Utf8(c)| ==> Continues(Utf8(c)[i])
    ensures |Utf8(c)| == if c < 0x80 then 1 else if c < 0x800 then 2 else if c < 0x10000 then 3 else 4
  {
  }

  /** The number of a character of one byte, of two and of three. */
  lemma Utf8Number(c: Char)
    requires c < 0x10000
    ensures |Utf8(c)| == 1 ==> Utf8(c)[0] as int == c < 0x80
    ensures |Utf8(c)| == 2 ==>
              0xC2 <= Utf8(c)[0] as int < 0xE0 && (Utf8(c)[0] as int) * 0x40 + Utf8(c)[1] as int == c + 0x3080
    ensures |Utf8(c)| == 3 ==>
              0xE0 <= Utf8(c)[0] as int < 0xF0 &&
              (Utf8(c)[0] as int) * 0x1000 + (Utf8(c)[1] as int) * 0x40 + Utf8(c)[2] as int == c + 0xE2080
  {
  }

  lemma Utf8Long(c: Char)
    ensures |Utf8(c)| == 4 ==> c >= 0x10000 && 0xF0 <= Utf8(c)[0] as int
  {
  }

  lemma Utf8Facts(c: Char, t: string)
    ensures var s := Utf8(c) + t; s[|Utf8(c)|..] == t && forall i :: 0 <= i < |Utf8(c)| ==> s[i] == Utf8(c)[i]
    ensures !Continues(Utf8(c)[0]) && forall i :: 1 <= i < |Utf8(c)| ==> Continues(Utf8(c)[i])
    ensures |Utf8(c)| == if c < 0x80 then 1 else if c < 0x800 then 2 else if c < 0x10000 then 3 else 4
    ensures c < 0x80 ==> Utf8(c)[0] as int == c
    ensures 0x80 <= c < 0x800 ==>
              0xC2 <= Utf8(c)[0] as int < 0xE0 && (Utf8(c)[0] as int) * 0x40 + Utf8(c)[1] as int == c + 0x3080
    ensures 0x800 <= c < 0x10000 ==>
              0xE0 <= Utf8(c)[0] as int < 0xF0 &&
              (Utf8(c)[0] as int) * 0x1000 + (Utf8(c)[1] as int) * 0x40 + Utf8(c)[2] as int == c + 0xE2080
    ensures c >= 0x10000 ==> 0xF0 <= Utf8(c)[0] as int
  {
    var s := Utf8(c) + t;
    assert s[|Utf8(c)|..] == t;
    Utf8Bytes(c);
    if c < 0x10000 { Utf8Number(c); } else { Utf8Long(c); }
    hide Utf8;
  }

  /** The white space of Go's unicode.IsSpace and of JavaScript's trim. */
  predicate White(side: Side, c: Char) {
    || c in {0x09, 0x0A, 0x0B, 0x0C, 0x0D, 0x20, 0xA0, 0x1680, 0x2028, 0x2029, 0x202F, 0x205F, 0x3000}
    || 0x2000 <= c <= 0x200A
    || (side == Go && c == 0x85)
    || (side == Js && c == 0xFEFF)
  }

  lemma WhitePrefix(side: Side, c: Char, t: string)
    ensures SpacePrefix(side, Utf8(c) + t) == if White(side, c) then |Utf8(c)| else 0
  {
    hide Utf8;
    hide Utf8;
    Utf8Facts(c, t);
  }

  lemma UnitsOf(c: Char, t: string)
    ensures CharBytes(Utf8(c) + t) == |Utf8(c)|
    ensures Utf16Length(Utf8(c) + t) == (if c < 0x10000 then 1 else 2) + Utf16Length(t)
  {
    hide Utf8;
    Utf8Facts(c, t);
  }

  /** `btoa` takes the characters up to U+00FF, each as the byte of its number. */
  lemma Latin1Of(c: Char, t: string)
    ensures Latin1(Utf8(c) + t) ==
            if c > 0xFF || Latin1(t) == None then None else Some([Byte(c)] + Latin1(t).value)
  {
    hide Utf8;
    hide Utf8;
    Utf8Facts(c, t);
  }

  /** Lower case as far as format names need it: ASCII letters, the Kelvin sign, and in Go the dotted capital I. */
  lemma LowerOf(side: Side, c: Char, t: string)
    ensures ToLower(side, Utf8(c) + t) ==
            (if 0x41 <= c <= 0x5A then [Byte(c + 0x20)]
             else if c == 0x212A then "k"
             else if c == 0x130 && side == Go then "i"
             else Utf8(c)) + ToLower(side, t)
  {
    hide Utf8;
    var s := Utf8(c) + t;
    Utf8Facts(c, t);
    if c == 0x130 && side == Go {
      assert DottedI(s) && s[2..] == t;
    } else if c == 0x212A {
      assert KelvinSign(s) && s[3..] == t;
    } else {
      LowerBytes(side, Utf8(c), t);
      assert Utf8(c) == [Utf8(c)[0]] + Utf8(c)[1..];
      if c < 0x80 { assert Utf8(c) == [Byte(c)]; }
    }
  }

  /** Bytes that are no upper-case letter and begin no special character are copied. */
  lemma LowerBytes(side: Side, u: string, t: string)
    requires u != "" && !(side == Go && DottedI(u + t)) && !KelvinSign(u + t)
    requires forall i :: 1 <= i < |u| ==> Continues(u[i])
    ensures ToLower(side, u + t) == [LowerChar(u[0])] + u[1..] + ToLower(side, t)
  {
    var s := u + t;
    assert s[0] == u[0] && s[1..] == u[1..] + t;
    ContinuationKept(side, u[1..], t);
  }

  lemma {:induction false} ContinuationKept(side: Side, u: string, t: string)
    requires forall i :: 0 <= i < |u| ==> Continues(u[i])
    ensures ToLower(side, u + t) == u + ToLower(side, t)
  {
    if u == "" {
      assert u + t == t;
    } else {
      assert (u + t)[0] == u[0] && (u + t)[1..] == u[1..] + t;
      ContinuationKept(side, u[1..], t);
      assert u == [u[0]] + u[1..];
    }
  }

  // ----- whole texts -----

  function Utf8All(cs: seq<Char>): string {
    if cs == [] then "" else Utf8(cs[0]) + Utf8All(cs[1..])
  }

  lemma {:induction false} Utf8Append(a: seq<Char>, b: seq<Char>)
    ensures Utf8All(a + b) == Utf8All(a) + Utf8All(b)
  {
    if a == [] {
      assert a + b == b;
    } else {
      assert (a + b)[0] == a[0] && (a + b)[1..] == a[1..] + b;
      Utf8Append(a[1..], b);
      Associate(Utf8(a[0]), Utf8All(a[1..]), Utf8All(b));
    }
  }

  lemma Utf8Last(cs: seq<Char>, c: Char)
    ensures Utf8All(cs + [c]) == Utf8All(cs) + Utf8(c)
  {
    Utf8Append(cs, [c]);
    assert Utf8All([c]) == Utf8(c) + "" == Utf8(c);
  }

  predicate AllWhite(side: Side, cs: seq<Char>) {
    forall i :: 0 <= i < |cs| ==> White(side, cs[i])
  }

  lemma TrimLeftStep(side: Side, c: Char, t: string)
    ensures TrimLeft(side, Utf8(c) + t) == if White(side, c) then TrimLeft(side, t) else Utf8(c) + t
  {
    hide White, SpacePrefix, Utf8;
    WhitePrefix(side, c, t);
    assert (Utf8(c) + t)[|Utf8(c)|..] == t;
  }

  lemma {:induction false} TrimLeftOf(side: Side, cs: seq<Char>) returns (before: seq<Char>, rest: seq<Char>)
    ensures cs == before + rest && TrimLeft(side, Utf8All(cs)) == Utf8All(rest)
    ensures AllWhite(side, before) && (rest != [] ==> !White(side, rest[0]))
  {
    hide White, TrimLeft, Utf8;
    before, rest := [], cs;
    if cs == [] {
      EmptyPrefix(side);
    } else if White(side, cs[0]) {
      before, rest := TrimLeftOf(side, cs[1..]);
      before := [cs[0]] + before;
      TrimLeftStep(side, cs[0], Utf8All(cs[1..]));
    } else {
      TrimLeftStep(side, cs[0], Utf8All(cs[1..]));
    }
  }

  lemma EmptyPrefix(side: Side)
    ensures TrimLeft(side, "") == "" && TrimRight(side, "") == ""
  {
  }

  lemma ShortEnd(side: Side, t: string, c: Char, k: nat)
    requires 1 <= k < |Utf8(c)|
    ensures !EndsInSpace(side, t + Utf8(c), k)
  {
    hide Utf8, SpacePrefix;
    var s := t + Utf8(c);
    var end := s[|s| - k..];
    Utf8Bytes(c);
    assert end[0] == Utf8(c)[|Utf8(c)| - k];
    LeadNeeded(side, end);
  }

  lemma LongEnd(side: Side, t: string, c: Char, k: nat)
    requires |Utf8(c)| < k <= |t + Utf8(c)|
    ensures !EndsInSpace(side, t + Utf8(c), k)
  {
    hide Utf8, SpacePrefix;
    var s, i := t + Utf8(c), k - |Utf8(c)|;
    var end := s[|s| - k..];
    Utf8Bytes(c);
    assert end[i] == Utf8(c)[0];
    ContinuationNeeded(side, end, i);
  }

  /** White space at the end of a text is its last character. */
  lemma WhiteEnd(side: Side, t: string, c: Char, k: nat)
    requires 1 <= k <= 3
    ensures EndsInSpace(side, t + Utf8(c), k) <==> White(side, c) && k == |Utf8(c)|
  {
    hide Utf8, SpacePrefix, White;
    var s := t + Utf8(c);
    if k == |Utf8(c)| {
      assert s[|s| - k..] == Utf8(c) + "";
      WhitePrefix(side, c, "");
    } else if k < |Utf8(c)| {
      ShortEnd(side, t, c, k);
    } else if k <= |s| {
      LongEnd(side, t, c, k);
    }
  }

  lemma LeadNeeded(side: Side, s: string)
    requires s != "" && Continues(s[0])
    ensures SpacePrefix(side, s) == 0
  {
  }

  lemma ContinuationNeeded(side: Side, s: string, i: nat)
    requires 1 <= i < |s| && !Continues(s[i])
    ensures SpacePrefix(side, s) != |s|
  {
  }

  lemma WhiteSuffix(side: Side, t: string, c: Char)
    ensures SpaceSuffix(side, t + Utf8(c)) == if White(side, c) then |Utf8(c)| else 0
  {
    hide White, SpacePrefix, EndsInSpace, Utf8;
    WhiteEnd(side, t, c, 1);
    WhiteEnd(side, t, c, 2);
    WhiteEnd(side, t, c, 3);
    if White(side, c) { WhiteShort(side, c); }
  }

  lemma WhiteShort(side: Side, c: Char)
    requires White(side, c)
    ensures |Utf8(c)| <= 3
  {
  }

  lemma {:induction false} TrimRightOf(side: Side, cs: seq<Char>) returns (j: nat)
    ensures j <= |cs| && TrimRight(side, Utf8All(cs)) == Utf8All(cs[..j])
    ensures AllWhite(side, cs[j..]) && (j > 0 ==> !White(side, cs[j - 1]))
  {
    hide White, SpaceSuffix, Utf8All;
    j := |cs|;
    if cs == [] {
      EmptyPrefix(side);
      NothingEncoded();
    } else {
      var init, last := cs[..|cs| - 1], cs[|cs| - 1];
      assert cs == init + [last];
      Utf8Last(init, last);
      WhiteSuffix(side, Utf8All(init), last);
      if White(side, last) {
        j := TrimRightOf(side, init);
        var s := Utf8All(cs);
        assert s[..|s| - |Utf8(last)|] == Utf8All(init);
        assert init[..j] == cs[..j] && cs[j..] == init[j..] + [last];
      } else {
        assert cs[..|cs|] == cs;
      }
    }
  }

  lemma NothingEncoded()
    ensures Utf8All([]) == ""
  {
  }

  /** `trimmed` is `cs` without the white space at its two ends. */
  ghost predicate Trimmed(side: Side, cs: seq<Char>, trimmed: seq<Char>) {
    && (exists before, after :: cs == before + trimmed + after && AllWhite(side, before) && AllWhite(side, after))
    && (trimmed != [] ==> !White(side, trimmed[0]) && !White(side, trimmed[|trimmed| - 1]))
  }

  /** Both trims take away exactly the white space at the ends. */
  lemma TrimMeaning(side: Side, cs: seq<Char>) returns (trimmed: seq<Char>)
    ensures TrimSpace(side, Utf8All(cs)) == Utf8All(trimmed) && Trimmed(side, cs, trimmed)
  {
    hide White, Utf8All, TrimLeft, TrimRight;
    var before, rest := TrimLeftOf(side, cs);
    var j := TrimRightOf(side, rest);
    trimmed := rest[..j];
    assert cs == before + trimmed + rest[j..];
  }
}
