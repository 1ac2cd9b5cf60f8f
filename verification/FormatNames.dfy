/** The names of the subscription formats. */
module FormatNames {
  import opened Text

  datatype Format = LinksFormat | Base64Format | ClashFormat | ConfFormat | SingBoxFormat

  function LowerChar(c: char): char { if 'A' <= c <= 'Z' then c - 'A' + 'a' else c }

  /** U+0130, a capital I with a dot above. */
  predicate DottedI(s: string) { |s| >= 2 && s[0] as int == 0xC4 && s[1] as int == 0xB0 }

  /** U+212A, the Kelvin sign. */
  predicate KelvinSign(s: string) {
    |s| >= 3 && s[0] as int == 0xE2 && s[1] as int == 0x84 && s[2] as int == 0xAA
  }

  /** Lower case as far as ASCII letters come of it: both take the Kelvin sign to a k, and Go alone takes U+0130 to an
      i. Any other character outside ASCII stays one, and is left as it is here. */
  function ToLower(side: Side, s: string): string {
    if s == "" then ""
    else if side == Go && DottedI(s) then "i" + ToLower(side, s[2..])
    else if KelvinSign(s) then "k" + ToLower(side, s[3..])
    else [LowerChar(s[0])] + ToLower(side, s[1..])
  }

  /** The names both registries know. */
  function Named(name: string): Option<Format> {
    if name in ["shadowrocket", "links", "plain"] then Some(LinksFormat)
    else if name == "base64" then Some(Base64Format)
    else if name in ["clash", "mihomo"] then Some(ClashFormat)
    else if name in ["shadowrocket-conf", "shadowrocket-config", "sr-conf", "srconfig"] then Some(ConfFormat)
    else if name in ["sing-box", "singbox"] then Some(SingBoxFormat)
    else None
  }

  /** Go's switch has the empty name among its cases. */
  function GoFormat(format: string): Option<Format> {
    if ToLower(Go, format) == "" then Some(LinksFormat) else Named(ToLower(Go, format))
  }

  /** The format parameter of a Go request: trimmed, with a default. */
  function GoQueryFormat(parameter: string): Option<Format> {
    GoFormat(if TrimSpace(Go, parameter) == "" then "shadowrocket" else TrimSpace(Go, parameter))
  }

  function WorkerFormat(format: string): Option<Format> {
    Named(ToLower(Js, if format != "" then format else "shadowrocket"))
  }

  // ----- which name asks for what -----

  /** No name stands for two formats. */
  lemma NamesApart(name: string)
    ensures name in ["shadowrocket", "links", "plain"] ==> |name| == 12 || |name| == 5
    ensures name in ["shadowrocket", "links", "plain"] ==> name[0] == 's' || name[0] == 'l' || name[0] == 'p'
    ensures name == "base64" ==> |name| == 6 && name[0] == 'b'
    ensures name in ["clash", "mihomo"] ==> name[0] == 'c' || name[0] == 'm'
    ensures name in ["shadowrocket-conf", "shadowrocket-config", "sr-conf", "srconfig"] ==>
              name[0] == 's' && |name| != 12 && name[1] != 'i'
    ensures name in ["sing-box", "singbox"] ==> name[0] == 's' && |name| != 12 && name[1] == 'i'
  {
  }

  lemma FormatOf(name: string)
    ensures Named(name) == Some(LinksFormat) <==> name in ["shadowrocket", "links", "plain"]
    ensures Named(name) == Some(Base64Format) <==> name == "base64"
    ensures Named(name) == Some(ClashFormat) <==> name in ["clash", "mihomo"]
    ensures Named(name) == Some(ConfFormat) <==>
            name in ["shadowrocket-conf", "shadowrocket-config", "sr-conf", "srconfig"]
    ensures Named(name) == Some(SingBoxFormat) <==> name in ["sing-box", "singbox"]
  {
    NamesApart(name);
  }

  lemma LoweredEmpty(side: Side, s: string)
    ensures ToLower(side, s) == "" <==> s == ""
  {
  }

  lemma LowerLower(side: Side, s: string)
    requires IsAscii(s) && forall i :: 0 <= i < |s| ==> !('A' <= s[i] <= 'Z')
    ensures ToLower(side, s) == s
  {
    LowerAscii(side, s);
  }

  lemma ShadowrocketLower(side: Side)
    ensures ToLower(side, "shadowrocket") == "shadowrocket"
  {
    hide ToLower;
    LowerLower(side, "shadowrocket");
  }

  /** Of ASCII text, only the upper-case letters change. */
  lemma {:induction false} LowerAscii(side: Side, s: string)
    requires IsAscii(s)
    ensures |ToLower(side, s)| == |s|
    ensures forall i :: 0 <= i < |s| ==>
              ToLower(side, s)[i] as int == if 'A' <= s[i] <= 'Z' then s[i] as int + 32 else s[i] as int
  {
    if s != "" {
      LowerAscii(side, s[1..]);
      assert !DottedI(s) && !KelvinSign(s);
    }
  }

  /** The format names of Go's renderer. */
  lemma GoFormatNames(format: string)
    ensures var name := ToLower(Go, format);
            && (GoFormat(format) == Some(LinksFormat) <==> name in ["", "shadowrocket", "links", "plain"])
            && (GoFormat(format) == Some(Base64Format) <==> name == "base64")
            && (GoFormat(format) == Some(ClashFormat) <==> name in ["clash", "mihomo"])
            && (GoFormat(format) == Some(ConfFormat) <==>
                  name in ["shadowrocket-conf", "shadowrocket-config", "sr-conf", "srconfig"])
            && (GoFormat(format) == Some(SingBoxFormat) <==> name in ["sing-box", "singbox"])
  {
    hide Named, ToLower;
    FormatOf(ToLower(Go, format));
  }

  /** The format names of a request to the Go registry: as in the renderer, once white space is trimmed. */
  lemma GoQueryFormatNames(parameter: string)
    ensures var name := ToLower(Go, TrimSpace(Go, parameter));
            && (GoQueryFormat(parameter) == Some(LinksFormat) <==> name in ["", "shadowrocket", "links", "plain"])
            && (GoQueryFormat(parameter) == Some(Base64Format) <==> name == "base64")
            && (GoQueryFormat(parameter) == Some(ClashFormat) <==> name in ["clash", "mihomo"])
            && (GoQueryFormat(parameter) == Some(ConfFormat) <==>
                  name in ["shadowrocket-conf", "shadowrocket-config", "sr-conf", "srconfig"])
            && (GoQueryFormat(parameter) == Some(SingBoxFormat) <==> name in ["sing-box", "singbox"])
  {
    hide GoFormat, ToLower, TrimSpace;
    var trimmed := TrimSpace(Go, parameter);
    LoweredEmpty(Go, trimmed);
    ShadowrocketLower(Go);
    GoFormatNames(trimmed);
    GoFormatNames("shadowrocket");
  }

  /** The name the Worker looks for: the default one, when there is none. */
  lemma WorkerLowered(format: string)
    ensures ToLower(Js, if format != "" then format else "shadowrocket") ==
            if format != "" then ToLower(Js, format) else "shadowrocket"
    ensures ToLower(Js, format) == "" <==> format == ""
  {
    hide ToLower;
    LoweredEmpty(Js, format);
    ShadowrocketLower(Js);
  }

  /** The format names of the Worker. */
  lemma WorkerFormatNames(format: string)
    ensures var name := ToLower(Js, format);
            && (WorkerFormat(format) == Some(LinksFormat) <==> name in ["", "shadowrocket", "links", "plain"])
            && (WorkerFormat(format) == Some(Base64Format) <==> name == "base64")
            && (WorkerFormat(format) == Some(ClashFormat) <==> name in ["clash", "mihomo"])
            && (WorkerFormat(format) == Some(ConfFormat) <==>
                  name in ["shadowrocket-conf", "shadowrocket-config", "sr-conf", "srconfig"])
            && (WorkerFormat(format) == Some(SingBoxFormat) <==> name in ["sing-box", "singbox"])
  {
    hide Named, ToLower;
    LoweredEmpty(Js, format);
    ShadowrocketLower(Js);
    FormatOf(ToLower(Js, format));
    FormatOf("shadowrocket");
  }

  /** A character that is in no format name. */
  predicate Foreign(c: char) { c as int >= 0x80 || IsAsciiSpace(c) }

  lemma ForeignName(name: string, c: char)
    requires Foreign(c) && c in name
    ensures Named(name) == None
  {
    assert c !in "shadowrocket" && c !in "links" && c !in "plain" && c !in "base64";
    assert c !in "clash" && c !in "mihomo" && c !in "sing-box" && c !in "singbox";
    assert c !in "shadowrocket-conf" && c !in "shadowrocket-config" && c !in "sr-conf" && c !in "srconfig";
  }

  /** The first byte of a text that does not begin with the Kelvin sign, unless it is a letter, is in the Worker's
      text. */
  lemma LowerFirst(s: string)
    requires s != "" && !KelvinSign(s) && Foreign(s[0])
    ensures s[0] in ToLower(Js, s)
  {
    assert LowerChar(s[0]) == s[0];
  }

  predicate EndsInKelvin(s: string) { |s| >= 3 && KelvinSign(s[|s| - 3..]) }

  lemma KelvinAlone(s: string)
    requires KelvinSign(s) && |s| == 3
    ensures EndsInKelvin(s)
  {
    assert s[|s| - 3..] == s;
  }

  lemma {:induction false} LowerLast(s: string)
    requires s != "" && !EndsInKelvin(s) && Foreign(s[|s| - 1])
    ensures s[|s| - 1] in ToLower(Js, s)
  {
    var k := if KelvinSign(s) then 3 else 1;
    if KelvinSign(s) && |s| == 3 { KelvinAlone(s); }
    if k < |s| {
      var rest := s[k..];
      assert |rest| >= 3 ==> rest[|rest| - 3..] == s[|s| - 3..];
      LowerLast(rest);
    }
  }

  lemma TrimmedAtEnd(s: string)
    requires SpacePrefix(Go, s) == 0 && SpaceSuffix(Go, s) == 0
    ensures TrimSpace(Go, s) == s
  {
    hide SpacePrefix, SpaceSuffix;
  }

  lemma SpacedStart(s: string)
    requires SpacePrefix(Go, s) > 0
    ensures s != "" && Foreign(s[0]) && !KelvinSign(s)
  {
  }

  /** A name with white space at an end is unknown to the Worker. */
  lemma SpacedName(parameter: string)
    requires TrimSpace(Go, parameter) != parameter
    ensures WorkerFormat(parameter) == None
  {
    hide Named, ToLower, TrimSpace, SpacePrefix, SpaceSuffix, Foreign, KelvinSign, EndsInKelvin;
    if SpacePrefix(Go, parameter) > 0 {
      SpacedStart(parameter);
      LowerFirst(parameter);
      ForeignName(ToLower(Js, parameter), parameter[0]);
    } else {
      if SpaceSuffix(Go, parameter) == 0 { TrimmedAtEnd(parameter); }
      SpacedSuffix(parameter);
      LowerLast(parameter);
      ForeignName(ToLower(Js, parameter), parameter[|parameter| - 1]);
    }
  }

  lemma SpacedSuffix(s: string)
    requires SpaceSuffix(Go, s) > 0
    ensures s != "" && Foreign(s[|s| - 1]) && !EndsInKelvin(s)
  {
    hide SpacePrefix, Foreign, EndsInKelvin;
    SpacedEnd(s, SpaceSuffix(Go, s));
  }

  lemma SpacedEnd(s: string, k: nat)
    requires k > 0 && EndsInSpace(Go, s, k)
    ensures Foreign(s[|s| - 1]) && !EndsInKelvin(s)
  {
    var end := s[|s| - k..];
    assert end[k - 1] == s[|s| - 1];
    if |s| >= 3 {
      var last := s[|s| - 3..];
      assert last[2] == s[|s| - 1];
      if k == 2 { assert end[0] == last[1]; }
      if k == 3 { assert end == last; }
    }
  }

  predicate HasDottedI(s: string) { exists i :: 0 <= i < |s| && DottedI(s[i..]) }

  /** A capital I with a dot above stays outside ASCII in the Worker. */
  lemma {:induction false} LowerKeeps(s: string, i: nat)
    requires i < |s| && DottedI(s[i..])
    ensures s[i] in ToLower(Js, s)
  {
    assert s[i..][0] == s[i];
    if i > 0 {
      if KelvinSign(s) {
        assert i >= 3 && s[3..][i - 3..] == s[i..];
        LowerKeeps(s[3..], i - 3);
      } else {
        assert s[1..][i - 1..] == s[i..];
        LowerKeeps(s[1..], i - 1);
      }
    } else {
      assert s[0..] == s;
    }
  }

  lemma {:induction false} LowerSame(s: string)
    requires !HasDottedI(s)
    ensures ToLower(Go, s) == ToLower(Js, s)
  {
    if s != "" {
      assert s[0..] == s;
      var k := if KelvinSign(s) then 3 else 1;
      forall i | 0 <= i < |s[k..]| ensures !DottedI(s[k..][i..]) { assert s[k..][i..] == s[k + i..]; }
      LowerSame(s[k..]);
    }
  }

  /** The Worker knows the format names Go knows, with two exceptions: it does not trim white space around them, and
      it does not take a capital I with a dot above for an i. */
  lemma FormatsRecognised(parameter: string)
    ensures WorkerFormat(parameter) ==
            if TrimSpace(Go, parameter) == parameter && !HasDottedI(parameter) then GoQueryFormat(parameter) else None
  {
    hide TrimSpace, Named, ToLower, DottedI;
    if TrimSpace(Go, parameter) != parameter {
      SpacedName(parameter);
    } else if HasDottedI(parameter) {
      DottedName(parameter);
    } else if parameter == "" {
      AsciiUndotted("shadowrocket");
      LowerSame("shadowrocket");
      NotEmpty("shadowrocket");
    } else {
      LowerSame(parameter);
      NotEmpty(parameter);
    }
  }

  lemma DottedName(parameter: string)
    requires HasDottedI(parameter)
    ensures WorkerFormat(parameter) == None
  {
    var i :| 0 <= i < |parameter| && DottedI(parameter[i..]);
    assert parameter[i..][0] == parameter[i];
    LowerKeeps(parameter, i);
    ForeignName(ToLower(Js, parameter), parameter[i]);
  }

  lemma AsciiUndotted(s: string)
    requires IsAscii(s)
    ensures !HasDottedI(s)
  {
  }

  lemma NotEmpty(s: string)
    requires s != ""
    ensures ToLower(Go, s) != ""
  {
  }
}
