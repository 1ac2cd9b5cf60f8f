/** Decimal integers as `%d` and JavaScript string interpolation print them. */
module Numbers {
  import opened Text

  function DigitChar(d: int): char
    requires 0 <= d < 10
  {
    d as char + '0'
  }

  function DigitValue(c: char): int
    requires IsDigit(c)
  {
    c as int - '0' as int
  }

  function PrintNat(n: nat): string {
    if n < 10 then [DigitChar(n)] else PrintNat(n / 10) + [DigitChar(n % 10)]
  }

  function PrintInt(n: int): string {
    if n < 0 then "-" + PrintNat(-n) else PrintNat(n)
  }

  /** The digits in order, the units last. */
  lemma PrintMeaning(n: int)
    ensures 0 <= n < 10 ==> PrintInt(n) == ["0123456789"[n]]
    ensures n >= 10 ==> PrintInt(n) == PrintInt(n / 10) + PrintInt(n % 10)
    ensures n < 0 ==> PrintInt(n) == "-" + PrintInt(-n)
  {
  }

  predicate AllDigits(s: string) {
    forall i :: 0 <= i < |s| ==> IsDigit(s[i])
  }

  /** The number a digit string denotes. */
  function NatValue(s: string): int
    requires AllDigits(s)
  {
    if s == "" then 0 else 10 * NatValue(s[..|s| - 1]) + DigitValue(s[|s| - 1])
  }

  function ParseInt(s: string): Option<int> {
    if |s| > 0 && AllDigits(s) then Some(NatValue(s))
    else if |s| > 1 && s[0] == '-' && AllDigits(s[1..]) then Some(-NatValue(s[1..]))
    else None
  }

  lemma {:induction false} PrintNatDigits(n: nat)
    ensures AllDigits(PrintNat(n)) && |PrintNat(n)| > 0 && NatValue(PrintNat(n)) == n
  {
    if n >= 10 {
      PrintNatDigits(n / 10);
      assert PrintNat(n)[..|PrintNat(n)| - 1] == PrintNat(n / 10);
    }
  }

  /** Every integer is read back from its decimal text. */
  lemma PrintParseInt(n: int)
    ensures ParseInt(PrintInt(n)) == Some(n)
  {
    if n < 0 {
      PrintNatDigits(-n);
      assert PrintInt(n)[1..] == PrintNat(-n);
    } else {
      PrintNatDigits(n);
    }
  }

  lemma PrintIntChars(n: int, c: char)
    requires c in PrintInt(n)
    ensures IsDigit(c) || c == '-'
  {
    PrintNatDigits(if n < 0 then -n else n);
  }

  /** A digit string without a leading zero is how its number is printed. */
  lemma {:induction false} PrintNatValue(s: string)
    requires s != "" && AllDigits(s) && (|s| == 1 || s[0] != '0')
    ensures NatValue(s) >= 0 && PrintNat(NatValue(s)) == s
    ensures s[0] != '0' ==> NatValue(s) > 0
  {
    var init, last := s[..|s| - 1], s[|s| - 1];
    assert s == init + [last];
    if init == "" {
      assert NatValue(init) == 0;
    } else {
      PrintNatValue(init);
    }
  }
}
