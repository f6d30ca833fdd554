/** Decimal integer literals: the parse applied to municipality codes, and its inverse. */
module Numbers {
  import opened Results

  predicate IsDigit(c: char)
  {
    '0' <= c <= '9'
  }

  /** A non-empty run of decimal digits. */
  predicate IsDigits(s: string)
  {
    |s| > 0 && forall i :: 0 <= i < |s| ==> IsDigit(s[i])
  }

  /** An optional sign followed by decimal digits. */
  predicate IsIntLiteral(s: string)
  {
    IsDigits(s) || (|s| > 1 && (s[0] == '+' || s[0] == '-') && IsDigits(s[1..]))
  }

  function DigitValue(c: char): nat
    requires IsDigit(c)
  {
    (c as int) - ('0' as int)
  }

  /** The value of a digit string, most significant digit first. */
  function DigitsValue(s: string): nat
    requires forall i :: 0 <= i < |s| ==> IsDigit(s[i])
  {
    if s == [] then 0
    else 10 * DigitsValue(s[..|s| - 1]) + DigitValue(s[|s| - 1])
  }

  /** `int(text)` on a municipality code, restricted to sign and digits. */
  function ParseInt(s: string): (r: Option<int>)
    ensures r.Some? <==> IsIntLiteral(s)
    ensures r.Some? && s[0] == '-' ==> r.value <= 0
    ensures r.Some? && s[0] != '-' ==> r.value >= 0
  {
    if IsDigits(s) then Some(DigitsValue(s))
    else if |s| > 1 && s[0] == '-' && IsDigits(s[1..]) then Some(-(DigitsValue(s[1..]) as int))
    else if |s| > 1 && s[0] == '+' && IsDigits(s[1..]) then Some(DigitsValue(s[1..]))
    else None
  }

  function DigitChar(d: nat): (c: char)
    requires d < 10
    ensures IsDigit(c) && DigitValue(c) == d
  {
    (('0' as int) + d) as char
  }

  /** Decimal rendering of a natural number, without leading zeros. */
  function FormatNat(n: nat): (s: string)
    ensures IsDigits(s)
    ensures n > 0 ==> s[0] != '0'
  {
    if n < 10 then [DigitChar(n)]
    else FormatNat(n / 10) + [DigitChar(n % 10)]
  }

  /** Decimal rendering of an integer: the text the code column is written as. */
  function FormatInt(n: int): (s: string)
    ensures |s| > 0 && (s[0] == '-' || IsDigit(s[0]))
  {
    if n < 0 then "-" + FormatNat(-n) else FormatNat(n)
  }

  lemma {:induction false} DigitsValueOfFormatNat(n: nat)
    ensures DigitsValue(FormatNat(n)) == n
  {
    var s := FormatNat(n);
    if n >= 10 {
      DigitsValueOfFormatNat(n / 10);
      assert s[..|s| - 1] == FormatNat(n / 10);
    }
  }

  /** Parsing a written code gives the code back. */
  lemma ParseFormatRoundTrip(n: int)
    ensures ParseInt(FormatInt(n)) == Some(n)
  {
    if n < 0 {
      DigitsValueOfFormatNat(-n);
      assert FormatInt(n)[1..] == FormatNat(-n);
    } else {
      DigitsValueOfFormatNat(n);
    }
  }

  /** A digit run written without superfluous leading zeros. */
  predicate IsCanonicalDigits(s: string)
  {
    IsDigits(s) && (s[0] != '0' || s == "0")
  }

  /** The way an integer is written: canonical digits, with a '-' in front of a non-zero value. */
  predicate IsCanonical(s: string)
  {
    IsCanonicalDigits(s) || (|s| > 1 && s[0] == '-' && s[1] != '0' && IsCanonicalDigits(s[1..]))
  }

  lemma {:induction false} DigitsValueLeadingZero(s: string)
    requires forall i :: 0 <= i < |s| ==> IsDigit(s[i])
    ensures DigitsValue("0" + s) == DigitsValue(s)
    decreases |s|
  {
    var t := "0" + s;
    if s != [] {
      assert t[..|t| - 1] == "0" + s[..|s| - 1];
      assert t[|t| - 1] == s[|s| - 1];
      DigitsValueLeadingZero(s[..|s| - 1]);
    } else {
      assert t[..|t| - 1] == [];
    }
  }

  lemma {:induction false} DigitsValuePositive(s: string)
    requires IsDigits(s) && s[0] != '0'
    ensures DigitsValue(s) > 0
    decreases |s|
  {
    if |s| > 1 {
      var init := s[..|s| - 1];
      assert init[0] == s[0];
      DigitsValuePositive(init);
    }
  }

  lemma {:induction false} FormatNatOfDigitsValue(s: string)
    requires IsCanonicalDigits(s)
    ensures FormatNat(DigitsValue(s)) == s
    decreases |s|
  {
    var last := s[|s| - 1];
    if |s| == 1 {
      assert s == [last];
      assert DigitsValue(s[..0]) == 0;
    } else {
      var init := s[..|s| - 1];
      assert init[0] == s[0];
      DigitsValuePositive(init);
      FormatNatOfDigitsValue(init);
      var n := DigitsValue(s);
      assert n / 10 == DigitsValue(init) && n % 10 == DigitValue(last);
      assert s == init + [last];
    }
  }

  /** Like `int()`, the parse ignores a leading zero, with or without a sign. */
  lemma ParseIgnoresLeadingZero(s: string)
    requires IsDigits(s)
    ensures ParseInt("0" + s) == ParseInt(s)
    ensures ParseInt("-0" + s) == ParseInt("-" + s)
  {
    DigitsValueLeadingZero(s);
    assert ("-0" + s)[1..] == "0" + s;
    assert ("-" + s)[1..] == s;
  }

  /** Like `int()`, the parse ignores a '+' sign. */
  lemma ParseIgnoresPlus(s: string)
    requires IsDigits(s)
    ensures ParseInt("+" + s) == ParseInt(s)
  {
    assert ("+" + s)[1..] == s;
  }

  /** Like `int()`, a '-' sign negates the value of the digits after it. */
  lemma ParseNegates(s: string)
    requires IsDigits(s)
    ensures ParseInt("-" + s) == Some(-ParseInt(s).value)
  {
    assert ("-" + s)[1..] == s;
  }

  /** A code written the canonical way parses to the integer whose rendering it is. Together
      with the three lemmas above, this fixes the value of every literal the parse accepts. */
  lemma FormatParseRoundTrip(s: string)
    requires IsCanonical(s)
    ensures ParseInt(s).Some? && FormatInt(ParseInt(s).value) == s
  {
    if IsCanonicalDigits(s) {
      FormatNatOfDigitsValue(s);
    } else {
      var digits := s[1..];
      DigitsValuePositive(digits);
      FormatNatOfDigitsValue(digits);
      assert s == "-" + digits;
    }
  }

  /** A text without any digit, such as the placeholder "-", is not a code. */
  lemma NoDigitIsNotACode(s: string)
    requires forall i :: 0 <= i < |s| ==> !IsDigit(s[i])
    ensures ParseInt(s) == None
  {
    if |s| > 1 {
      assert !IsDigit(s[1..][0]);
    }
  }

  /** A written code never reads as the header's first column. */
  lemma CodeIsNotHeaderText(n: int)
    ensures FormatInt(n) != "code"
  {
    assert "code"[0] == 'c';
  }
}
