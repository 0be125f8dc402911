/** Invariant-culture decimal text of integers: what C# `ToString()` produces
    for an integral value, and what the `Convert.ToInt32`-style parsers accept
    under `NumberStyles.Integer`: optional leading and trailing white space,
    then an optional `+` or `-`, then at least one digit. */
module Decimal {
  import opened Wrappers

  predicate IsDigit(c: char) {
    '0' <= c <= '9'
  }

  predicate AllDigits(s: string) {
    forall i | 0 <= i < |s| :: IsDigit(s[i])
  }

  function DigitChar(d: nat): (c: char)
    requires d < 10
    ensures IsDigit(c) && DigitValue(c) == d
  {
    ('0' as int + d) as char
  }

  function DigitValue(c: char): nat
    requires IsDigit(c)
  {
    c as int - '0' as int
  }

  /** The decimal digits of `n`, most significant first, without leading zeros. */
  function FromNat(n: nat): (s: string)
    ensures |s| > 0 && AllDigits(s)
    ensures n < 10 <==> |s| == 1
  {
    if n < 10 then [DigitChar(n)] else FromNat(n / 10) + [DigitChar(n % 10)]
  }

  /** The decimal text of `i`, with a leading '-' when it is negative. */
  function FromInt(i: int): (s: string)
    ensures |s| > 0
    ensures i < 0 <==> s[0] == '-'
  {
    if i < 0 then "-" + FromNat(-i) else FromNat(i)
  }

  /** The number a non-empty run of digits denotes. */
  function DigitsValue(s: string): nat
    requires AllDigits(s)
  {
    if |s| == 0 then 0 else DigitsValue(s[..|s| - 1]) * 10 + DigitValue(s[|s| - 1])
  }

  function ParseNat(s: string): Option<nat> {
    if |s| > 0 && AllDigits(s) then Some(DigitsValue(s)) else None
  }

  /** The white space `NumberStyles.AllowLeadingWhite` and `AllowTrailingWhite` skip: U+0009 to U+000D and U+0020. */
  predicate IsWhite(c: char) {
    c == ' ' || '\t' <= c <= '\r'
  }

  predicate AllWhite(s: string) {
    forall i | 0 <= i < |s| :: IsWhite(s[i])
  }

  /** `s` without its leading white space. */
  function TrimStart(s: string): (t: string)
    ensures |t| == 0 || !IsWhite(t[0])
    decreases |s|
  {
    if |s| > 0 && IsWhite(s[0]) then TrimStart(s[1..]) else s
  }

  /** `s` without its trailing white space. */
  function TrimEnd(s: string): (t: string)
    ensures |t| == 0 || !IsWhite(t[|t| - 1])
    decreases |s|
  {
    if |s| > 0 && IsWhite(s[|s| - 1]) then TrimEnd(s[..|s| - 1]) else s
  }

  /** A sign, when there is one, followed by the digits. */
  function ParseSigned(s: string): Option<int> {
    if |s| > 0 && (s[0] == '-' || s[0] == '+') then
      match ParseNat(s[1..])
      case Some(n) => Some(if s[0] == '-' then -(n as int) else n)
      case None => None
    else
      match ParseNat(s)
      case Some(n) => Some(n)
      case None => None
  }

  /** Parsing as the integral `As*` conversions and unmarshallers do; `None` is a format error. */
  function ParseInt(s: string): Option<int> {
    ParseSigned(TrimEnd(TrimStart(s)))
  }

  lemma {:induction false} ParseFromNat(n: nat)
    ensures ParseNat(FromNat(n)) == Some(n)
  {
    var s := FromNat(n);
    if n >= 10 {
      ParseFromNat(n / 10);
      assert s[..|s| - 1] == FromNat(n / 10);
      assert DigitsValue(s) == (n / 10) * 10 + n % 10;
    } else {
      assert s[..0] == [];
      assert DigitsValue(s) == n;
    }
  }

  /** Text that neither starts nor ends with white space is parsed as it stands. */
  lemma ParseUntrimmed(s: string)
    requires |s| > 0 && !IsWhite(s[0]) && !IsWhite(s[|s| - 1])
    ensures ParseInt(s) == ParseSigned(s)
  {
    assert TrimStart(s) == s;
    assert TrimEnd(s) == s;
  }

  /** Parsing undoes rendering: the round trip of a version number. */
  lemma ParseFromInt(i: int)
    ensures ParseInt(FromInt(i)) == Some(i)
  {
    if i < 0 {
      ParseMinusSign(-i);
    } else {
      ParseDigits(i);
    }
  }

  lemma ParseMinusSign(n: nat)
    ensures ParseInt("-" + FromNat(n)) == Some(-(n as int))
  {
    var t := FromNat(n);
    var s := "-" + t;
    ParseFromNat(n);
    assert s[1..] == t;
    assert s[|s| - 1] == t[|t| - 1];
    ParseUntrimmed(s);
  }

  lemma ParseDigits(n: nat)
    ensures ParseInt(FromNat(n)) == Some(n)
  {
    var s := FromNat(n);
    ParseFromNat(n);
    assert IsDigit(s[0]) && IsDigit(s[|s| - 1]);
    ParseUntrimmed(s);
  }

  lemma {:induction false} TrimStartWhite(lead: string, s: string)
    requires AllWhite(lead) && (|s| == 0 || !IsWhite(s[0]))
    ensures TrimStart(lead + s) == s
    decreases |lead|
  {
    if |lead| > 0 {
      assert (lead + s)[1..] == lead[1..] + s;
      TrimStartWhite(lead[1..], s);
    } else {
      assert lead + s == s;
    }
  }

  lemma {:induction false} TrimEndWhite(s: string, trail: string)
    requires AllWhite(trail) && (|s| == 0 || !IsWhite(s[|s| - 1]))
    ensures TrimEnd(s + trail) == s
    decreases |trail|
  {
    if |trail| > 0 {
      assert (s + trail)[..|s + trail| - 1] == s + trail[..|trail| - 1];
      TrimEndWhite(s, trail[..|trail| - 1]);
    } else {
      assert s + trail == s;
    }
  }

  /**
   * White space around the number is ignored: text whose first and last
   * characters are not white space parses the same with any white space
   * added before and after it.
   */
  lemma ParseIgnoresSurroundingWhite(lead: string, s: string, trail: string)
    requires AllWhite(lead) && AllWhite(trail)
    requires |s| > 0 && !IsWhite(s[0]) && !IsWhite(s[|s| - 1])
    ensures ParseInt(lead + s + trail) == ParseInt(s)
  {
    assert lead + s + trail == lead + (s + trail);
    TrimStartWhite(lead, s + trail);
    TrimEndWhite(s, trail);
    ParseUntrimmed(s);
  }

  /** A leading `+` is accepted, so `+n` and `n` are the same number. */
  lemma ParsePlusSign(n: nat)
    ensures ParseInt("+" + FromNat(n)) == Some(n)
  {
    var t := FromNat(n);
    var s := "+" + t;
    ParseFromNat(n);
    assert s[1..] == t;
    assert s[|s| - 1] == t[|t| - 1];
    ParseUntrimmed(s);
  }

  /** Distinct numbers have distinct renderings, so `Name.1`, `Name.2`, ... never collide. */
  lemma FromNatInjective(a: nat, b: nat)
    ensures FromNat(a) == FromNat(b) ==> a == b
  {
    ParseFromNat(a);
    ParseFromNat(b);
  }
}
