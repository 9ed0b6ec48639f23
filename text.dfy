/** Decimal text of integers, as Python's `str(int)` and f-string
    interpolation produce it (`f"{width_px}px"`), with its parser as the
    partner that shows no information is lost. */
module Text {
  import opened Outcomes

  predicate IsDigit(c: char)
  {
    '0' <= c <= '9'
  }

  predicate AllDigits(s: string)
  {
    forall i :: 0 <= i < |s| ==> IsDigit(s[i])
  }

  /** A string Python prints for a natural number: digits, no leading zero
      unless the number is zero itself. */
  predicate CanonicalDigits(s: string)
  {
    |s| > 0 && AllDigits(s) && (|s| > 1 ==> s[0] != '0')
  }

  function DigitChar(d: nat): (c: char)
    requires d < 10
    ensures IsDigit(c)
  {
    ('0' as int + d) as char
  }

  function DigitValue(c: char): (d: nat)
    requires IsDigit(c)
    ensures d < 10 && DigitChar(d) == c
  {
    c as int - '0' as int
  }

  /** The decimal digits of `n`, most significant first. */
  function NatString(n: nat): (r: string)
    ensures CanonicalDigits(r)
    ensures n < 10 <==> |r| == 1
    decreases n
  {
    if n < 10 then [DigitChar(n)] else NatString(n / 10) + [DigitChar(n % 10)]
  }

  /** `str(n)` for a Python `int`. */
  function IntString(n: int): (r: string)
  {
    if n < 0 then "-" + NatString(-n) else NatString(n)
  }

  /** The value of a string of decimal digits. */
  function DigitsValue(s: string): (n: nat)
    requires AllDigits(s)
  {
    if s == [] then 0 else DigitsValue(s[..|s| - 1]) * 10 + DigitValue(s[|s| - 1])
  }

  /** `int(s)` restricted to an optional minus sign followed by digits. */
  function ParseInt(s: string): (r: Option<int>)
  {
    if |s| > 0 && s[0] == '-' then
      if |s| > 1 && AllDigits(s[1..]) then Some(-(DigitsValue(s[1..]) as int)) else None
    else if |s| > 0 && AllDigits(s) then Some(DigitsValue(s))
    else None
  }

  lemma {:induction false} NatStringValue(n: nat)
    ensures DigitsValue(NatString(n)) == n
    decreases n
  {
    if n >= 10 {
      NatStringValue(n / 10);
      var s := NatString(n);
      assert s[..|s| - 1] == NatString(n / 10);
    }
  }

  /** Parsing the printed text of an integer gives the integer back. */
  lemma IntStringRoundTrip(n: int)
    ensures ParseInt(IntString(n)) == Some(n)
  {
    var s := IntString(n);
    if n < 0 {
      NatStringValue(-n);
      assert s[1..] == NatString(-n);
      assert s[0] == '-' && |s| > 1 && AllDigits(s[1..]);
    } else {
      NatStringValue(n);
      assert IsDigit(s[0]);
    }
  }

  lemma {:induction false} LeadingDigitPositive(s: string)
    requires AllDigits(s) && |s| > 0 && s[0] != '0'
    ensures DigitsValue(s) > 0
    decreases |s|
  {
    if |s| > 1 {
      LeadingDigitPositive(s[..|s| - 1]);
    }
  }

  lemma {:induction false} CanonicalValue(s: string)
    requires CanonicalDigits(s)
    ensures NatString(DigitsValue(s)) == s
    decreases |s|
  {
    if |s| > 1 {
      var front := s[..|s| - 1];
      assert CanonicalDigits(front);
      CanonicalValue(front);
      LeadingDigitPositive(front);
      assert s == front + [s[|s| - 1]];
    }
  }

  /** Conversely, every text Python prints for an integer is the printed
      text of the number it parses to. */
  lemma ParseIntCanonical(s: string)
    requires ParseInt(s).Some?
    requires if s[0] == '-' then CanonicalDigits(s[1..]) && s[1] != '0' else CanonicalDigits(s)
    ensures IntString(ParseInt(s).value) == s
  {
    if s[0] == '-' {
      CanonicalValue(s[1..]);
      LeadingDigitPositive(s[1..]);
      assert s == "-" + s[1..];
    } else {
      CanonicalValue(s);
    }
  }

  /** The CSS length `f"{n}px"`. */
  function PixelLength(n: int): (r: string)
    ensures |r| >= 3 && r[|r| - 2..] == "px"
    ensures ParseInt(r[..|r| - 2]) == Some(n)
  {
    IntStringRoundTrip(n);
    var digits := IntString(n);
    assert (digits + "px")[..|digits|] == digits;
    digits + "px"
  }
}
