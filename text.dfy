/** The few Python string operations the application relies on, over ASCII. */
module Text {
  import opened Common

  predicate IsDigitChar(c: char) { '0' <= c <= '9' }

  predicate IsAlphaChar(c: char) { 'a' <= c <= 'z' || 'A' <= c <= 'Z' }

  /** The characters Python's str.strip() removes, restricted to ASCII. */
  predicate IsSpace(c: char)
  {
    ('\t' <= c <= '\r') || ('\U{1C}' <= c <= ' ')
  }

  /** Python's str.isdigit(): non-empty and every character a digit. */
  predicate IsDigits(s: string)
  {
    |s| > 0 && forall i :: 0 <= i < |s| ==> IsDigitChar(s[i])
  }

  /** Python's str.isalpha(): non-empty and every character a letter. */
  predicate IsAlphas(s: string)
  {
    |s| > 0 && forall i :: 0 <= i < |s| ==> IsAlphaChar(s[i])
  }

  /** Leading whitespace removed. */
  function TrimStart(s: string): string
    decreases |s|
  {
    if s != [] && IsSpace(s[0]) then TrimStart(s[1..]) else s
  }

  /** Trailing whitespace removed. */
  function TrimEnd(s: string): string
    decreases |s|
  {
    if s != [] && IsSpace(s[|s| - 1]) then TrimEnd(s[..|s| - 1]) else s
  }

  /** Python's str.strip(). */
  function Strip(s: string): string
  {
    TrimEnd(TrimStart(s))
  }

  /** TrimStart keeps a suffix of `s`, cuts only whitespace, and the kept part does not start
      with whitespace. */
  lemma {:induction false} TrimStartSpec(s: string)
    ensures |TrimStart(s)| <= |s| && TrimStart(s) == s[|s| - |TrimStart(s)|..]
    ensures forall i :: 0 <= i < |s| - |TrimStart(s)| ==> IsSpace(s[i])
    ensures TrimStart(s) == [] || !IsSpace(TrimStart(s)[0])
    decreases |s|
  {
    if s != [] && IsSpace(s[0]) {
      TrimStartSpec(s[1..]);
      forall i | 0 < i < |s| - |TrimStart(s)|
        ensures IsSpace(s[i])
      {
        assert s[i] == s[1..][i - 1];
      }
    }
  }

  /** TrimEnd keeps a prefix of `s`, cuts only whitespace, and the kept part does not end
      with whitespace. */
  lemma {:induction false} TrimEndSpec(s: string)
    ensures |TrimEnd(s)| <= |s| && TrimEnd(s) == s[..|TrimEnd(s)|]
    ensures forall i :: |TrimEnd(s)| <= i < |s| ==> IsSpace(s[i])
    ensures TrimEnd(s) == [] || !IsSpace(TrimEnd(s)[|TrimEnd(s)| - 1])
    decreases |s|
  {
    if s != [] && IsSpace(s[|s| - 1]) {
      TrimEndSpec(s[..|s| - 1]);
    }
  }

  /** strip() returns the slice s[i..j] between the leading and the trailing whitespace: all
      that is cut is whitespace, and the result neither starts nor ends with whitespace. */
  lemma StripSpec(s: string) returns (i: nat, j: nat)
    ensures i <= j <= |s| && Strip(s) == s[i..j]
    ensures forall k :: 0 <= k < i || j <= k < |s| ==> IsSpace(s[k])
    ensures Strip(s) == [] || (!IsSpace(Strip(s)[0]) && !IsSpace(Strip(s)[|Strip(s)| - 1]))
  {
    var t := TrimStart(s);
    TrimStartSpec(s);
    TrimEndSpec(t);
    i := |s| - |t|;
    j := i + |TrimEnd(t)|;
    assert t == s[i..];
    forall k | j <= k < |s|
      ensures IsSpace(s[k])
    {
      assert s[k] == t[k - i];
    }
    if TrimEnd(t) != [] {
      assert TrimEnd(t)[0] == t[0];
    }
  }

  /** Python's str.endswith(suffix). */
  predicate EndsWith(s: string, suffix: string)
  {
    |suffix| <= |s| && s[|s| - |suffix|..] == suffix
  }

  /** Python's s.replace(pat, ''): scan left to right and drop every non-overlapping occurrence. */
  function RemoveAll(s: string, pat: string): (r: string)
    requires pat != []
    ensures |r| <= |s|
    decreases |s|
  {
    if |s| < |pat| then s
    else if s[..|pat|] == pat then RemoveAll(s[|pat|..], pat)
    else [s[0]] + RemoveAll(s[1..], pat)
  }

  /** A string with no '.' followed by ".csv" loses exactly that suffix. */
  lemma {:induction false} RemoveCsvSuffix(d: string)
    requires forall i :: 0 <= i < |d| ==> d[i] != '.'
    ensures RemoveAll(d + ".csv", ".csv") == d
    decreases |d|
  {
    if d == [] {
      assert d + ".csv" == ".csv";
    } else {
      var s := d + ".csv";
      assert s[..4] != ".csv" by { assert s[0] == d[0] != '.'; }
      assert s[1..] == d[1..] + ".csv";
      RemoveCsvSuffix(d[1..]);
    }
  }

  function DigitChar(n: nat): (c: char)
    requires n < 10
    ensures IsDigitChar(c)
  {
    "0123456789"[n]
  }

  function DigitValue(c: char): (n: nat)
    requires IsDigitChar(c)
    ensures n < 10 && DigitChar(n) == c
  {
    (c - '0') as nat
  }

  /** The decimal digits of a natural number, without leading zeros. */
  function Digits(n: nat): (s: string)
    ensures IsDigits(s)
    ensures s[0] == '0' ==> n == 0
    decreases n
  {
    if n < 10 then [DigitChar(n)] else Digits(n / 10) + [DigitChar(n % 10)]
  }

  /** The value of a string of decimal digits. */
  function DigitsValue(s: string): nat
    requires forall i :: 0 <= i < |s| ==> IsDigitChar(s[i])
    decreases |s|
  {
    if s == [] then 0 else DigitsValue(s[..|s| - 1]) * 10 + DigitValue(s[|s| - 1])
  }

  /** Python's str(n) for an int, as csv.writer writes it. */
  function Decimal(n: int): (s: string)
    ensures |s| > 0
    ensures n >= 0 <==> IsDigits(s)
  {
    if n < 0 then
      var s := "-" + Digits(-n);
      assert !IsDigitChar(s[0]);
      s
    else Digits(n)
  }

  /** Python's int(s) on a string: surrounding whitespace allowed, an optional sign, then
      decimal digits; anything else raises ValueError, modelled as `None`. */
  function ParseInt(s: string): Option<int>
  {
    var t := Strip(s);
    if IsDigits(t) then Some(DigitsValue(t) as int)
    else if |t| >= 2 && t[0] == '-' && IsDigits(t[1..]) then Some(-(DigitsValue(t[1..]) as int))
    else if |t| >= 2 && t[0] == '+' && IsDigits(t[1..]) then Some(DigitsValue(t[1..]))
    else None
  }

  /** A digit string has nothing for strip() to remove. */
  lemma StripDigits(s: string)
    requires IsDigits(s)
    ensures Strip(s) == s
  {
    assert TrimStart(s) == s by { assert !IsSpace(s[0]); }
    assert TrimEnd(s) == s by { assert !IsSpace(s[|s| - 1]); }
  }

  /** int() of a plain digit string is its decimal value. */
  lemma ParseDigitString(s: string)
    requires IsDigits(s)
    ensures ParseInt(s) == Some(DigitsValue(s))
  {
    StripDigits(s);
  }

  lemma {:induction false} DigitsRoundTrip(n: nat)
    ensures DigitsValue(Digits(n)) == n
    decreases n
  {
    if n >= 10 {
      var s := Digits(n);
      DigitsRoundTrip(n / 10);
      assert s[..|s| - 1] == Digits(n / 10);
    }
  }

  /** A minus sign followed by digits has nothing for strip() to remove either. */
  lemma StripSignedDigits(s: string)
    requires |s| >= 2 && s[0] == '-' && IsDigits(s[1..])
    ensures Strip(s) == s
  {
    assert TrimStart(s) == s by { assert !IsSpace(s[0]); }
    assert s[|s| - 1] == s[1..][|s| - 2];
    assert TrimEnd(s) == s by { assert !IsSpace(s[|s| - 1]); }
  }

  /** A minus sign followed by digits reads as the negated digit value. */
  lemma ParseNegativeDigits(s: string)
    requires |s| >= 2 && s[0] == '-' && IsDigits(s[1..])
    ensures ParseInt(s) == Some(-(DigitsValue(s[1..]) as int))
  {
    StripSignedDigits(s);
    assert !IsDigits(s) by { assert !IsDigitChar(s[0]); }
  }

  /** str() of a negative number is "-" and its magnitude's digits, which int() reads back. */
  lemma NegativeDecimalRoundTrip(n: int)
    requires n < 0
    ensures ParseInt("-" + Digits(-n)) == Some(n)
  {
    var s := "-" + Digits(-n);
    assert s[1..] == Digits(-n);
    ParseNegativeDigits(s);
    DigitsRoundTrip(-n);
  }

  /** A digit string reads back as the number it spells. */
  lemma NonNegativeDecimalRoundTrip(m: nat)
    ensures ParseInt(Digits(m)) == Some(m)
  {
    DigitsRoundTrip(m);
    ParseDigitString(Digits(m));
  }

  /** Reading back what str() wrote gives the same integer (int(str(n)) == n). */
  lemma DecimalRoundTrip(n: int)
    ensures ParseInt(Decimal(n)) == Some(n)
  {
    if n < 0 {
      assert Decimal(n) == "-" + Digits(-n);
      NegativeDecimalRoundTrip(n);
    } else {
      assert Decimal(n) == Digits(n);
      NonNegativeDecimalRoundTrip(n);
    }
  }
}
