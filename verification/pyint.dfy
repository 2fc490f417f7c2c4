/** Python's `int(text)` and `str(n)` for base 10.

    `int` accepts surrounding whitespace, one optional sign, and a run of
    decimal digits in which single underscores may separate digits
    ("1_000"). Anything else raises `ValueError`, which `ParseInt` reports as
    `None`. Only ASCII whitespace and ASCII digits are modelled.
 */
module PyInt {
  import opened Outcomes
  import opened Text

  function StripLeft(s: string): (r: string)
    decreases |s|
  {
    if |s| > 0 && IsAsciiSpace(s[0]) then StripLeft(s[1..]) else s
  }

  function StripRight(s: string): (r: string)
    decreases |s|
  {
    if |s| > 0 && IsAsciiSpace(s[|s| - 1]) then StripRight(s[..|s| - 1]) else s
  }

  /** `str.strip()`: drop leading and trailing whitespace. */
  function Strip(s: string): string
  {
    StripRight(StripLeft(s))
  }

  /** Digits, with single underscores allowed between two digits: read from
      the end, a run is a digit preceded by nothing, by a run, or by an
      underscore that a run precedes. */
  predicate IsDigitRun(t: string)
    decreases |t|
  {
    && |t| > 0
    && IsAsciiDigit(t[|t| - 1])
    && (|t| == 1 ||
        var p := t[..|t| - 1];
        if p[|p| - 1] == '_' then IsDigitRun(p[..|p| - 1]) else IsDigitRun(p))
  }

  function DigitValue(c: char): nat
    requires IsAsciiDigit(c)
  {
    c as int - '0' as int
  }

  function DigitChar(d: nat): (c: char)
    requires d < 10
    ensures IsAsciiDigit(c) && DigitValue(c) == d
  {
    (d + '0' as int) as char
  }

  /** The number a digit run denotes; underscores carry no value. */
  function RunValue(t: string): nat
    requires IsDigitRun(t)
    decreases |t|
  {
    var d := DigitValue(t[|t| - 1]);
    if |t| == 1 then d
    else
      var p := t[..|t| - 1];
      if p[|p| - 1] == '_' then RunValue(p[..|p| - 1]) * 10 + d else RunValue(p) * 10 + d
  }

  /** `int(s)`; `None` stands for the `ValueError` Python raises. */
  function ParseInt(s: string): Option<int>
  {
    ParseStripped(Strip(s))
  }

  /** A signed digit run, already stripped of whitespace. */
  function ParseStripped(t: string): Option<int>
  {
    if |t| == 0 then None
    else if t[0] == '+' || t[0] == '-' then
      var u := t[1..];
      if !IsDigitRun(u) then None
      else if t[0] == '-' then Some(-(RunValue(u) as int))
      else Some(RunValue(u))
    else if IsDigitRun(t) then Some(RunValue(t))
    else None
  }

  /** `str(n)` for a natural number: its decimal digits, no leading zero. */
  function FormatNat(n: nat): (r: string)
    ensures |r| > 0 && AllDigits(r)
  {
    if n < 10 then [DigitChar(n)] else FormatNat(n / 10) + [DigitChar(n % 10)]
  }

  /** `str(n)`. */
  function FormatInt(n: int): (r: string)
    ensures |r| > 0
  {
    if n < 0 then "-" + FormatNat(-n) else FormatNat(n)
  }

  lemma {:induction false} RunValueOfFormat(n: nat)
    ensures IsDigitRun(FormatNat(n)) && RunValue(FormatNat(n)) == n
  {
    if n >= 10 {
      var r := FormatNat(n);
      assert r[..|r| - 1] == FormatNat(n / 10);
      RunValueOfFormat(n / 10);
    }
  }

  /** `str` writes no surrounding whitespace, so stripping keeps it whole. */
  lemma StripKeepsFormat(n: int)
    ensures Strip(FormatInt(n)) == FormatInt(n)
  {
    var s := FormatInt(n);
    assert !IsAsciiSpace(s[0]);
    assert StripLeft(s) == s;
    assert !IsAsciiSpace(s[|s| - 1]);
    assert StripRight(s) == s;
  }

  lemma {:induction false} RunStartsWithDigit(t: string)
    requires IsDigitRun(t)
    ensures IsAsciiDigit(t[0])
    decreases |t|
  {
    if |t| > 1 {
      var p := t[..|t| - 1];
      if p[|p| - 1] == '_' {
        RunStartsWithDigit(p[..|p| - 1]);
      } else {
        RunStartsWithDigit(p);
      }
    }
  }

  lemma ParseDigits(t: string)
    requires IsDigitRun(t)
    ensures ParseStripped(t) == Some(RunValue(t) as int)
  {
    RunStartsWithDigit(t);
  }

  lemma ParseMinus(t: string)
    requires |t| > 0 && t[0] == '-' && IsDigitRun(t[1..])
    ensures ParseStripped(t) == Some(-(RunValue(t[1..]) as int))
  {
  }

  /** Reading back what `str` wrote gives the number: `int(str(n)) == n`. */
  lemma ParseFormatRoundTrip(n: int)
    ensures ParseInt(FormatInt(n)) == Some(n)
  {
    StripKeepsFormat(n);
    if n < 0 {
      ParseNegativeFormat(-n);
    } else {
      ParseNatFormat(n);
    }
  }

  lemma ParseNatFormat(m: nat)
    ensures ParseStripped(FormatNat(m)) == Some(m as int)
  {
    RunValueOfFormat(m);
    ParseDigits(FormatNat(m));
  }

  lemma ParseNegativeFormat(m: nat)
    ensures ParseStripped("-" + FormatNat(m)) == Some(-(m as int))
  {
    var s := "-" + FormatNat(m);
    assert s[1..] == FormatNat(m);
    RunValueOfFormat(m);
    ParseMinus(s);
  }

  lemma {:induction false} StripLeftIsSuffix(s: string)
    ensures |StripLeft(s)| <= |s| && StripLeft(s) == s[|s| - |StripLeft(s)|..]
    decreases |s|
  {
    if |s| > 0 && IsAsciiSpace(s[0]) {
      StripLeftIsSuffix(s[1..]);
    }
  }

  lemma {:induction false} StripRightIsPrefix(s: string)
    ensures |StripRight(s)| <= |s| && StripRight(s) == s[..|StripRight(s)|]
    decreases |s|
  {
    if |s| > 0 && IsAsciiSpace(s[|s| - 1]) {
      StripRightIsPrefix(s[..|s| - 1]);
    }
  }

  /** Whatever parses as a number has a digit in it, so text without digits
      is rejected. */
  lemma ParsedHasDigit(s: string)
    requires ParseInt(s).Some?
    ensures exists i :: 0 <= i < |s| && IsAsciiDigit(s[i])
  {
    var l := StripLeft(s);
    var t := Strip(s);
    StripLeftIsSuffix(s);
    StripRightIsPrefix(l);
    assert IsDigitRun(t) || IsDigitRun(t[1..]);
    var k := |s| - |l| + |t| - 1;
    assert t[|t| - 1] == s[k];
  }
}
