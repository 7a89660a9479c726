/** Rust's `{}` formatting of an integer (decimal digits, a leading `-` for
    negative values, no leading zeros) and a reader that takes it back. */
module Decimal {
  import opened Base

  predicate IsDigit(c: char) {
    '0' <= c <= '9'
  }

  predicate AllDigits(s: string) {
    forall i :: 0 <= i < |s| ==> IsDigit(s[i])
  }

  function DigitChar(d: nat): (c: char)
    requires d < 10
    ensures IsDigit(c)
  {
    ('0' as int + d) as char
  }

  function DigitValue(c: char): (d: nat)
    requires IsDigit(c)
    ensures d < 10
  {
    c as int - '0' as int
  }

  /** Decimal text of a natural number. */
  function NatToString(n: nat): (s: string)
    ensures |s| >= 1 && AllDigits(s)
    ensures |s| > 1 ==> s[0] != '0'
    decreases n
  {
    if n < 10 then [DigitChar(n)] else NatToString(n / 10) + [DigitChar(n % 10)]
  }

  /** `format!("{}", n)` for an integer. */
  function IntToString(n: int): (s: string)
    ensures |s| >= 1 && IsDigit(s[|s| - 1])
    ensures s[0] == '-' <==> n < 0
  {
    if n < 0 then "-" + NatToString(-n) else NatToString(n)
  }

  /** The value of a run of decimal digits. */
  function DigitsValue(s: string): nat
    requires AllDigits(s)
  {
    if s == [] then 0 else DigitsValue(s[..|s| - 1]) * 10 + DigitValue(s[|s| - 1])
  }

  /** The number of digits `s` starts with. */
  function DigitRun(s: string): (n: nat)
    ensures n <= |s|
    ensures AllDigits(s[..n])
    ensures n < |s| ==> !IsDigit(s[n])
  {
    if s == [] || !IsDigit(s[0]) then 0
    else
      var k := DigitRun(s[1..]);
      assert s[..1 + k] == [s[0]] + s[1..][..k];
      1 + k
  }

  /** Reads an optionally signed decimal integer at the start of `s` and
      returns it with the text that follows it. */
  function ParseLeadingInt(s: string): Option<(int, string)>
  {
    if |s| > 0 && s[0] == '-' then
      var t := s[1..];
      var k := DigitRun(t);
      if k == 0 then None else Some((-(DigitsValue(t[..k]) as int), t[k..]))
    else
      var k := DigitRun(s);
      if k == 0 then None else Some((DigitsValue(s[..k]), s[k..]))
  }

  /** The digits of `n` read back as `n`. */
  lemma {:induction false} NatToStringValue(n: nat)
    ensures DigitsValue(NatToString(n)) == n
    decreases n
  {
    if n >= 10 {
      NatToStringValue(n / 10);
      var s := NatToString(n);
      assert s[..|s| - 1] == NatToString(n / 10);
    }
  }

  /** A digit run followed by a non-digit is read in full. */
  lemma {:induction false} DigitRunOf(d: string, rest: string)
    requires AllDigits(d)
    requires rest == [] || !IsDigit(rest[0])
    ensures DigitRun(d + rest) == |d|
    decreases |d|
  {
    if d != [] {
      assert (d + rest)[0] == d[0];
      assert (d + rest)[1..] == d[1..] + rest;
      DigitRunOf(d[1..], rest);
    } else {
      assert d + rest == rest;
    }
  }

  /** Reading the decimal text of `n` back gives `n` and leaves what
      followed it untouched. */
  lemma ParseIntToString(n: int, rest: string)
    requires rest == [] || !IsDigit(rest[0])
    ensures ParseLeadingInt(IntToString(n) + rest) == Some((n, rest))
  {
    var m: nat := if n < 0 then -n else n;
    var d := NatToString(m);
    DigitRunOf(d, rest);
    NatToStringValue(m);
    assert (d + rest)[..|d|] == d;
    assert (d + rest)[|d|..] == rest;
    if n < 0 {
      assert ("-" + d + rest)[1..] == d + rest;
    }
  }

  /** Reads "<integer><sep><rest>" back into the integer and `rest`. */
  function SplitLeadingInt(s: string, sep: char): Option<(int, string)>
  {
    match ParseLeadingInt(s)
    case None => None
    case Some((n, tail)) => if |tail| > 0 && tail[0] == sep then Some((n, tail[1..])) else None
  }

  /** An integer written in front of a non-digit separator is read back
      together with everything after the separator. */
  lemma SplitIntToString(n: int, sep: char, rest: string)
    requires !IsDigit(sep)
    ensures SplitLeadingInt(IntToString(n) + [sep] + rest, sep) == Some((n, rest))
  {
    ParseIntToString(n, [sep] + rest);
    assert IntToString(n) + [sep] + rest == IntToString(n) + ([sep] + rest);
  }
}
