/**
 * The C library conversions the command-line parser and the CSV reader
 * rely on: `atoi` (the parser's `-b`, `-w`, `-d`, `-n`, `-t` arguments) and
 * `std::stol` (the reader's fields), together with the decimal rendering
 * `Show` that a well-formed input line is made of.
 *
 * Both conversions skip leading white space, accept one optional sign and
 * then read the longest run of decimal digits, ignoring whatever follows.
 * `stol` fails (throws) when there is no digit or the value does not fit
 * in 64 bits; `atoi` then yields 0.
 */
module Numerals {
  import opened Types

  const Int64Min: int := -0x8000_0000_0000_0000
  const Int64Max: int := 0x7FFF_FFFF_FFFF_FFFF

  predicate IsDigit(c: char) { '0' <= c <= '9' }

  /** `isspace` in the "C" locale. */
  predicate IsSpace(c: char) { c == ' ' || c == '\t' || c == '\n' || c == '\r' || c == '\U{B}' || c == '\U{C}' }

  function DigitValue(c: char): (d: nat)
    requires IsDigit(c)
    ensures d < 10
  {
    (c as int) - ('0' as int)
  }

  function DigitChar(d: nat): (c: char)
    requires d < 10
    ensures IsDigit(c) && DigitValue(c) == d
  {
    (('0' as int) + d) as char
  }

  predicate AllDigits(s: string) { forall i :: 0 <= i < |s| ==> IsDigit(s[i]) }

  /** The value of a run of digits, most significant first. */
  function Value(s: string): nat
    requires AllDigits(s)
  {
    if |s| == 0 then 0 else Value(s[..|s| - 1]) * 10 + DigitValue(s[|s| - 1])
  }

  /** The longest prefix of `s` made of digits. */
  function DigitPrefix(s: string): (p: string)
    ensures AllDigits(p) && p <= s
    ensures |p| < |s| ==> !IsDigit(s[|p|])
  {
    if |s| == 0 || !IsDigit(s[0]) then "" else [s[0]] + DigitPrefix(s[1..])
  }

  function SkipSpace(s: string): (t: string)
    ensures |t| <= |s| && t == s[|s| - |t|..]
    ensures |t| > 0 ==> !IsSpace(t[0])
  {
    if |s| > 0 && IsSpace(s[0]) then SkipSpace(s[1..]) else s
  }

  /** What both conversions read: the sign and the digit run after the white space. */
  datatype Numeral = Numeral(negative: bool, digits: string)

  function Scan(s: string): (n: Numeral)
    ensures AllDigits(n.digits)
  {
    var t := SkipSpace(s);
    if |t| > 0 && (t[0] == '-' || t[0] == '+') then Numeral(t[0] == '-', DigitPrefix(t[1..]))
    else Numeral(false, DigitPrefix(t))
  }

  function Signed(n: Numeral): int
    requires AllDigits(n.digits)
  {
    if n.negative then 0 - Value(n.digits) else Value(n.digits)
  }

  /** `atoi`: the scanned value, 0 when there is no digit. */
  function Atoi(s: string): int
  {
    Signed(Scan(s))
  }

  /** `std::stol`: the scanned value; no digit or a value outside 64 bits throws. */
  function Stol(s: string): (r: Option<int>)
    ensures r.Some? ==> Int64Min <= r.value <= Int64Max && r.value == Atoi(s)
    ensures r.None? <==> Scan(s).digits == "" || !(Int64Min <= Atoi(s) <= Int64Max)
  {
    var n := Scan(s);
    if n.digits == "" then None
    else if Int64Min <= Signed(n) <= Int64Max then Some(Signed(n))
    else None
  }

  /** The decimal digits of a natural number, without leading zeros. */
  function Digits(n: nat): (s: string)
    ensures |s| > 0 && AllDigits(s)
  {
    if n < 10 then [DigitChar(n)] else Digits(n / 10) + [DigitChar(n % 10)]
  }

  /** The decimal rendering of an integer: a '-' for a negative one, then its digits. */
  function Show(n: int): (s: string)
    ensures |s| > 0
  {
    if n < 0 then "-" + Digits(-n) else Digits(n)
  }

  lemma {:induction false} ValueOfDigits(n: nat)
    ensures Value(Digits(n)) == n
  {
    if n >= 10 {
      var s := Digits(n);
      assert s[..|s| - 1] == Digits(n / 10);
      ValueOfDigits(n / 10);
    }
  }

  lemma {:induction false} DigitPrefixOfDigits(s: string, rest: string)
    requires AllDigits(s)
    requires |rest| > 0 ==> !IsDigit(rest[0])
    ensures DigitPrefix(s + rest) == s
  {
    if |s| > 0 {
      assert (s + rest)[1..] == s[1..] + rest;
      DigitPrefixOfDigits(s[1..], rest);
    }
  }

  /** The digits of a natural number, followed by a non-digit, scan as themselves. */
  lemma ScanDigits(m: nat, rest: string)
    requires |rest| > 0 ==> !IsDigit(rest[0])
    ensures Scan(Digits(m) + rest) == Numeral(false, Digits(m))
  {
    var s := Digits(m) + rest;
    assert !IsSpace(s[0]) && s[0] != '-' && s[0] != '+';
    assert SkipSpace(s) == s;
    DigitPrefixOfDigits(Digits(m), rest);
  }

  /** The same digits after a '-' scan as a negative numeral. */
  lemma ScanNegative(m: nat, rest: string)
    requires |rest| > 0 ==> !IsDigit(rest[0])
    ensures Scan("-" + Digits(m) + rest) == Numeral(true, Digits(m))
  {
    var s := "-" + Digits(m) + rest;
    assert !IsSpace(s[0]);
    assert SkipSpace(s) == s;
    assert s[1..] == Digits(m) + rest;
    DigitPrefixOfDigits(Digits(m), rest);
  }

  /**
   * Reading back what `Show` wrote yields the number, whatever non-digit
   * text follows it: both conversions stop at the first non-digit.
   */
  lemma ScanShow(n: int, rest: string)
    requires |rest| > 0 ==> !IsDigit(rest[0])
    ensures Scan(Show(n) + rest).digits != ""
    ensures Atoi(Show(n) + rest) == n
  {
    if n < 0 {
      ScanNegative(-n, rest);
      ValueOfDigits(-n);
    } else {
      ScanDigits(n, rest);
      ValueOfDigits(n);
    }
  }

  /** `stol` reads back every 64-bit value that `Show` rendered. */
  lemma StolShow(n: int, rest: string)
    requires Int64Min <= n <= Int64Max
    requires |rest| > 0 ==> !IsDigit(rest[0])
    ensures Stol(Show(n) + rest) == Some(n)
  {
    ScanShow(n, rest);
  }

  /** `stol` reads back every 64-bit value that `Show` rendered, on its own. */
  lemma StolShowAlone(n: int)
    requires Int64Min <= n <= Int64Max
    ensures Stol(Show(n)) == Some(n)
  {
    StolShow(n, "");
    assert Show(n) + "" == Show(n);
  }

  /** `atoi` of text with no digit after the sign is 0. */
  lemma AtoiWithoutDigits(s: string)
    requires Scan(s).digits == ""
    ensures Atoi(s) == 0 && Stol(s).None?
  {
  }
}
