/** Decimal numerals: how Go prints an integer and how strconv.ParseInt reads one back. */
module Decimal {
  import opened Results

  function Digit(d: nat): char
    requires d < 10
  {
    (d + '0' as int) as char
  }

  predicate IsDigit(c: char) {
    '0' <= c <= '9'
  }

  function DigitValue(c: char): nat
    requires IsDigit(c)
  {
    c as int - '0' as int
  }

  function PrintNat(n: nat): (s: string)
    ensures s != "" && forall i :: 0 <= i < |s| ==> IsDigit(s[i])
    ensures |s| > 1 ==> s[0] != '0'
  {
    if n < 10 then [Digit(n)] else PrintNat(n / 10) + [Digit(n % 10)]
  }

  function Print(n: int): string {
    if n < 0 then "-" + PrintNat(-n) else PrintNat(n)
  }

  predicate AllDigits(s: string) {
    s != "" && forall i :: 0 <= i < |s| ==> IsDigit(s[i])
  }

  function ReadNat(s: string): nat
    requires AllDigits(s)
  {
    if |s| == 1 then DigitValue(s[0])
    else ReadNat(s[..|s| - 1]) * 10 + DigitValue(s[|s| - 1])
  }

  predicate InInt64(n: int) {
    -0x8000_0000_0000_0000 <= n < 0x8000_0000_0000_0000
  }

  /** strconv.ParseInt(s, 10, 64): an optional sign, then digits, within 64 bits. */
  function ParseInt64(s: string): Option<int> {
    var signed := s != "" && s[0] in {'-', '+'};
    var digits := if signed then s[1..] else s;
    if !AllDigits(digits) then None else
    var n: int := if signed && s[0] == '-' then -(ReadNat(digits) as int) else ReadNat(digits);
    if InInt64(n) then Some(n) else None
  }

  lemma {:induction false} ReadPrintedNat(n: nat)
    ensures AllDigits(PrintNat(n)) && ReadNat(PrintNat(n)) == n
    decreases n
  {
    if n >= 10 {
      ReadPrintedNat(n / 10);
      var s := PrintNat(n);
      assert s[..|s| - 1] == PrintNat(n / 10);
    }
  }

  lemma ParseUnsigned(s: string)
    requires AllDigits(s)
    ensures ParseInt64(s) == if InInt64(ReadNat(s)) then Some(ReadNat(s)) else None
  {
    assert IsDigit(s[0]);
  }

  lemma ParseNegative(s: string)
    requires AllDigits(s)
    ensures ParseInt64("-" + s) == if InInt64(-(ReadNat(s) as int)) then Some(-(ReadNat(s) as int)) else None
  {
    assert ("-" + s)[1..] == s;
  }

  /** Printing and reading are inverse on every 64-bit integer. */
  lemma ReadPrinted(n: int)
    ensures ParseInt64(Print(n)) == if InInt64(n) then Some(n) else None
  {
    if n < 0 {
      ReadPrintedNat(-n);
      ParseNegative(PrintNat(-n));
    } else {
      ReadPrintedNat(n);
      ParseUnsigned(PrintNat(n));
    }
  }

  /** Digits without a leading zero are how their number is printed. */
  lemma {:induction false} PrintRead(s: string)
    requires AllDigits(s) && (|s| > 1 ==> s[0] != '0')
    ensures PrintNat(ReadNat(s)) == s && (|s| > 1 ==> ReadNat(s) >= 10) && (s[0] != '0' ==> ReadNat(s) > 0)
    decreases |s|
  {
    if |s| > 1 {
      var t := s[..|s| - 1];
      assert t[0] == s[0];
      PrintRead(t);
      var d := DigitValue(s[|s| - 1]);
      assert ReadNat(s) / 10 == ReadNat(t) && ReadNat(s) % 10 == d;
      assert s == t + [s[|s| - 1]];
    }
  }
}
