// Decimal numerals: printing an integer, reading it back, and why a numeral glued on with a
// separator can always be taken off again.

module Decimal {

  const DIGITS: string := "0123456789"

  predicate IsDigit(c: char) {
    '0' <= c <= '9'
  }

  predicate AllDigits(s: string) {
    forall i :: 0 <= i < |s| ==> IsDigit(s[i])
  }

  function PrintNat(n: nat): string {
    if n < 10 then [DIGITS[n]] else PrintNat(n / 10) + [DIGITS[n % 10]]
  }

  function Print(n: int): string {
    if n < 0 then "-" + PrintNat(-n) else PrintNat(n)
  }

  /** `int(s)` for a string of ASCII digits; leading zeros are allowed. */
  function ParseNat(s: string): nat
    requires AllDigits(s)
  {
    if s == "" then 0
    else 10 * ParseNat(s[..|s| - 1]) + (s[|s| - 1] as int - '0' as int)
  }

  lemma DigitValues(d: nat)
    requires d < 10
    ensures IsDigit(DIGITS[d]) && DIGITS[d] as int - '0' as int == d
  {
  }

  /** Reading a printed number gives the number back. */
  lemma {:induction false} ParsePrint(n: nat)
    ensures PrintNat(n) != "" && AllDigits(PrintNat(n)) && ParseNat(PrintNat(n)) == n
  {
    DigitValues(n % 10);
    if n >= 10 {
      ParsePrint(n / 10);
      var s := PrintNat(n);
      assert s[..|s| - 1] == PrintNat(n / 10);
    } else {
      var s := PrintNat(n);
      assert s[..|s| - 1] == "";
    }
  }

  /** Printing is decimal: one digit for each place, and a minus sign in front of a negative number. */
  lemma PrintedInDecimal(n: nat, d: nat)
    requires d < 10
    ensures PrintNat(d) == [('0' as int + d) as char]
    ensures n > 0 ==> PrintNat(10 * n + d) == PrintNat(n) + PrintNat(d)
    ensures Print(n) == PrintNat(n) && (n > 0 ==> Print(-(n as int)) == "-" + PrintNat(n))
  {
    DigitValues(d);
    assert (10 * n + d) / 10 == n && (10 * n + d) % 10 == d;
  }

  /** A printed integer holds no separator, so it can be found again after gluing. */
  lemma PrintHasNoUnderscore(n: int)
    ensures '_' !in Print(n)
  {
    ParsePrint(if n < 0 then -n else n);
  }

  lemma PrintInjective(a: int, b: int)
    requires Print(a) == Print(b)
    ensures a == b
  {
    ParsePrint(if a < 0 then -a else a);
    ParsePrint(if b < 0 then -b else b);
    assert a < 0 <==> Print(a)[0] == '-';
    assert b < 0 <==> Print(b)[0] == '-';
    if a < 0 {
      assert Print(a)[1..] == PrintNat(-a);
      assert Print(b)[1..] == PrintNat(-b);
    }
  }

  /** The last separator of a string splits it in one way only. */
  lemma {:induction false} LastSeparatorSplitsUniquely(a: string, d: string, b: string, e: string, sep: char)
    requires sep !in d && sep !in e
    requires a + [sep] + d == b + [sep] + e
    ensures a == b && d == e
  {
    var s, t := a + [sep] + d, b + [sep] + e;
    assert s[|a|] == sep && t[|b|] == sep;
    assert forall i :: |a| < i < |s| ==> s[i] == d[i - |a| - 1] && s[i] in d;
    assert forall i :: |b| < i < |t| ==> t[i] == e[i - |b| - 1] && t[i] in e;
    assert |a| == |b|;
    assert s[..|a|] == a && t[..|b|] == b;
    assert s[|a| + 1..] == d && t[|b| + 1..] == e;
  }
}
