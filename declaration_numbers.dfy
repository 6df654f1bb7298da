/** The declaration-number format "TD-" + year + "-" + %05d(count + 1)
    (service/DeclarationService.java, generateDeclarationNumber), as pure
    string functions, with the decimal value of the serial part proved. */
module DeclarationNumbers {

  predicate IsDigit(c: char) {
    '0' <= c <= '9'
  }

  predicate AllDigits(s: string) {
    forall i :: 0 <= i < |s| ==> IsDigit(s[i])
  }

  /** The character of one decimal digit. */
  function DigitChar(d: nat): (c: char)
    requires d < 10
    ensures IsDigit(c) && c as int - '0' as int == d
  {
    (d + '0' as int) as char
  }

  /** The value a string of decimal digits denotes, most significant first. */
  function DigitsValue(s: string): nat
    requires AllDigits(s)
  {
    if s == [] then 0 else 10 * DigitsValue(s[..|s| - 1]) + (s[|s| - 1] as int - '0' as int)
  }

  /** `Long.toString` of a non-negative value: its decimal digits, without
      leading zeros (a lone "0" for zero). */
  function DecimalDigits(n: nat): (r: string)
    ensures 1 <= |r| && AllDigits(r)
    ensures r[0] == '0' ==> n == 0
    decreases n
  {
    if n < 10 then [DigitChar(n)] else DecimalDigits(n / 10) + [DigitChar(n % 10)]
  }

  /** Reading back the digits of `n` gives `n`. */
  lemma {:induction false} DecimalDigitsValue(n: nat)
    ensures DigitsValue(DecimalDigits(n)) == n
    decreases n
  {
    if n >= 10 {
      var r := DecimalDigits(n);
      assert r[..|r| - 1] == DecimalDigits(n / 10);
      DecimalDigitsValue(n / 10);
    }
  }

  /** `Integer.toString` of the year, as string concatenation prints it:
      digits that read back as the year, after a minus sign when negative. */
  function YearText(year: int): (r: string)
    ensures year >= 0 ==> AllDigits(r) && DigitsValue(r) == year
    ensures year < 0 ==> |r| >= 2 && r[0] == '-' && AllDigits(r[1..]) && DigitsValue(r[1..]) == -year
  {
    if year < 0 then
      DecimalDigitsValue(-year);
      assert ("-" + DecimalDigits(-year))[1..] == DecimalDigits(-year);
      "-" + DecimalDigits(-year)
    else
      DecimalDigitsValue(year);
      DecimalDigits(year)
  }

  /** k zero characters. */
  function Zeros(k: nat): (z: string)
    ensures |z| == k && forall i :: 0 <= i < k ==> z[i] == '0'
  {
    seq(k, _ => '0')
  }

  /** Leading zeros do not change the value of a digit string. */
  lemma {:induction false} LeadingZerosValue(k: nat, s: string)
    requires AllDigits(s)
    ensures AllDigits(Zeros(k) + s) && DigitsValue(Zeros(k) + s) == DigitsValue(s)
    decreases |s|, k
  {
    var z := Zeros(k) + s;
    if s == [] {
      assert z == Zeros(k);
      if k > 0 {
        assert z[..|z| - 1] == Zeros(k - 1) + [];
        LeadingZerosValue(k - 1, []);
      }
    } else {
      assert z[..|z| - 1] == Zeros(k) + s[..|s| - 1];
      LeadingZerosValue(k, s[..|s| - 1]);
    }
  }

  /** `String.format("%05d", n)` for n >= 0: the decimal digits of n,
      left-padded with zeros to at least five characters, never truncated.
      The result has the length of the plain digits or five, whichever is
      larger, and reads back as n. */
  function Serial(n: nat): (p: string)
    ensures AllDigits(p) && DigitsValue(p) == n
    ensures |p| == if |DecimalDigits(n)| < 5 then 5 else |DecimalDigits(n)|
    ensures |p| > 5 ==> p[0] != '0'
  {
    var digits := DecimalDigits(n);
    var pad := if |digits| < 5 then 5 - |digits| else 0;
    DecimalDigitsValue(n);
    LeadingZerosValue(pad, digits);
    Zeros(pad) + digits
  }

  /** `generateDeclarationNumber`, given the current row count of the
      declaration table and the current year. */
  function DeclarationNumber(year: int, count: nat): string {
    "TD-" + YearText(year) + "-" + Serial(count + 1)
  }

  /** A number is the prefix "TD-<year>-" followed by at least five digits
      that read back as count + 1. */
  lemma DeclarationNumberFormat(year: int, count: nat)
    ensures var r, prefix := DeclarationNumber(year, count), "TD-" + YearText(year) + "-";
      && |r| >= |prefix| + 5 && r[..|prefix|] == prefix
      && AllDigits(r[|prefix|..]) && DigitsValue(r[|prefix|..]) == count + 1
  {
  }

  /** The serial part of a number determines the row count it was made
      from: within one year, two different counts give two different numbers. */
  lemma DeclarationNumberInjective(year: int, a: nat, b: nat)
    requires DeclarationNumber(year, a) == DeclarationNumber(year, b)
    ensures a == b
  {
    DeclarationNumberFormat(year, a);
    DeclarationNumberFormat(year, b);
    var prefix := "TD-" + YearText(year) + "-";
    assert DeclarationNumber(year, a)[|prefix|..] == DeclarationNumber(year, b)[|prefix|..];
  }
}
