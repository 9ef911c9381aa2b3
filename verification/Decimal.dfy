/** Canonical decimal text: the numbers inside Redis keys, null markers and money strings. */
module Decimal {

  function Digit(d: nat): (c: char)
    requires d < 10
    ensures '0' <= c <= '9' && c as int - '0' as int == d
  {
    (d + '0' as int) as char
  }

  predicate Digits(s: string) {
    forall i | 0 <= i < |s| :: '0' <= s[i] <= '9'
  }

  /** The decimal text of a natural number, without leading zeros. */
  function Text(n: nat): (s: string)
    ensures |s| > 0
    ensures Digits(s)
  {
    if n < 10 then [Digit(n)] else Text(n / 10) + [Digit(n % 10)]
  }

  /** Python's `int(s)` on a string of decimal digits. */
  function Value(s: string): nat
    requires Digits(s)
  {
    if s == [] then 0 else 10 * Value(s[..|s| - 1]) + (s[|s| - 1] as int - '0' as int)
  }

  lemma {:induction false} ValueOfText(n: nat)
    ensures Value(Text(n)) == n
  {
    if n >= 10 {
      ValueOfText(n / 10);
      assert Text(n)[..|Text(n)| - 1] == Text(n / 10);
    }
  }

  /** The text of any integer, as Python's f-strings print it. */
  function IntText(n: int): string {
    if n < 0 then "-" + Text(-n) else Text(n)
  }

  /** Decimal digits without leading zeros, behind a sign if the number is negative. */
  predicate IsTextOf(s: string, n: int) {
    var digits := if n < 0 && s != "" then s[1..] else s;
    && s != "" && digits != "" && (n < 0 ==> s[0] == '-')
    && Digits(digits) && Value(digits) == (if n < 0 then -n else n)
    && (digits[0] == '0' ==> |digits| == 1)
  }

  lemma {:induction false} NoLeadingZero(n: nat)
    ensures Text(n)[0] == '0' <==> n == 0
    ensures n == 0 ==> |Text(n)| == 1
  {
    if n >= 10 {
      NoLeadingZero(n / 10);
    }
  }

  /** A number is printed as that text. */
  lemma IntTextIsText(n: int)
    ensures IsTextOf(IntText(n), n)
  {
    var m := if n < 0 then -n else n;
    ValueOfText(m);
    NoLeadingZero(m);
    assert n < 0 ==> IntText(n)[1..] == Text(m);
  }

  lemma {:induction false} TextOfValue(s: string)
    requires Digits(s) && s != "" && (s[0] == '0' ==> |s| == 1)
    ensures Text(Value(s)) == s
    ensures Value(s) == 0 ==> s == "0"
  {
    var n := |s| - 1;
    var d := s[n] as int - '0' as int;
    assert Digit(d) == s[n];
    assert s == s[..n] + [s[n]];
    if n == 0 {
      assert s[..0] == "" && Value(s) == d;
    } else {
      TextOfValue(s[..n]);
      assert Value(s) == 10 * Value(s[..n]) + d;
      assert Value(s) / 10 == Value(s[..n]) && Value(s) % 10 == d;
    }
  }

  /** And no other text is one. */
  lemma OneTextOnly(s: string, n: int)
    requires IsTextOf(s, n)
    ensures s == IntText(n)
  {
    hide Text, Value;
    var digits := if n < 0 then s[1..] else s;
    TextOfValue(digits);
    assert n < 0 ==> s == [s[0]] + s[1..] == "-" + digits;
  }
}
