/** Amounts as text: printed with thousands separators by one service, read back by another. */
module Money {
  import opened Decimal
  import opened Wrappers

  /** Three digits, with leading zeros. */
  function Pad3(d: nat): (s: string)
    requires d < 1000
    ensures |s| == 3 && Digits(s)
  {
    [Digit(d / 100), Digit(d / 10 % 10), Digit(d % 10)]
  }

  /** Python's `:,` format of a natural number. */
  function Grouped(n: nat): (s: string)
    ensures |s| > 0
    ensures forall i | 0 <= i < |s| :: s[i] == ',' || '0' <= s[i] <= '9'
  {
    if n < 1000 then Text(n) else Grouped(n / 1000) + [','] + Pad3(n % 1000)
  }

  function Printed(n: nat): string {
    "US$" + Grouped(n)
  }

  /** Python's `s.replace(pattern, "")`. */
  function Without(s: string, pattern: string): string
    requires |pattern| > 0
  {
    if |s| < |pattern| then s
    else if s[..|pattern|] == pattern then Without(s[|pattern|..], pattern)
    else [s[0]] + Without(s[1..], pattern)
  }

  /** `v2_pair_data_unpack`; `int` raises on anything but digits, which is the None result. */
  function Unpack(prop: string): Option<nat> {
    var digits := Without(Without(prop, "US$"), ",");
    if |digits| > 0 && Digits(digits) then Some(Value(digits)) else None
  }

  lemma {:induction false} NothingToRemove(s: string, pattern: string)
    requires |pattern| > 0 && forall i | 0 <= i < |s| :: s[i] != pattern[0]
    ensures Without(s, pattern) == s
  {
    if |s| >= |pattern| {
      assert s[..|pattern|][0] == s[0];
      NothingToRemove(s[1..], pattern);
    }
  }

  lemma {:induction false} WithoutCommas(s: string, t: string)
    ensures Without(s + t, ",") == Without(s, ",") + Without(t, ",")
  {
    if s == [] {
      assert s + t == t;
    } else {
      assert (s + t)[1..] == s[1..] + t;
      WithoutCommas(s[1..], t);
    }
  }

  lemma LastThreeDigits(n: nat)
    ensures n / 10 / 10 / 10 == n / 1000
    ensures n % 10 == n % 1000 % 10
    ensures n / 10 % 10 == n % 1000 / 10 % 10
    ensures n / 10 / 10 % 10 == n % 1000 / 100
  {
  }

  lemma OneMoreDigit(n: nat)
    requires n >= 10
    ensures Text(n) == Text(n / 10) + [Digit(n % 10)]
  {
  }

  lemma TextInThousands(n: nat)
    requires n >= 1000
    ensures Text(n) == Text(n / 1000) + Pad3(n % 1000)
  {
    hide Text;
    LastThreeDigits(n);
    OneMoreDigit(n);
    OneMoreDigit(n / 10);
    OneMoreDigit(n / 10 / 10);
  }

  lemma {:induction false} UngroupedText(n: nat)
    ensures Without(Grouped(n), ",") == Text(n)
  {
    if n < 1000 {
      NothingToRemove(Text(n), ",");
    } else {
      var head, tail := Grouped(n / 1000), Pad3(n % 1000);
      UngroupedText(n / 1000);
      TextInThousands(n);
      WithoutCommas(head + [','], tail);
      WithoutCommas(head, [',']);
      NothingToRemove(tail, ",");
      assert [','][1..] == [] && Without([','], ",") == [];
    }
  }

  /** Reading back a printed amount gives the amount, for every natural number. */
  lemma MoneyRoundTrip(n: nat)
    ensures Unpack(Printed(n)) == Some(n)
  {
    var s := Printed(n);
    assert s[..3] == "US$" && s[3..] == Grouped(n);
    NothingToRemove(Grouped(n), "US$");
    UngroupedText(n);
    ValueOfText(n);
  }

  lemma AtMostThreeDigits(n: nat)
    requires n < 1000
    ensures |Text(n)| <= 3
  {
    if n >= 10 {
      OneMoreDigit(n);
      if n / 10 >= 10 {
        OneMoreDigit(n / 10);
      }
    }
  }

  /** Counted from the right, exactly every fourth character is a separator. */
  lemma {:induction false} SeparatorEveryThreeDigits(n: nat, i: nat)
    requires i < |Grouped(n)|
    ensures Grouped(n)[|Grouped(n)| - 1 - i] == ',' <==> i % 4 == 3
    ensures Grouped(n)[0] != ','
  {
    hide Text, Pad3;
    var s := Grouped(n);
    if n < 1000 {
      AtMostThreeDigits(n);
    } else {
      var head, tail := Grouped(n / 1000), Pad3(n % 1000);
      FromTheRight(head, tail, i);
      SeparatorEveryThreeDigits(n / 1000, if i >= 4 then i - 4 else 0);
    }
  }

  lemma FromTheRight(head: string, tail: string, i: nat)
    requires |tail| == 3 && i < |head| + 4 && |head| > 0
    ensures var s := head + [','] + tail;
            && s[|s| - 1 - i] == (if i < 3 then tail[2 - i] else if i == 3 then ',' else head[|head| - 1 - (i - 4)])
            && s[0] == head[0]
    ensures i >= 4 ==> (i % 4 == 3 <==> (i - 4) % 4 == 3)
  {
  }

  /** An amount without separators or with any: the separators do not matter, and anything else that is not a
      digit makes the amount unreadable. */
  lemma UnpackExactly(amount: string)
    requires forall i | 0 <= i < |amount| :: amount[i] != 'U'
    ensures var digits := Kept(amount);
            Unpack("US$" + amount) == if digits != "" && Digits(digits) then Some(Value(digits)) else None
  {
    var s := "US$" + amount;
    assert s[..3] == "US$" && s[3..] == amount;
    NothingToRemove(amount, "US$");
    WithoutIsKept(amount);
  }

  /** The characters other than separators, in order. */
  function Kept(s: string): string {
    if s == "" then "" else Kept(s[..|s| - 1]) + if s[|s| - 1] == ',' then "" else [s[|s| - 1]]
  }

  lemma {:induction false} WithoutIsKept(s: string)
    ensures Without(s, ",") == Kept(s)
  {
    if s != "" {
      var n := |s| - 1;
      WithoutIsKept(s[..n]);
      assert s == s[..n] + [s[n]] && [s[n]][1..] == "" && [s[n]][..1] == [s[n]];
      WithoutCommas(s[..n], [s[n]]);
      assert Without("", ",") == "";
    }
  }
}
