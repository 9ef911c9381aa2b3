/** Two services sort the same segment keys: the finalizer by length and text, the pruner as numbers. */
module SegmentKeys {
  import opened Decimal
  import Store

  /** The finalizer's sort key `(len(x), x)`. */
  predicate KeyLess(a: string, b: string) {
    |a| < |b| || (|a| == |b| && Store.LexLess(a, b))
  }

  lemma {:induction false} LexLessAtEnd(a: string, b: string, c: char, d: char)
    requires |a| == |b|
    ensures Store.LexLess(a + [c], b + [d]) <==> Store.LexLess(a, b) || (a == b && c < d)
  {
    if a == [] {
      assert a + [c] == [c] && b + [d] == [d];
      assert [c][1..] == [] && [d][1..] == [];
    } else {
      assert (a + [c])[1..] == a[1..] + [c] && (b + [d])[1..] == b[1..] + [d];
      LexLessAtEnd(a[1..], b[1..], c, d);
      assert a == [a[0]] + a[1..] && b == [b[0]] + b[1..];
    }
  }

  lemma KeyLessAtEnd(a: string, b: string, c: char, d: char)
    ensures KeyLess(a + [c], b + [d]) <==> KeyLess(a, b) || (a == b && c < d)
  {
    hide Store.LexLess;
    if |a| == |b| {
      LexLessAtEnd(a, b, c, d);
      EqualIsNotLess(a);
    }
  }

  lemma {:induction false} EqualIsNotLess(a: string)
    ensures !Store.LexLess(a, a)
  {
    if a != [] {
      EqualIsNotLess(a[1..]);
    }
  }

  lemma TextParts(n: nat)
    ensures n < 10 ==> Text(n) == [Digit(n)] && |Text(n)| == 1
    ensures n >= 10 ==> Text(n) == Text(n / 10) + [Digit(n % 10)] && |Text(n)| > 1
  {
  }

  lemma SplitOrder(m: nat, n: nat)
    ensures m < n <==> m / 10 < n / 10 || (m / 10 == n / 10 && m % 10 < n % 10)
  {
  }

  /** On canonical decimal keys both orders are the order of the numbers. */
  lemma {:induction false} KeyOrderIsNumericOrder(m: nat, n: nat)
    ensures KeyLess(Text(m), Text(n)) <==> m < n
    ensures KeyLess(Text(m), Text(n)) <==> Value(Text(m)) < Value(Text(n))
  {
    hide Text, Value, KeyLess;
    ValueOfText(m);
    ValueOfText(n);
    TextParts(m);
    TextParts(n);
    if m >= 10 && n >= 10 {
      KeyOrderIsNumericOrder(m / 10, n / 10);
      ValueOfText(m / 10);
      ValueOfText(n / 10);
      SplitOrder(m, n);
      KeyLessAtEnd(Text(m / 10), Text(n / 10), Digit(m % 10), Digit(n % 10));
    } else if m < 10 && n < 10 {
      ShortKeys(m, n);
    } else {
      LongerKey(Text(m), Text(n));
    }
  }

  lemma ShortKeys(m: nat, n: nat)
    requires m < 10 && n < 10
    ensures KeyLess([Digit(m)], [Digit(n)]) <==> m < n
  {
    LexLessAtEnd([], [], Digit(m), Digit(n));
    EqualIsNotLess([]);
    assert [] + [Digit(m)] == [Digit(m)] && [] + [Digit(n)] == [Digit(n)];
  }

  lemma LongerKey(a: string, b: string)
    requires |a| != |b|
    ensures KeyLess(a, b) <==> |a| < |b|
  {
  }

  /** So a list of keys that one service has sorted is sorted for the other, too. */
  lemma SortedForBoth(keys: seq<nat>)
    ensures (forall i, j | 0 <= i < j < |keys| :: KeyLess(Text(keys[i]), Text(keys[j]))) <==>
            (forall i, j | 0 <= i < j < |keys| :: keys[i] < keys[j])
  {
    forall i, j | 0 <= i < j < |keys| ensures KeyLess(Text(keys[i]), Text(keys[j])) <==> keys[i] < keys[j] {
      KeyOrderIsNumericOrder(keys[i], keys[j]);
    }
  }
}
