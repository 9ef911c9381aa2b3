/** Quotients and remainders. */
module Numbers {

  lemma MulGap(a: int, b: int, n: int)
    requires n > 0 && a < b
    ensures b * n - a * n >= n
  {
    var d := b - a;
    assert b * n == a * n + d * n;
    assert (d - 1) * n >= 0;
    assert d * n == (d - 1) * n + n;
  }

  /** Division with remainder is unique. */
  lemma DivModUnique(n: int, h: int, q: int, r: int)
    requires n > 0 && h == q * n + r && 0 <= r < n
    ensures h % n == r && h / n == q
  {
    var q' := h / n;
    assert h == q' * n + h % n;
    if q < q' {
      MulGap(q, q', n);
    } else if q' < q {
      MulGap(q', q, n);
    }
  }

  /** Distinct multiples of n are at least n apart. */
  lemma MultiplesApart(n: int, a: int, b: int)
    requires n > 0 && a < b && a % n == 0 && b % n == 0
    ensures b - a >= n
  {
    var q, r := a / n, b / n;
    assert a == q * n && b == r * n;
    if q < r {
      MulGap(q, r, n);
    } else if r < q {
      MulGap(r, q, n);
    }
  }

  lemma MultipleBefore(n: int, b: int)
    requires n > 0 && b % n == 0
    ensures (b - n) % n == 0
  {
    var r := b / n;
    assert b == r * n;
    assert (r - 1) * n == r * n - n;
    DivModUnique(n, b - n, r - 1, 0);
  }
}
