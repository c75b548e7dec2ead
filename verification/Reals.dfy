/** The little arithmetic on reals that the statistics need. */
module Reals {

  lemma MulPositive(x: real, y: real)
    requires x > 0.0 && y > 0.0
    ensures x * y > 0.0
  {
  }

  lemma MulNonNegative(x: real, y: real)
    requires x >= 0.0 && y >= 0.0
    ensures x * y >= 0.0
  {
    if x == 0.0 {
      assert 0.0 * y == 0.0;
    } else if y == 0.0 {
      assert x * 0.0 == 0.0;
    } else {
      MulPositive(x, y);
    }
  }

  // The product is named, because a sign condition on a bare square is lost to the solver.
  lemma ProductPositive(x: real, y: real, s: real)
    requires x > 0.0 && y > 0.0 && s == x * y
    ensures s > 0.0
  {
  }

  lemma SquareSign(d: real, s: real)
    requires s == d * d
    ensures s >= 0.0 && (s == 0.0 <==> d == 0.0)
  {
    if d > 0.0 {
      ProductPositive(d, d, s);
    } else if d < 0.0 {
      assert s == (-d) * (-d);
      ProductPositive(-d, -d, s);
    }
  }

  lemma ScaleMono(k: real, x: real, y: real)
    requires k >= 0.0 && x <= y
    ensures x * k <= y * k
  {
    MulNonNegative(y - x, k);
    assert (y - x) * k == y * k - x * k;
  }

  lemma ScaleStrict(k: real, x: real, y: real)
    requires k > 0.0 && x < y
    ensures x * k < y * k
  {
    MulPositive(y - x, k);
    assert (y - x) * k == y * k - x * k;
  }

  lemma QuotientTimes(x: real, n: real)
    requires n != 0.0
    ensures x / n * n == x
  {
  }

  lemma QuotientBounds(x: real, n: real, q: real)
    requires n > 0.0
    ensures q * n <= x <==> q <= x / n
    ensures x <= q * n <==> x / n <= q
  {
    var r := x / n;
    QuotientTimes(x, n);
    if q <= r {
      ScaleMono(n, q, r);
    } else {
      ScaleStrict(n, r, q);
    }
    if r <= q {
      ScaleMono(n, r, q);
    } else {
      ScaleStrict(n, q, r);
    }
  }

  lemma QuotientPositive(x: real, n: real)
    requires x > 0.0 && n > 0.0
    ensures x / n > 0.0
  {
    var r := x / n;
    QuotientTimes(x, n);
    if r <= 0.0 {
      ScaleMono(n, r, 0.0);
    }
  }

  lemma ProductNotZero(d: real, n: real, p: real)
    requires p == d * n && d != 0.0 && n != 0.0
    ensures p != 0.0
  {
    if d > 0.0 && n > 0.0 {
      ProductPositive(d, n, p);
    } else if d > 0.0 {
      assert -p == d * (-n);
      ProductPositive(d, -n, -p);
    } else if n > 0.0 {
      assert -p == (-d) * n;
      ProductPositive(-d, n, -p);
    } else {
      assert p == (-d) * (-n);
      ProductPositive(-d, -n, p);
    }
  }

  lemma QuotientUnique(x: real, n: real, q: real)
    requires n != 0.0 && q * n == x
    ensures x / n == q
  {
    var r := x / n;
    QuotientTimes(x, n);
    if r != q {
      ProductNotZero(r - q, n, r * n - q * n);
    }
  }

  lemma QuotientNotZero(y: real, c: real)
    requires y != 0.0 && c != 0.0
    ensures y / c != 0.0
  {
    var q := y / c;
    QuotientTimes(y, c);
    if q == 0.0 {
      assert 0.0 * c == 0.0;
    }
  }

  lemma QuotientOfQuotient(x: real, y: real, c: real)
    requires y != 0.0 && c != 0.0
    ensures y / c != 0.0 && x / (y / c) == x * c / y
  {
    var q := y / c;
    QuotientTimes(y, c);
    QuotientNotZero(y, c);
    var r := x / q;
    QuotientTimes(x, q);
    assert r * y == r * (q * c) == (r * q) * c;
    QuotientUnique(x * c, y, r);
  }
}
