/** The little arithmetic on integers that the clock, the throughput bound and the plan's
    index law need. */
module Integers {

  lemma MulMono(k: int, x: int, y: int)
    requires 0 <= k && x <= y
    ensures k * x <= k * y
  {
    assert k * (y - x) >= 0;
  }

  lemma Euclid(p: int, k: int)
    requires k > 0
    ensures k * (p / k) <= p < k * (p / k) + k
  {
  }

  lemma DivMono(p: int, q: int, k: int)
    requires k > 0 && p <= q
    ensures p / k <= q / k
  {
    if p / k > q / k {
      Euclid(p, k);
      Euclid(q, k);
      MulMono(k, q / k + 1, p / k);
      assert false;
    }
  }

  lemma DivStrict(p: int, q: int, k: int)
    requires k > 0 && p + k <= q
    ensures p / k < q / k
  {
    if p / k >= q / k {
      Euclid(p, k);
      Euclid(q, k);
      MulMono(k, q / k, p / k);
      assert false;
    }
  }

  lemma DivPlusOne(p: int, k: int)
    requires k > 0
    ensures (p + k) / k == p / k + 1
  {
    var a, b := (p + k) / k, p / k;
    Euclid(p, k);
    Euclid(p + k, k);
    assert k * (b + 1) == k * b + k && k * (b + 2) == k * b + k + k && k * (a + 1) == k * a + k;
    if a < b + 1 {
      MulMono(k, a + 1, b + 1);
      assert false;
    } else if a > b + 1 {
      MulMono(k, b + 2, a);
      assert false;
    }
  }

  lemma Digits(q: int, r: int, k: int)
    requires 0 <= r < k
    ensures (k * q + r) / k == q && (k * q + r) % k == r
  {
    var p := k * q + r;
    var a := p / k;
    Euclid(p, k);
    assert k * (a + 1) == k * a + k && k * (q + 1) == k * q + k;
    if a < q {
      MulMono(k, a + 1, q);
      assert false;
    } else if a > q {
      MulMono(k, q + 1, a);
      assert false;
    }
  }

  lemma RowBelow(q: int, r: int, k: int, c: int)
    requires 0 <= q < c && 0 <= r < k
    ensures 0 <= k * q + r < k * c
  {
    MulMono(k, q + 1, c);
    MulMono(k, 0, q);
    assert k * (q + 1) == k * q + k;
  }
}
