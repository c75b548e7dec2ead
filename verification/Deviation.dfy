/** The spread of the workers' averages: what the second loop computes is the variance,
    and how large it can be. (controller/benchmark.go, Process) */
module Deviation {
  import opened Benchmark
  import opened Float
  import opened MinMax
  import opened Summary
  import opened Reals
  import opened Process
  import opened Interleaving

  /** Sum, and sum of squares, of finite values. */
  function Total(xs: seq<F64>): real
    requires AllFinite(xs)
  {
    if xs == [] then 0.0 else Total(xs[..|xs| - 1]) + xs[|xs| - 1].r
  }

  function Squares(xs: seq<F64>): real
    requires AllFinite(xs)
  {
    if xs == [] then 0.0 else Squares(xs[..|xs| - 1]) + xs[|xs| - 1].r * xs[|xs| - 1].r
  }

  function Deviations(xs: seq<F64>, mean: real): real
    requires AllFinite(xs)
  {
    if xs == [] then 0.0
    else Deviations(xs[..|xs| - 1], mean) + (xs[|xs| - 1].r - mean) * (xs[|xs| - 1].r - mean)
  }

  // The lemmas below name every sum as a parameter, so that no proof sees a sum and its
  // definition at once.

  lemma {:induction false} FloatTotal(xs: seq<F64>)
    requires AllFinite(xs)
    ensures Sum(xs) == Fin(Total(xs))
  {
    if xs != [] {
      FloatTotal(xs[..|xs| - 1]);
    }
  }

  lemma FloatSquare(x: F64, mean: real, w: real)
    requires x.Fin? && w == (x.r - mean) * (x.r - mean)
    ensures Square(Sub(x, Fin(mean))) == Fin(w)
  {
    assert Sub(x, Fin(mean)) == Fin(x.r - mean);
  }

  // By way of the list of squares: one lemma sees the float products and another the real
  // ones, because together they are too much for the solver.

  function SquareList(xs: seq<F64>, mean: real): (ws: seq<F64>)
    ensures |ws| == |xs|
  {
    seq(|xs|, i requires 0 <= i < |xs| => Square(Sub(xs[i], Fin(mean))))
  }

  lemma {:induction false} SumOfSquares(xs: seq<F64>, mean: F64, ws: seq<F64>)
    requires |ws| == |xs| && forall i :: 0 <= i < |xs| ==> ws[i] == Square(Sub(xs[i], mean))
    ensures SquaredDeviations(xs, mean) == Sum(ws)
  {
    if xs != [] {
      SumOfSquares(xs[..|xs| - 1], mean, ws[..|xs| - 1]);
    }
  }

  lemma {:induction false} TotalOfSquares(xs: seq<F64>, mean: real, ws: seq<F64>)
    requires AllFinite(xs) && |ws| == |xs| && AllFinite(ws)
    requires forall i :: 0 <= i < |xs| ==> ws[i].r == (xs[i].r - mean) * (xs[i].r - mean)
    ensures Total(ws) == Deviations(xs, mean)
  {
    if xs != [] {
      TotalOfSquares(xs[..|xs| - 1], mean, ws[..|xs| - 1]);
    }
  }

  lemma SumOfList(xs: seq<F64>, mean: real)
    ensures SquaredDeviations(xs, Fin(mean)) == Sum(SquareList(xs, mean))
  {
    SumOfSquares(xs, Fin(mean), SquareList(xs, mean));
  }

  lemma TotalOfList(xs: seq<F64>, mean: real)
    requires AllFinite(xs)
    ensures AllFinite(SquareList(xs, mean)) && Total(SquareList(xs, mean)) == Deviations(xs, mean)
  {
    var ws := SquareList(xs, mean);
    forall i | 0 <= i < |xs| ensures ws[i].Fin? && ws[i].r == (xs[i].r - mean) * (xs[i].r - mean) {
      FloatSquare(xs[i], mean, (xs[i].r - mean) * (xs[i].r - mean));
    }
    TotalOfSquares(xs, mean, ws);
  }

  lemma FloatDeviations(xs: seq<F64>, mean: real, d: real)
    requires AllFinite(xs) && d == Deviations(xs, mean)
    ensures SquaredDeviations(xs, Fin(mean)) == Fin(d)
  {
    SumOfList(xs, mean);
    TotalOfList(xs, mean);
    FloatTotal(SquareList(xs, mean));
  }

  // -------------------------------------------------- variance, multiplied out

  lemma ExpandStep(q: real, t: real, n: real, d: real, x: real, c: real)
    requires d == q - 2.0 * (c * t) + (c * c) * n
    ensures d + (x - c) * (x - c) == (q + x * x) - 2.0 * (c * (t + x)) + (c * c) * (n + 1.0)
  {
    assert c * (t + x) == c * t + c * x;
    assert (c * c) * (n + 1.0) == (c * c) * n + c * c;
    assert (x - c) * (x - c) == x * x - 2.0 * (c * x) + c * c;
  }

  lemma {:induction false} DeviationsExpand(xs: seq<F64>, c: real, n: real, t: real, q: real, d: real)
    requires AllFinite(xs) && n == |xs| as real && t == Total(xs) && q == Squares(xs) && d == Deviations(xs, c)
    ensures d == q - 2.0 * (c * t) + (c * c) * n
  {
    if xs == [] {
      assert c * 0.0 == 0.0 && (c * c) * 0.0 == 0.0;
    } else {
      var before, x := xs[..|xs| - 1], xs[|xs| - 1].r;
      var t', q', d' := Total(before), Squares(before), Deviations(before, c);
      DeviationsExpand(before, c, n - 1.0, t', q', d');
      ExpandStep(q', t', n - 1.0, d', x, c);
    }
  }

  lemma VarianceFromSums(q: real, t: real, n: real, d: real, mean: real, v: real)
    requires n > 0.0 && mean * n == t && v * n == d
    requires d == q - 2.0 * (mean * t) + (mean * mean) * n
    ensures v == q / n - mean * mean
  {
    assert mean * t == (mean * mean) * n by {
      assert mean * (mean * n) == (mean * mean) * n;
    }
    assert (v + mean * mean) * n == v * n + (mean * mean) * n;
    QuotientUnique(q, n, v + mean * mean);
  }

  /** Mean of the squares minus square of the mean. */
  lemma VarianceIsMeanSquareMinusSquareMean(
      xs: seq<F64>, mean: real, v: real, n: real, t: real, q: real, d: real)
    requires AllFinite(xs) && xs != []
    requires n == |xs| as real && t == Total(xs) && q == Squares(xs) && d == Deviations(xs, mean)
    requires mean * n == t && v * n == d
    ensures v == q / n - mean * mean
  {
    DeviationsExpand(xs, mean, n, t, q, d);
    VarianceFromSums(q, t, n, d, mean, v);
  }

  // ------------------------------------------------------------------ bounds

  ghost predicate Between(xs: seq<F64>, lo: real, hi: real)
    requires AllFinite(xs)
  {
    forall i :: 0 <= i < |xs| ==> lo <= xs[i].r <= hi
  }

  lemma TotalStep(lo: real, hi: real, n: real, t: real, x: real, n': real, t': real)
    requires lo * n <= t <= hi * n && lo <= x <= hi && n' == n + 1.0 && t' == t + x
    ensures lo * n' <= t' <= hi * n'
  {
    assert lo * n' == lo * n + lo && hi * n' == hi * n + hi;
  }

  lemma {:induction false} TotalBetween(xs: seq<F64>, lo: real, hi: real, n: real, t: real)
    requires AllFinite(xs) && Between(xs, lo, hi) && n == |xs| as real && t == Total(xs)
    ensures lo * n <= t <= hi * n
  {
    if xs == [] {
      assert lo * 0.0 == 0.0 && hi * 0.0 == 0.0;
    } else {
      var k := |xs| - 1;
      var t0 := Total(xs[..k]);
      TotalBetween(xs[..k], lo, hi, n - 1.0, t0);
      TotalStep(lo, hi, n - 1.0, t0, xs[k].r, n, t);
    }
  }

  lemma MeanBetween(xs: seq<F64>, lo: real, hi: real, mean: real, n: real, t: real)
    requires AllFinite(xs) && xs != [] && Between(xs, lo, hi)
    requires n == |xs| as real && t == Total(xs) && mean * n == t
    ensures lo <= mean <= hi
  {
    TotalBetween(xs, lo, hi, n, t);
    QuotientUnique(t, n, mean);
    QuotientBounds(t, n, lo);
    QuotientBounds(t, n, hi);
  }

  lemma BoundStep(q: real, t: real, n: real, x: real, s: real, p: real, lo: real, hi: real,
                  q': real, t': real, n': real)
    requires s == lo + hi && p == lo * hi && lo <= x <= hi
    requires q' == q + x * x && t' == t + x && n' == n + 1.0
    requires q <= s * t - p * n
    ensures q' <= s * t' - p * n'
  {
    MulNonNegative(hi - x, x - lo);
    assert (hi - x) * (x - lo) == s * x - p - x * x;
    assert s * t' == s * t + s * x;
    assert p * n' == p * n + p;
  }

  lemma {:induction false} SquaresBound(
      xs: seq<F64>, lo: real, hi: real, s: real, p: real, n: real, t: real, q: real)
    requires AllFinite(xs) && Between(xs, lo, hi) && s == lo + hi && p == lo * hi
    requires n == |xs| as real && t == Total(xs) && q == Squares(xs)
    ensures q <= s * t - p * n
  {
    if xs == [] {
      assert s * 0.0 - p * 0.0 == 0.0;
    } else {
      var before, x := xs[..|xs| - 1], xs[|xs| - 1].r;
      var t', q' := Total(before), Squares(before);
      SquaresBound(before, lo, hi, s, p, n - 1.0, t', q');
      BoundStep(q', t', n - 1.0, x, s, p, lo, hi, q, t, n);
    }
  }

  lemma BoundFromSums(q: real, t: real, n: real, lo: real, hi: real, s: real, p: real, mean: real, v: real)
    requires n > 0.0 && mean * n == t && v == q / n - mean * mean
    requires s == lo + hi && p == lo * hi && q <= s * t - p * n
    ensures v <= (hi - mean) * (mean - lo)
  {
    assert s * t == (s * mean) * n by {
      assert s * (mean * n) == (s * mean) * n;
    }
    assert (s * mean - p) * n == (s * mean) * n - p * n;
    QuotientBounds(q, n, s * mean - p);
    assert (hi - mean) * (mean - lo) == s * mean - p - mean * mean;
  }

  lemma QuarterOfRange(mean: real, lo: real, hi: real)
    ensures 4.0 * ((hi - mean) * (mean - lo)) <= (hi - lo) * (hi - lo)
  {
    var a, b := hi - mean, mean - lo;
    SquareSign(a - b, (a - b) * (a - b));
    assert (a + b) * (a + b) - 4.0 * (a * b) == (a - b) * (a - b);
  }

  /** The variance is at most (hi - mean) * (mean - lo). */
  lemma VarianceBound(xs: seq<F64>, lo: real, hi: real, s: real, p: real,
                      mean: real, v: real, n: real, t: real, q: real, d: real)
    requires AllFinite(xs) && xs != [] && Between(xs, lo, hi) && s == lo + hi && p == lo * hi
    requires n == |xs| as real && t == Total(xs) && q == Squares(xs) && d == Deviations(xs, mean)
    requires mean * n == t && v * n == d
    ensures v <= (hi - mean) * (mean - lo)
  {
    assert v == q / n - mean * mean by {
      VarianceIsMeanSquareMinusSquareMean(xs, mean, v, n, t, q, d);
    }
    assert q <= s * t - p * n by {
      SquaresBound(xs, lo, hi, s, p, n, t, q);
    }
    BoundFromSums(q, t, n, lo, hi, s, p, mean, v);
  }

  // -------------------------------------------------------------------- zero

  ghost predicate AllEqual(xs: seq<F64>, c: real)
    requires AllFinite(xs)
  {
    forall i :: 0 <= i < |xs| ==> xs[i].r == c
  }

  lemma AllEqualSnoc(xs: seq<F64>, c: real)
    requires xs != [] && AllFinite(xs)
    ensures AllEqual(xs, c) <==> AllEqual(xs[..|xs| - 1], c) && xs[|xs| - 1].r == c
  {
    var before := xs[..|xs| - 1];
    assert forall i :: 0 <= i < |before| ==> before[i] == xs[i];
    if AllEqual(before, c) && xs[|xs| - 1].r == c {
      forall i | 0 <= i < |xs| ensures xs[i].r == c {
        assert i < |before| ==> before[i].r == c;
      }
    }
  }

  lemma ZeroStep(before: real, s: real, d: real)
    requires before >= 0.0 && s == d * d
    ensures before + s >= 0.0 && (before + s == 0.0 <==> before == 0.0 && d == 0.0)
  {
    SquareSign(d, s);
  }

  lemma {:induction false} DeviationsZero(xs: seq<F64>, c: real, d: real)
    requires AllFinite(xs) && d == Deviations(xs, c)
    ensures d >= 0.0 && (d == 0.0 <==> AllEqual(xs, c))
  {
    if xs != [] {
      var k := |xs| - 1;
      var before := Deviations(xs[..k], c);
      DeviationsZero(xs[..k], c, before);
      ZeroStep(before, (xs[k].r - c) * (xs[k].r - c), xs[k].r - c);
      AllEqualSnoc(xs, c);
    }
  }

  /** The variance is never negative, and 0 exactly when every value is the mean. */
  lemma VarianceZero(xs: seq<F64>, mean: real, v: real, n: real, d: real)
    requires AllFinite(xs) && xs != [] && n == |xs| as real && d == Deviations(xs, mean) && v * n == d
    ensures v >= 0.0
    ensures v == 0.0 <==> AllEqual(xs, mean)
  {
    DeviationsZero(xs, mean, d);
    QuotientUnique(d, n, v);
    QuotientBounds(d, n, 0.0);
  }

  // ------------------------------------------------------------- one set

  /** Every worker of the set has reported, and its average is positive. */
  ghost predicate FullPositiveSet(m: Metric, raw: seq<WorkerReport>, set_: int, count: int) {
    count > 0 && forall j :: 0 <= j < count ==>
      Proj(raw, WorkerId(set_, j)) != [] && Positive(Average(m, Proj(raw, WorkerId(set_, j))))
  }

  ghost predicate IdsWithin(raw: seq<WorkerReport>, set_: int, count: int) {
    forall i :: 0 <= i < |raw| && raw[i].Id.Set == set_ ==> 0 <= raw[i].Id.Id < count
  }

  function SetAverages(m: Metric, raw: seq<WorkerReport>, set_: int, count: int): seq<F64> {
    Averages(Row(Traces(raw, set_, count)), m)
  }

  lemma SetAverageAt(m: Metric, raw: seq<WorkerReport>, set_: int, count: int, j: int)
    requires HeardFrom(raw, set_) && 0 <= j < count
    ensures var xs := SetAverages(m, raw, set_, count);
            |xs| == count && xs[j] == AvgOf(WorkerOf(Proj(raw, WorkerId(set_, j))), m)
  {
  }

  lemma FullSetAverages(m: Metric, raw: seq<WorkerReport>, set_: int, count: int)
    requires FullPositiveSet(m, raw, set_, count)
    ensures var xs := SetAverages(m, raw, set_, count);
            |xs| == count && AllPositive(xs) &&
            forall j :: 0 <= j < count ==> xs[j] == Average(m, Proj(raw, WorkerId(set_, j)))
  {
    ProjHeardFrom(raw, WorkerId(set_, 0));
    assert Proj(raw, WorkerId(set_, 0)) != [];
    forall j | 0 <= j < count
      ensures var x := SetAverages(m, raw, set_, count)[j];
              x == Average(m, Proj(raw, WorkerId(set_, j))) && Positive(x)
    {
      assert Proj(raw, WorkerId(set_, j)) != [];
    }
  }

  /** The averages visited are exactly those in the row. */
  lemma VisitedAreRow(m: Metric, raw: seq<WorkerReport>, order: seq<WorkerId>, set_: int, count: int)
    requires IsOrder(order, raw) && FullPositiveSet(m, raw, set_, count) && IdsWithin(raw, set_, count)
    ensures forall x :: x in Visited(m, raw, order, set_) <==> x in SetAverages(m, raw, set_, count)
  {
    var xs := SetAverages(m, raw, set_, count);
    FullSetAverages(m, raw, set_, count);
    forall x | x in xs ensures x in Visited(m, raw, order, set_) {
      VisitedAreWorkers(m, raw, order, set_, x);
      var j :| 0 <= j < count && xs[j] == x;
      var id := WorkerId(set_, j);
      assert Proj(raw, id) != [] && id in order;
    }
    forall x | x in Visited(m, raw, order, set_) ensures x in xs {
      VisitedAreWorkers(m, raw, order, set_, x);
      var id :| id in order && id.Set == set_ && Proj(raw, id) != [] && x == Average(m, Proj(raw, id));
      RowIndex(raw, id, count);
      assert id == WorkerId(set_, id.Id);
      assert xs[id.Id] == x;
    }
  }

  lemma RowIndex(raw: seq<WorkerReport>, id: WorkerId, count: int)
    requires IdsWithin(raw, id.Set, count) && Proj(raw, id) != []
    ensures 0 <= id.Id < count
  {
    var e := Proj(raw, id)[0];
    assert e in raw && e.Id == id;
    var i :| 0 <= i < |raw| && raw[i] == e;
  }

  lemma AllPositiveSame(xs: seq<F64>, ys: seq<F64>)
    requires AllPositive(xs) && forall x :: x in ys <==> x in xs
    ensures AllPositive(ys)
  {
    forall i | 0 <= i < |ys| ensures Positive(ys[i]) {
      assert ys[i] in xs;
    }
  }

  lemma FloatQuotient(s: F64, x: real, count: nat, n: real) returns (q: real)
    requires s == Fin(x) && count > 0 && n == count as real
    ensures Div(s, FromInt(count)) == Fin(q) && q * n == x
  {
    q := x / n;
    QuotientTimes(x, n);
  }

  lemma FloatMean(xs: seq<F64>, n: real, t: real) returns (mean: real)
    requires AllFinite(xs) && xs != [] && n == |xs| as real && t == Total(xs)
    ensures Summary.Mean(xs) == Fin(mean) && mean * n == t
  {
    FloatTotal(xs);
    mean := FloatQuotient(Sum(xs), t, |xs|, n);
  }

  /** One infinite average makes the average of averages infinite, and two of different signs NaN;
      either way the spread is not a number. */
  lemma InfiniteAverage(x: real)
    ensures Summary.Mean([PosInf, Fin(x)]) == PosInf && Variance([PosInf, Fin(x)]) == NaN
    ensures Summary.Mean([NegInf, Fin(x)]) == NegInf && Variance([NegInf, Fin(x)]) == NaN
    ensures Summary.Mean([PosInf, NegInf]) == NaN && Variance([PosInf, NegInf]) == NaN
  {
    MeanOfPair(PosInf, Fin(x));
    MeanOfPair(NegInf, Fin(x));
    MeanOfPair(PosInf, NegInf);
  }

  lemma MeanOfPair(x: F64, y: F64)
    ensures Summary.Mean([x, y]) == Div(Add(Add(ZERO, x), y), FromInt(2))
    ensures var m := Summary.Mean([x, y]);
            Variance([x, y]) == Div(Add(Add(ZERO, Square(Sub(x, m))), Square(Sub(y, m))), FromInt(2))
  {
    assert [x, y][..1] == [x] && [x][..0] == [];
    assert Sum([x]) == Add(Sum([]), x);
    var m := Summary.Mean([x, y]);
    assert SquaredDeviations([x], m) == Add(SquaredDeviations([], m), Square(Sub(x, m)));
  }

  lemma FloatVariance(xs: seq<F64>, n: real, mean: real, d: real) returns (v: real)
    requires AllFinite(xs) && xs != [] && n == |xs| as real
    requires Summary.Mean(xs) == Fin(mean) && d == Deviations(xs, mean)
    ensures Variance(xs) == Fin(v) && v * n == d
  {
    FloatDeviations(xs, mean, d);
    v := FloatQuotient(SquaredDeviations(xs, Fin(mean)), d, |xs|, n);
  }

  /** Mean and variance as computed on floats, as real numbers. */
  lemma FloatStatistics(xs: seq<F64>) returns (mean: real, v: real, n: real, t: real, q: real, d: real)
    requires AllFinite(xs) && xs != []
    ensures Summary.Mean(xs) == Fin(mean) && Variance(xs) == Fin(v)
    ensures n == |xs| as real && t == Total(xs) && q == Squares(xs) && d == Deviations(xs, mean)
    ensures mean * n == t && v * n == d
  {
    n, t, q := |xs| as real, Total(xs), Squares(xs);
    mean := FloatMean(xs, n, t);
    d := Deviations(xs, mean);
    v := FloatVariance(xs, n, mean, d);
  }

  lemma EqualValues(xs: seq<F64>, lo: real, hi: real, mean: real)
    requires AllFinite(xs) && xs != [] && Between(xs, lo, hi) && lo <= mean <= hi
    requires (exists i :: 0 <= i < |xs| && xs[i].r == lo) && exists i :: 0 <= i < |xs| && xs[i].r == hi
    ensures lo == hi <==> AllEqual(xs, mean)
  {
  }

  lemma PositiveRange(xs: seq<F64>) returns (lo: real, hi: real, s: real, p: real)
    requires xs != [] && AllPositive(xs)
    ensures s == lo + hi && p == lo * hi
    ensures Extremes(xs) == Range(Fin(lo), Fin(hi)) && lo > 0.0
    ensures Between(xs, lo, hi)
    ensures (exists i :: 0 <= i < |xs| && xs[i].r == lo) && exists i :: 0 <= i < |xs| && xs[i].r == hi
  {
    PositiveExtremes(xs);
    var i :| 0 <= i < |xs| && xs[i] == Extremes(xs).Min;
    var j :| 0 <= j < |xs| && xs[j] == Extremes(xs).Max;
    lo, hi := xs[i].r, xs[j].r;
    s, p := lo + hi, lo * hi;
    forall k | 0 <= k < |xs| ensures lo <= xs[k].r <= hi {
      assert xs[k] in xs;
    }
  }

  /** The bounds on mean and variance, for finite values between lo and hi. */
  ghost predicate Spread(lo: real, hi: real, mean: real, v: real) {
    && lo <= mean <= hi
    && 0.0 <= v <= (hi - mean) * (mean - lo)
    && 4.0 * v <= (hi - lo) * (hi - lo)
    && (v == 0.0 <==> lo == hi)
  }

  lemma SpreadOf(xs: seq<F64>, lo: real, hi: real, s: real, p: real,
                 mean: real, v: real, n: real, t: real, q: real, d: real)
    requires AllFinite(xs) && xs != [] && Between(xs, lo, hi) && s == lo + hi && p == lo * hi
    requires (exists i :: 0 <= i < |xs| && xs[i].r == lo) && exists i :: 0 <= i < |xs| && xs[i].r == hi
    requires n == |xs| as real && t == Total(xs) && q == Squares(xs) && d == Deviations(xs, mean)
    requires mean * n == t && v * n == d
    ensures Spread(lo, hi, mean, v)
  {
    MeanBetween(xs, lo, hi, mean, n, t);
    VarianceBound(xs, lo, hi, s, p, mean, v, n, t, q, d);
    QuarterOfRange(mean, lo, hi);
    VarianceZero(xs, mean, v, n, d);
    EqualValues(xs, lo, hi, mean);
  }

  /** Values that are all positive: their recorded extremes bound their mean and variance. */
  lemma PositiveSpread(xs: seq<F64>)
    requires xs != [] && AllPositive(xs)
    ensures Extremes(xs).Min.Fin? && Extremes(xs).Max.Fin? && Summary.Mean(xs).Fin? && Variance(xs).Fin?
    ensures Spread(Extremes(xs).Min.r, Extremes(xs).Max.r, Summary.Mean(xs).r, Variance(xs).r)
  {
    var lo, hi, s, p := PositiveRange(xs);
    var mean, v, n, t, q, d := FloatStatistics(xs);
    SpreadOf(xs, lo, hi, s, p, mean, v, n, t, q, d);
  }

  /** The variance as it is computed: mean of the squares minus square of the mean. */
  lemma ComputedVariance(xs: seq<F64>) returns (mean: real, v: real, n: real, q: real)
    requires AllFinite(xs) && xs != []
    ensures Summary.Mean(xs) == Fin(mean) && Variance(xs) == Fin(v)
    ensures n == |xs| as real && q == Squares(xs) && v == q / n - mean * mean
  {
    var t, d;
    mean, v, n, t, q, d := FloatStatistics(xs);
    VarianceIsMeanSquareMinusSquareMean(xs, mean, v, n, t, q, d);
  }

  ghost predicate IsMeanSquareMinusSquareMean(v: F64, mean: F64, xs: seq<F64>)
    requires AllFinite(xs) && xs != []
  {
    v.Fin? && mean.Fin? && v.r == Squares(xs) / |xs| as real - mean.r * mean.r
  }

  lemma VarianceOf(xs: seq<F64>)
    requires AllFinite(xs) && xs != []
    ensures IsMeanSquareMinusSquareMean(Variance(xs), Summary.Mean(xs), xs)
  {
    var mean, v, n, q := ComputedVariance(xs);
  }

  /** What Process reports of a set in which every worker reported a positive average: the
      average of averages lies between the recorded extremes, and the variance is mean of
      squares minus square of mean, and as small as the extremes allow. */
  lemma DeviationBounds(m: Metric, raw: seq<WorkerReport>, order: seq<WorkerId>, set_: int, count: int)
    requires IsOrder(order, raw) && FullPositiveSet(m, raw, set_, count) && IdsWithin(raw, set_, count)
    ensures var s := SetMetricOf(m, raw, order, set_, Row(Traces(raw, set_, count)));
            && s.MinMaxAvg.Min.Fin? && s.MinMaxAvg.Max.Fin? && s.AvgAvg.Fin? && s.Variance.Fin?
            && Spread(s.MinMaxAvg.Min.r, s.MinMaxAvg.Max.r, s.AvgAvg.r, s.Variance.r)
            && AllFinite(SetAverages(m, raw, set_, count)) && SetAverages(m, raw, set_, count) != []
            && IsMeanSquareMinusSquareMean(s.Variance, s.AvgAvg, SetAverages(m, raw, set_, count))
  {
    var xs, ys := SetAverages(m, raw, set_, count), Visited(m, raw, order, set_);
    FullSetAverages(m, raw, set_, count);
    VisitedAreRow(m, raw, order, set_, count);
    AllPositiveSame(xs, ys);
    PositiveExtremesOfSet(xs, ys);
    PositiveSpread(xs);
    VarianceOf(xs);
  }
}
