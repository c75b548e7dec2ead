/** The running extremes, in which 0 also means "nothing seen yet".
    (controller/benchmark.go, MinMax.Update) */
module MinMax {
  import opened Float

  datatype Range = Range(Min: F64, Max: F64)

  const UNSET: Range := Range(ZERO, ZERO)

  function Updated(mm: Range, x: F64): Range {
    Range(if Less(x, mm.Min) || mm.Min == ZERO then x else mm.Min,
          if Less(mm.Max, x) then x else mm.Max)
  }

  method Update(mm: Range, x: F64) returns (mm': Range)
    ensures mm' == Updated(mm, x)
  {
    mm' := mm;
    if Less(mm'.Max, x) {
      mm' := mm'.(Max := x);
    }
    if Less(x, mm'.Min) || mm'.Min == ZERO {
      mm' := mm'.(Min := x);
    }
  }

  /** The extremes after a sequence of values. */
  function Extremes(xs: seq<F64>): Range {
    if xs == [] then UNSET else Updated(Extremes(xs[..|xs| - 1]), xs[|xs| - 1])
  }

  lemma ExtremesSnoc(xs: seq<F64>, x: F64)
    ensures Extremes(xs + [x]) == Updated(Extremes(xs), x)
  {
    assert (xs + [x])[..|xs|] == xs;
  }

  ghost predicate IsLeast(m: F64, xs: seq<F64>) {
    m in xs && forall x :: x in xs ==> AtMost(m, x)
  }

  ghost predicate IsGreatest(m: F64, xs: seq<F64>) {
    m in xs && forall x :: x in xs ==> AtMost(x, m)
  }

  /** What Min holds, for every sequence of finite values. */
  ghost predicate MinState(v: F64, xs: seq<F64>) {
    && v.Fin?
    && (v.r < 0.0 ==> IsLeast(v, xs))
    && (v.r >= 0.0 ==> forall x :: x in xs ==> AtMost(ZERO, x))
    && (v.r == 0.0 ==> xs == [] || xs[|xs| - 1] == ZERO)
    && (v.r > 0.0 ==> IsLeast(v, xs) || ZERO in xs)
    && (xs != [] && xs[|xs| - 1] == ZERO ==> v.r <= 0.0)
  }

  ghost predicate MaxState(v: F64, xs: seq<F64>) {
    && AtMost(ZERO, v) && v.Fin?
    && (v == ZERO || v in xs)
    && forall x :: x in xs ==> AtMost(x, v)
  }

  lemma MinStep(v: F64, xs: seq<F64>, x: F64)
    requires AllFinite(xs) && MinState(v, xs) && x.Fin?
    ensures MinState(if Less(x, v) || v == ZERO then x else v, xs + [x])
  {
    var ys := xs + [x];
    assert x in ys && forall y :: y in ys <==> y == x || y in xs;
    assert ys[|ys| - 1] == x;
    assert forall y :: y in xs ==> y.Fin?;
  }

  lemma {:induction false} ExtremesState(xs: seq<F64>)
    requires AllFinite(xs)
    ensures MinState(Extremes(xs).Min, xs) && MaxState(Extremes(xs).Max, xs)
  {
    if xs != [] {
      var k := |xs| - 1;
      ExtremesState(xs[..k]);
      MinStep(Extremes(xs[..k]).Min, xs[..k], xs[k]);
      assert xs == xs[..k] + [xs[k]];
      assert forall y :: y in xs <==> y == xs[k] || y in xs[..k];
    }
  }

  /** Min is the least value exactly when that is not 0, or 0 was the last value seen:
      a 0 followed by anything larger is forgotten. */
  lemma MinExact(xs: seq<F64>, m: F64)
    requires AllFinite(xs) && IsLeast(m, xs)
    ensures Extremes(xs).Min == m <==> m != ZERO || xs[|xs| - 1] == ZERO
  {
    ExtremesState(xs);
    var v := Extremes(xs).Min;
    assert forall x :: x in xs ==> x.Fin?;
    if IsLeast(v, xs) {
      assert AtMost(v, m) && AtMost(m, v);
    } else if v.r > 0.0 {
      assert AtMost(ZERO, m) && AtMost(m, ZERO);
    }
  }

  /** Max is the greatest value exactly when that is not negative. */
  lemma MaxExact(xs: seq<F64>, m: F64)
    requires AllFinite(xs) && IsGreatest(m, xs)
    ensures Extremes(xs).Max == m <==> AtMost(ZERO, m)
  {
    ExtremesState(xs);
  }

  ghost predicate HasNegative(xs: seq<F64>) {
    exists i :: 0 <= i < |xs| && Negative(xs[i])
  }

  /** The values after the last 0. */
  function SinceZero(xs: seq<F64>): (run: seq<F64>)
    ensures |run| <= |xs|
  {
    if xs == [] || xs[|xs| - 1] == ZERO then []
    else SinceZero(xs[..|xs| - 1]) + [xs[|xs| - 1]]
  }

  /** The law of Min: once a negative value has been seen it is the least value, else it is
      the least value since the last 0, or 0 if there is none. */
  ghost predicate MinLawful(v: F64, xs: seq<F64>) {
    if HasNegative(xs) then IsLeast(v, xs) && Negative(v)
    else if SinceZero(xs) == [] then v == ZERO
    else IsLeast(v, SinceZero(xs)) && Positive(v)
  }

  lemma NegativeSnoc(xs: seq<F64>, x: F64)
    ensures HasNegative(xs + [x]) <==> HasNegative(xs) || Negative(x)
  {
    var ys := xs + [x];
    assert ys[|xs|] == x;
    if i :| 0 <= i < |xs| && Negative(xs[i]) {
      assert Negative(ys[i]);
    }
  }

  lemma LeastSnoc(v: F64, xs: seq<F64>, x: F64)
    requires IsLeast(v, xs) && v.Fin? && x.Fin?
    ensures IsLeast(if Less(x, v) then x else v, xs + [x])
  {
    var ys := xs + [x];
    assert ys[|xs|] == x && forall y :: y in ys <==> y == x || y in xs;
    forall y | y in xs ensures AtMost(if Less(x, v) then x else v, y) {
      assert AtMost(v, y);
    }
  }

  lemma FirstNegativeIsLeast(xs: seq<F64>, x: F64)
    requires AllFinite(xs) && !HasNegative(xs) && Negative(x) && x.Fin?
    ensures IsLeast(x, xs + [x])
  {
    var ys := xs + [x];
    assert ys[|xs|] == x && forall y :: y in ys <==> y == x || y in xs;
  }

  lemma MinLawStep(v: F64, xs: seq<F64>, x: F64)
    requires AllFinite(xs) && MinLawful(v, xs) && v.Fin? && x.Fin?
    ensures MinLawful(if Less(x, v) || v == ZERO then x else v, xs + [x])
  {
    NegativeSnoc(xs, x);
    assert (xs + [x])[..|xs|] == xs;
    if HasNegative(xs) {
      LeastSnoc(v, xs, x);
    } else if Negative(x) {
      FirstNegativeIsLeast(xs, x);
    } else if x != ZERO {
      assert SinceZero(xs + [x]) == SinceZero(xs) + [x];
      if SinceZero(xs) == [] {
        assert [] + [x] == [x];
      } else {
        LeastSnoc(v, SinceZero(xs), x);
      }
    }
  }

  lemma {:induction false} MinLaw(xs: seq<F64>)
    requires AllFinite(xs)
    ensures MinLawful(Extremes(xs).Min, xs)
  {
    if xs != [] {
      var k := |xs| - 1;
      ExtremesState(xs[..k]);
      MinLaw(xs[..k]);
      MinLawStep(Extremes(xs[..k]).Min, xs[..k], xs[k]);
      assert xs[..k] + [xs[k]] == xs;
    }
  }

  /** What the recorded Min is never above, unless it is positive. */
  function Floor(ws: seq<F64>): F64 {
    if Negative(Extremes(ws).Min) then Extremes(ws).Min else ZERO
  }

  lemma FloorAndMaxBound(ws: seq<F64>, x: F64)
    requires AllFinite(ws) && x in ws
    ensures Floor(ws).Fin? && Extremes(ws).Max.Fin?
    ensures AtMost(Floor(ws), x) && AtMost(x, Extremes(ws).Max)
  {
    ExtremesState(ws);
    MinLaw(ws);
  }

  /** A value that is not below all others is not below Min exactly if a negative value has
      been seen, or nothing since the last 0, or something since then that is not above it. */
  lemma MinNotAbove(xs: seq<F64>, y: F64)
    requires AllFinite(xs) && y.Fin? && AtMost(Floor(xs), y)
    ensures AtMost(Extremes(xs).Min, y) <==>
            || HasNegative(xs)
            || SinceZero(xs) == []
            || exists x :: x in SinceZero(xs) && AtMost(x, y)
  {
    var v := Extremes(xs).Min;
    MinLaw(xs);
    if !HasNegative(xs) && SinceZero(xs) != [] {
      assert v in SinceZero(xs);
      forall x | x in SinceZero(xs) && AtMost(x, y) ensures AtMost(v, y) {
        assert AtMost(v, x);
      }
    }
  }

  lemma ZeroThenPositive(x: F64)
    requires Positive(x)
    ensures Extremes([ZERO, x]).Min == x && Extremes([x, ZERO]).Min == ZERO
  {
    ExtremesSnoc([], ZERO);
    ExtremesSnoc([], x);
    ExtremesSnoc([ZERO], x);
    ExtremesSnoc([x], ZERO);
    assert [] + [ZERO] == [ZERO] && [] + [x] == [x];
    assert [ZERO] + [x] == [ZERO, x] && [x] + [ZERO] == [x, ZERO];
  }

  /** A worker that stands still for one window and then moves: the 0 is lost. */
  lemma IdleWindowForgotten()
    ensures IsLeast(ZERO, [ZERO, Fin(5.0)]) && Extremes([ZERO, Fin(5.0)]).Min == Fin(5.0)
    ensures Extremes([Fin(5.0), ZERO]).Min == ZERO
  {
    ZeroThenPositive(Fin(5.0));
  }

  /** On positive values both extremes are exact. */
  lemma PositiveExtremes(xs: seq<F64>)
    requires xs != [] && AllPositive(xs)
    ensures IsLeast(Extremes(xs).Min, xs) && IsGreatest(Extremes(xs).Max, xs)
  {
    ExtremesState(xs);
    assert xs[0] in xs;
  }

  /** So they depend on which values occur, and not on their order or number. */
  lemma PositiveExtremesOfSet(xs: seq<F64>, ys: seq<F64>)
    requires AllPositive(xs) && AllPositive(ys)
    requires forall x :: x in xs <==> x in ys
    ensures Extremes(xs) == Extremes(ys)
  {
    assert xs != [] ==> xs[0] in xs;
    assert ys != [] ==> ys[0] in ys;
    if xs != [] {
      PositiveExtremes(xs);
      PositiveExtremes(ys);
    }
  }

  /** Infinite values, which come of two reports with the same time. */
  lemma InfiniteInput(x: real)
    requires x > 0.0
    ensures Extremes([PosInf]) == Range(PosInf, PosInf) && Extremes([NegInf]) == Range(NegInf, Fin(0.0))
    ensures Extremes([Fin(x), PosInf]) == Range(Fin(x), PosInf) && Extremes([PosInf, Fin(x)]) == Range(Fin(x), PosInf)
    ensures Extremes([Fin(x), NegInf]) == Range(NegInf, Fin(x)) && Extremes([NegInf, Fin(x)]) == Range(NegInf, Fin(x))
    ensures Extremes([NegInf, PosInf]) == Extremes([PosInf, NegInf]) == Range(NegInf, PosInf)
  {
    PairOfValues(Fin(x), PosInf);
    PairOfValues(PosInf, Fin(x));
    PairOfValues(Fin(x), NegInf);
    PairOfValues(NegInf, Fin(x));
    PairOfValues(NegInf, PosInf);
    PairOfValues(PosInf, NegInf);
  }

  lemma PairOfValues(x: F64, y: F64)
    ensures Extremes([x]) == Updated(UNSET, x) && Extremes([x, y]) == Updated(Updated(UNSET, x), y)
  {
    ExtremesSnoc([], x);
    ExtremesSnoc([x], y);
    assert [] + [x] == [x] && [x] + [y] == [x, y];
  }

  // --------------------------------------------------------------------- NaN

  function Numbers(xs: seq<F64>): (ns: seq<F64>)
    ensures forall x :: x in ns <==> x in xs && !x.NaN?
  {
    if xs == [] then []
    else
      var k := |xs| - 1;
      if xs[k].NaN? then Numbers(xs[..k]) else Numbers(xs[..k]) + [xs[k]]
  }

  /** Some NaN came while Min was 0, and so counted as unset. */
  predicate NaNTaken(xs: seq<F64>) {
    xs != [] &&
    var k := |xs| - 1;
    NaNTaken(xs[..k]) || (xs[k].NaN? && Extremes(Numbers(xs[..k])).Min == ZERO)
  }

  lemma NaNTakenSnoc(xs: seq<F64>, x: F64)
    ensures NaNTaken(xs + [x]) <==> NaNTaken(xs) || (x.NaN? && Extremes(Numbers(xs)).Min == ZERO)
  {
    assert (xs + [x])[..|xs|] == xs;
  }

  /** One more value, for a Min that has or has not become NaN beside one that has not. */
  lemma NaNStep(mm: Range, n: Range, taken: bool, x: F64)
    requires mm == Range(if taken then NaN else n.Min, n.Max)
    ensures Updated(mm, x) ==
            if x.NaN? then Range(if taken || n.Min == ZERO then NaN else n.Min, n.Max)
            else Range(if taken then NaN else Updated(n, x).Min, Updated(n, x).Max)
  {
  }

  /** For any values at all: Max ignores every NaN. Min does so too, unless one came while it
      was 0: then it is NaN for good. */
  lemma {:induction false} NaNLaw(xs: seq<F64>)
    ensures var n := Extremes(Numbers(xs));
            Extremes(xs) == Range(if NaNTaken(xs) then NaN else n.Min, n.Max)
  {
    if xs != [] {
      var k := |xs| - 1;
      var ns := Numbers(xs[..k]);
      NaNLaw(xs[..k]);
      NaNStep(Extremes(xs[..k]), Extremes(ns), NaNTaken(xs[..k]), xs[k]);
      ExtremesSnoc(ns, xs[k]);
    }
  }

  ghost predicate NumberOrNaN(xs: seq<F64>) {
    forall i :: 0 <= i < |xs| ==> xs[i].NaN? || xs[i].Fin?
  }

  lemma NumbersFinite(xs: seq<F64>)
    requires NumberOrNaN(xs)
    ensures AllFinite(Numbers(xs))
  {
    var ns := Numbers(xs);
    forall i | 0 <= i < |ns| ensures ns[i].Fin? {
      assert ns[i] in ns;
    }
  }

  ghost predicate LastIsZero(xs: seq<F64>) {
    xs == [] || xs[|xs| - 1] == ZERO
  }

  /** When Min counts as unset. */
  lemma MinIsZero(xs: seq<F64>)
    requires AllFinite(xs)
    ensures Extremes(xs).Min == ZERO <==> !HasNegative(xs) && LastIsZero(xs)
  {
    MinLaw(xs);
  }

  lemma {:induction false} FirstNaNIsTaken(xs: seq<F64>)
    requires xs != [] && xs[0].NaN?
    ensures NaNTaken(xs)
  {
    var k := |xs| - 1;
    if k > 0 {
      FirstNaNIsTaken(xs[..k]);
    } else {
      assert Numbers(xs[..k]) == [];
    }
  }

  lemma {:induction false} NumberStays(xs: seq<F64>)
    requires xs != [] && xs[0].Fin? && xs[0] != ZERO && NumberOrNaN(xs) && ZERO !in xs
    ensures !NaNTaken(xs)
  {
    var k := |xs| - 1;
    if k > 0 {
      assert xs[..k][0] == xs[0];
      NumberStays(xs[..k]);
      NumbersFinite(xs[..k]);
      MinIsZero(Numbers(xs[..k]));
      var ns := Numbers(xs[..k]);
      assert xs[0] in ns;
      assert ns[|ns| - 1] in ns;
    }
  }

  /** If none of the numbers is 0, the first value decides alone. */
  lemma MinNaNExact(xs: seq<F64>)
    requires xs != [] && NumberOrNaN(xs) && ZERO !in xs
    ensures Extremes(xs).Min.NaN? <==> xs[0].NaN?
  {
    NaNLaw(xs);
    if xs[0].NaN? {
      FirstNaNIsTaken(xs);
    } else {
      NumberStays(xs);
      NumbersFinite(xs);
      ExtremesState(Numbers(xs));
    }
  }

  /** A number other than 0 in front keeps out every NaN that follows at once. */
  lemma {:induction false} NaNsKeptOut(x: F64, nans: seq<F64>, ns: seq<F64>)
    requires x.Fin? && x != ZERO && (forall y :: y in nans ==> y.NaN?) && AllFinite(ns)
    ensures !NaNTaken([x] + nans + ns)
  {
    var xs := [x] + nans + ns;
    var k := |xs| - 1;
    if ns != [] {
      assert xs[..k] == [x] + nans + ns[..|ns| - 1];
      NaNsKeptOut(x, nans, ns[..|ns| - 1]);
    } else if nans != [] {
      assert xs[..k] == [x] + nans[..|nans| - 1] + [];
      NaNsKeptOut(x, nans[..|nans| - 1], []);
      NaNsIgnored(x, nans[..|nans| - 1]);
      assert [x] + nans[..|nans| - 1] + [] == [x] + nans[..|nans| - 1];
      OneValue(x);
    } else {
      assert xs == [x] && xs[..k] == [];
    }
  }

  lemma {:induction false} NaNsIgnored(x: F64, nans: seq<F64>)
    requires x.Fin? && forall y :: y in nans ==> y.NaN?
    ensures Numbers([x] + nans) == [x]
  {
    var xs := [x] + nans;
    if nans == [] {
      assert xs[..0] == [] && xs == [x];
    } else {
      var k := |nans| - 1;
      assert xs[..|xs| - 1] == [x] + nans[..k];
      NaNsIgnored(x, nans[..k]);
    }
  }

  lemma OneValue(x: F64)
    requires x.Fin?
    ensures Extremes([x]).Min == x
  {
    ExtremesSnoc([], x);
    assert [] + [x] == [x];
  }

  // ------------------------------------------------------------------- order

  /** Min can show in which order these values came. */
  ghost predicate OrderShows(xs: seq<F64>) {
    || (NaN in xs && exists x :: x in xs && x.Fin? && x != ZERO)
    || (!HasNegative(xs) && ZERO in xs && exists x :: x in xs && Positive(x))
  }

  ghost predicate SameValues(xs: seq<F64>, ys: seq<F64>) {
    forall x :: x in xs <==> x in ys
  }

  lemma {:induction false} ZerosTakeNaN(xs: seq<F64>)
    requires NaN in xs && forall x :: x in xs ==> x == NaN || x == ZERO
    ensures NaNTaken(xs)
  {
    var k := |xs| - 1;
    assert forall x :: x in xs <==> x in xs[..k] || x == xs[k];
    if NaN in xs[..k] {
      ZerosTakeNaN(xs[..k]);
    } else {
      var ns := Numbers(xs[..k]);
      forall i | 0 <= i < |ns| ensures ns[i] == ZERO {
        assert ns[i] in ns;
      }
      MinIsZero(ns);
    }
  }

  lemma NegativeOf(xs: seq<F64>)
    ensures HasNegative(xs) <==> exists x :: x in xs && Negative(x)
  {
    if x :| x in xs && Negative(x) {
      var i :| 0 <= i < |xs| && xs[i] == x;
      assert Negative(xs[i]);
    }
  }

  lemma FiniteSameMin(xs: seq<F64>, ys: seq<F64>)
    requires AllFinite(xs) && AllFinite(ys) && SameValues(xs, ys) && !OrderShows(xs)
    ensures Extremes(xs).Min == Extremes(ys).Min
  {
    MinLaw(xs);
    MinLaw(ys);
    NegativeOf(xs);
    NegativeOf(ys);
    if !HasNegative(xs) {
      AllPositiveOrAllZero(xs);
      AllPositiveOrAllZero(ys);
      if ZERO !in xs {
        PositiveExtremesOfSet(xs, ys);
      } else {
        assert xs[|xs| - 1] in xs && ys[|ys| - 1] in ys;
      }
    }
  }

  lemma AllPositiveOrAllZero(xs: seq<F64>)
    requires AllFinite(xs) && !HasNegative(xs)
    ensures ZERO !in xs ==> AllPositive(xs)
    ensures (forall x :: x in xs ==> !Positive(x)) ==> forall x :: x in xs ==> x == ZERO
  {
    forall i | 0 <= i < |xs| ensures !Negative(xs[i]) {
    }
  }

  lemma NumbersSame(xs: seq<F64>, ys: seq<F64>)
    requires NumberOrNaN(xs) && NumberOrNaN(ys) && SameValues(xs, ys)
    ensures SameValues(Numbers(xs), Numbers(ys)) && AllFinite(Numbers(xs)) && AllFinite(Numbers(ys))
  {
    NumbersFinite(xs);
    NumbersFinite(ys);
  }

  lemma FiniteSameMax(xs: seq<F64>, ys: seq<F64>)
    requires AllFinite(xs) && AllFinite(ys) && SameValues(xs, ys)
    ensures Extremes(xs).Max == Extremes(ys).Max
  {
    ExtremesState(xs);
    ExtremesState(ys);
  }

  /** Max depends only on which values occur; so does Min, unless they can show their order. */
  lemma ExtremesOfSet(xs: seq<F64>, ys: seq<F64>)
    requires NumberOrNaN(xs) && NumberOrNaN(ys) && SameValues(xs, ys)
    ensures Extremes(xs).Max == Extremes(ys).Max
    ensures !OrderShows(xs) ==> Extremes(xs).Min == Extremes(ys).Min
  {
    NaNLaw(xs);
    NaNLaw(ys);
    NumbersSame(xs, ys);
    FiniteSameMax(Numbers(xs), Numbers(ys));
    if !OrderShows(xs) {
      if NaN in xs {
        ZerosTakeNaN(xs);
        ZerosTakeNaN(ys);
      } else {
        FiniteIfNoNaN(xs);
        FiniteIfNoNaN(ys);
        FiniteSameMin(xs, ys);
      }
    }
  }

  lemma FiniteIfNoNaN(xs: seq<F64>)
    requires NumberOrNaN(xs) && NaN !in xs
    ensures AllFinite(xs)
  {
    forall i | 0 <= i < |xs| ensures xs[i].Fin? {
      assert xs[i] in xs;
    }
  }

  lemma PositiveOrderHidden(xs: seq<F64>)
    requires AllPositive(xs)
    ensures NumberOrNaN(xs) && !OrderShows(xs)
  {
  }
}
