/** The printed form of a bitmap: a comma list of numbers and ranges, as xl reads it.
    (controller/libxl.go, Bitmap.String) */
module BitmapText {
  import opened Bitmap

  // ------------------------------------------------------------------ ranges

  /** The numbers from lo to hi. */
  datatype Span = Span(lo: nat, hi: nat)

  predicate Within(i: int, lo: int, hi: int) {
    lo <= i <= hi
  }

  ghost function Interval(lo: int, hi: int): set<int> {
    set i | lo <= i <= hi && Within(i, lo, hi)
  }

  ghost function Union(rs: seq<Span>): set<int> {
    if rs == [] then {} else Union(rs[..|rs| - 1]) + Interval(rs[|rs| - 1].lo, rs[|rs| - 1].hi)
  }

  /** Increasing, none empty, and with a gap between any two. */
  ghost predicate Gapped(rs: seq<Span>) {
    && (forall i :: 0 <= i < |rs| ==> rs[i].lo <= rs[i].hi)
    && (forall i, j :: 0 <= i < j < |rs| ==> rs[i].hi + 1 < rs[j].lo)
  }

  /** The maximal ranges of a set, in order. */
  ghost predicate RangesOf(rs: seq<Span>, bits: set<int>) {
    Gapped(rs) && Union(rs) == bits
  }

  lemma UnionSnoc(rs: seq<Span>, r: Span)
    ensures Union(rs + [r]) == Union(rs) + Interval(r.lo, r.hi)
  {
    assert (rs + [r])[..|rs|] == rs;
  }

  lemma {:induction false} UnionMember(rs: seq<Span>, x: int)
    ensures x in Union(rs) <==> exists i :: 0 <= i < |rs| && rs[i].lo <= x <= rs[i].hi
  {
    if rs != [] {
      var k := |rs| - 1;
      UnionMember(rs[..k], x);
      assert forall i :: 0 <= i < k ==> rs[..k][i] == rs[i];
      if x in Union(rs[..k]) {
        var i :| 0 <= i < k && rs[..k][i].lo <= x <= rs[..k][i].hi;
        assert rs[i].lo <= x <= rs[i].hi;
      }
    }
  }

  /** Each range is maximal: its neighbours are not in the set. */
  lemma RangesAreMaximal(rs: seq<Span>, bits: set<int>, i: nat)
    requires RangesOf(rs, bits) && i < |rs|
    ensures forall x :: rs[i].lo <= x <= rs[i].hi ==> x in bits
    ensures rs[i].lo - 1 !in bits && rs[i].hi + 1 !in bits
  {
    forall x | rs[i].lo <= x <= rs[i].hi ensures x in bits {
      UnionMember(rs, x);
    }
    UnionMember(rs, rs[i].lo - 1);
    UnionMember(rs, rs[i].hi + 1);
    forall j | 0 <= j < |rs|
      ensures !(rs[j].lo <= rs[i].lo - 1 <= rs[j].hi) && !(rs[j].lo <= rs[i].hi + 1 <= rs[j].hi)
    {
      if j < i {
        assert rs[j].hi + 1 < rs[i].lo;
      } else if i < j {
        assert rs[i].hi + 1 < rs[j].lo;
      }
    }
  }

  /** The range that ends at the greatest element and starts after the last gap. */
  ghost predicate LastOf(r: Span, bits: set<int>) {
    && r.lo <= r.hi
    && (forall x :: r.lo <= x <= r.hi ==> x in bits)
    && r.lo - 1 !in bits
    && (forall x :: x in bits ==> x <= r.hi)
  }

  lemma LastOfUnique(r: Span, s: Span, bits: set<int>)
    requires LastOf(r, bits) && LastOf(s, bits)
    ensures r == s
  {
    assert r.hi in bits && s.hi in bits;
    assert r.lo <= s.lo - 1 <= r.hi ==> s.lo - 1 in bits;
    assert s.lo <= r.lo - 1 <= s.hi ==> r.lo - 1 in bits;
  }

  lemma LastRange(rs: seq<Span>, bits: set<int>)
    requires RangesOf(rs, bits) && rs != []
    ensures var r := rs[|rs| - 1];
            LastOf(r, bits) && RangesOf(rs[..|rs| - 1], bits - Interval(r.lo, r.hi)) && r.lo in bits
  {
    var k := |rs| - 1;
    RangesAreMaximal(rs, bits, k);
    forall x | x in bits ensures x <= rs[k].hi {
      UnionMember(rs, x);
    }
    forall x | x in Union(rs[..k]) ensures x < rs[k].lo {
      UnionMember(rs[..k], x);
      var i :| 0 <= i < k && rs[..k][i].lo <= x <= rs[..k][i].hi;
      assert rs[i].hi + 1 < rs[k].lo;
    }
    assert Union(rs[..k]) == bits - Interval(rs[k].lo, rs[k].hi);
  }

  lemma NoRanges(rs: seq<Span>, bits: set<int>)
    requires RangesOf(rs, bits)
    ensures rs == [] <==> bits == {}
  {
    if rs != [] {
      LastRange(rs, bits);
    }
  }

  /** A set has only one list of maximal ranges. */
  lemma {:induction false} RangesUnique(a: seq<Span>, b: seq<Span>, bits: set<int>)
    requires RangesOf(a, bits) && RangesOf(b, bits)
    ensures a == b
    decreases |a|
  {
    NoRanges(a, bits);
    NoRanges(b, bits);
    if bits != {} {
      var r, s := a[|a| - 1], b[|b| - 1];
      LastRange(a, bits);
      LastRange(b, bits);
      LastOfUnique(r, s, bits);
      RangesUnique(a[..|a| - 1], b[..|b| - 1], bits - Interval(r.lo, r.hi));
      assert a == a[..|a| - 1] + [r] && b == b[..|b| - 1] + [s];
    }
  }

  // ---------------------------------------------------------------- printing

  function Digit(n: nat): char
    requires n < 10
  {
    '0' + n as char
  }

  /** %d */
  function Decimal(n: nat): string {
    if n < 10 then [Digit(n)] else Decimal(n / 10) + [Digit(n % 10)]
  }

  function PrintSpan(r: Span): string {
    if r.lo == r.hi then Decimal(r.lo) else Decimal(r.lo) + "-" + Decimal(r.hi)
  }

  function Separator(rs: seq<Span>): string {
    if rs == [] then "" else ","
  }

  function Print(rs: seq<Span>): string {
    if rs == [] then ""
    else
      var k := |rs| - 1;
      Print(rs[..k]) + Separator(rs[..k]) + PrintSpan(rs[k])
  }

  /** s is the printed form of the set. */
  ghost predicate PrintsAs(s: string, bits: set<int>) {
    exists rs :: RangesOf(rs, bits) && s == Print(rs)
  }

  lemma PrintSnoc(rs: seq<Span>, r: Span)
    ensures Print(rs + [r]) == Print(rs) + Separator(rs) + PrintSpan(r)
  {
    assert (rs + [r])[..|rs|] == rs;
  }

  ghost function Below(bits: set<int>, n: int): set<int> {
    set i | i in bits && i < n
  }

  /** What has been printed before bit i is looked at: finished ranges, and the beginning of
      the range that bit i - 1 belongs to, if that bit is set. */
  datatype Progress = Progress(s: string, lastOnline: bool, crange: bool, printed: bool)

  ghost function OpenText(lo: nat, crange: bool): string {
    if crange then Decimal(lo) + "-" else Decimal(lo)
  }

  /** The ranges below i, the last of which is open if bit i - 1 is set. */
  ghost predicate Printing(p: Progress, closed: seq<Span>, lo: nat, i: nat, bits: set<int>) {
    && p.printed == (closed != [] || p.lastOnline)
    && if p.lastOnline then
         && lo < i && p.crange == (lo < i - 1)
         && p.s == Print(closed) + Separator(closed) + OpenText(lo, p.crange)
         && RangesOf(closed + [Span(lo, i - 1)], Below(bits, i))
       else
         && !p.crange && p.s == Print(closed)
         && RangesOf(closed, Below(bits, i))
         && i - 1 !in bits
  }

  lemma BelowUnset(bits: set<int>, i: nat)
    requires i !in bits
    ensures Below(bits, i + 1) == Below(bits, i)
  {
  }

  lemma StartSpan(p: Progress, closed: seq<Span>, lo: nat, i: nat, bits: set<int>)
    requires Printing(p, closed, lo, i, bits) && !p.lastOnline && i in bits
    ensures Printing(Progress(p.s + (if p.printed then "," else "") + Decimal(i), true, p.crange, true),
                     closed, i, i + 1, bits)
  {
    UnionSnoc(closed, Span(i, i));
    assert Below(bits, i + 1) == Below(bits, i) + Interval(i, i);
    GapBefore(closed, bits, i);
    assert Separator(closed) == if p.printed then "," else "";
  }

  lemma GapBefore(closed: seq<Span>, bits: set<int>, i: nat)
    requires RangesOf(closed, Below(bits, i)) && i - 1 !in bits
    ensures forall j :: 0 <= j < |closed| ==> closed[j].hi + 1 < i
  {
    forall j | 0 <= j < |closed| ensures closed[j].hi + 1 < i {
      RangesAreMaximal(closed, Below(bits, i), j);
      assert closed[j].hi in Below(bits, i);
    }
  }

  lemma ExtendRanges(closed: seq<Span>, lo: nat, i: nat, bits: set<int>)
    requires lo < i && RangesOf(closed + [Span(lo, i - 1)], Below(bits, i)) && i in bits
    ensures RangesOf(closed + [Span(lo, i)], Below(bits, i + 1))
  {
    UnionSnoc(closed, Span(lo, i - 1));
    UnionSnoc(closed, Span(lo, i));
    assert Below(bits, i + 1) == Below(bits, i) + Interval(i, i);
    assert Interval(lo, i) == Interval(lo, i - 1) + Interval(i, i);
    var before, after := closed + [Span(lo, i - 1)], closed + [Span(lo, i)];
    forall j, k | 0 <= j < k < |after| ensures after[j].hi + 1 < after[k].lo {
      assert after[j] == before[j] && after[k].lo == before[k].lo;
    }
    forall j | 0 <= j < |after| ensures after[j].lo <= after[j].hi {
      assert before[j].lo <= before[j].hi;
    }
  }

  lemma ExtendText(pre: string, lo: nat)
    ensures pre + OpenText(lo, false) + "-" == pre + OpenText(lo, true)
  {
  }

  lemma CloseText(pre: string, lo: nat, hi: nat)
    requires lo <= hi
    ensures pre + OpenText(lo, lo < hi) + (if lo < hi then Decimal(hi) else "") == pre + PrintSpan(Span(lo, hi))
  {
    if lo < hi {
      assert pre + (Decimal(lo) + "-") + Decimal(hi) == pre + (Decimal(lo) + "-" + Decimal(hi));
    } else {
      assert pre + Decimal(lo) + "" == pre + Decimal(lo);
    }
  }

  lemma EndText(p: Progress, closed: seq<Span>, lo: nat, hi: nat)
    requires lo <= hi && p.crange == (lo < hi)
    requires p.s == Print(closed) + Separator(closed) + OpenText(lo, p.crange)
    ensures Print(closed + [Span(lo, hi)]) == if p.crange then p.s + Decimal(hi) else p.s
  {
    PrintSnoc(closed, Span(lo, hi));
    CloseText(Print(closed) + Separator(closed), lo, hi);
    assert p.s + "" == p.s;
  }

  lemma ExtendSpan(p: Progress, closed: seq<Span>, lo: nat, i: nat, bits: set<int>)
    requires Printing(p, closed, lo, i, bits) && p.lastOnline && i in bits
    ensures Printing(Progress(if p.crange then p.s else p.s + "-", true, true, p.printed),
                     closed, lo, i + 1, bits)
  {
    ExtendRanges(closed, lo, i, bits);
    ExtendText(Print(closed) + Separator(closed), lo);
  }

  lemma EndSpan(p: Progress, closed: seq<Span>, lo: nat, i: nat, bits: set<int>)
    requires Printing(p, closed, lo, i, bits) && p.lastOnline && i !in bits
    ensures Printing(Progress(if p.crange then p.s + Decimal(i - 1) else p.s, false, false, p.printed),
                     closed + [Span(lo, i - 1)], lo, i + 1, bits)
  {
    EndText(p, closed, lo, i - 1);
    BelowUnset(bits, i);
  }

  lemma StayOff(p: Progress, closed: seq<Span>, lo: nat, i: nat, bits: set<int>)
    requires Printing(p, closed, lo, i, bits) && !p.lastOnline && i !in bits
    ensures Printing(p, closed, lo, i + 1, bits)
  {
    BelowUnset(bits, i);
  }

  lemma NothingPrinted(bits: set<int>)
    requires forall x :: x in bits ==> x >= 0
    ensures Printing(Progress("", false, false, false), [], 0, 0, bits)
  {
    assert Below(bits, 0) == {};
  }

  lemma AllPrinted(p: Progress, closed: seq<Span>, lo: nat, i: nat, bits: set<int>)
    requires Printing(p, closed, lo, i, bits) && !p.lastOnline
    requires forall x :: x in bits ==> x < i
    ensures RangesOf(closed, bits) && p.s == Print(closed)
  {
    assert Below(bits, i) == bits;
  }

  /** The body of the loop of Bitmap.String. */
  method Look(online: bool, p: Progress, i: nat, ghost closed: seq<Span>, ghost lo: nat, ghost bits: set<int>)
      returns (p': Progress, ghost closed': seq<Span>, ghost lo': nat)
    requires Printing(p, closed, lo, i, bits) && online == (i in bits)
    ensures Printing(p', closed', lo', i + 1, bits)
  {
    var s, lastOnline, crange, printed := p.s, p.lastOnline, p.crange, p.printed;
    closed', lo' := closed, lo;
    if online {
      if !lastOnline {
        StartSpan(p, closed, lo, i, bits);
        if printed {
          s := s + ",";
        }
        s := s + Decimal(i);
        printed := true;
        lo' := i;
      } else {
        ExtendSpan(p, closed, lo, i, bits);
        if !crange {
          crange := true;
          s := s + "-";
        }
      }
      lastOnline := true;
    } else {
      if lastOnline {
        EndSpan(p, closed, lo, i, bits);
        if crange {
          s := s + Decimal(i - 1);
        }
        closed' := closed + [Span(lo, i - 1)];
      } else {
        StayOff(p, closed, lo, i, bits);
      }
      lastOnline, crange := false, false;
    }
    p' := Progress(s, lastOnline, crange, printed);
  }

  /** Bitmap.String: the maximal ranges of the bits that are set. */
  method String(bm: Bitmap) returns (s: string)
    ensures PrintsAs(s, Bits(bm.bitmap))
  {
    var p, i := Progress("", false, false, false), 0;
    ghost var bits, lo, closed := Bits(bm.bitmap), 0, [];
    NothingPrinted(bits);
    while i <= bm.Max()
      invariant 0 <= i <= bm.Max() + 1
      invariant Printing(p, closed, lo, i, bits)
    {
      p, closed, lo := Look(bm.Test(i), p, i, closed, lo, bits);
      i := i + 1;
    }
    s := p.s;
    if p.lastOnline {
      EndSpan(p, closed, lo, i, bits);
      if p.crange {
        s := s + Decimal(i - 1);
      }
      closed := closed + [Span(lo, i - 1)];
      AllPrinted(Progress(s, false, false, p.printed), closed, lo, i + 1, bits);
    } else {
      AllPrinted(p, closed, lo, i, bits);
    }
    assert RangesOf(closed, Bits(bm.bitmap)) && s == Print(closed);
  }
}
