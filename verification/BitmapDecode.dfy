/** Reading a printed bitmap back: a comma list of `n` and `n-m`, and the round trip through
    Bitmap.String. (controller/libxl.go, Bitmap.String; controller/run.go, the soft affinity) */
module BitmapDecode {
  import opened Benchmark
  import opened BitmapText

  /** The fields of s between separators; always at least one. */
  function Split(s: string, sep: char): (parts: seq<string>)
    ensures parts != []
  {
    if s == "" then [""]
    else
      var parts, c := Split(s[..|s| - 1], sep), s[|s| - 1];
      if c == sep then parts + [""] else parts[|parts| - 1 := parts[|parts| - 1] + [c]]
  }

  predicate IsDigit(c: char) {
    '0' <= c <= '9'
  }

  function Value(c: char): (n: nat)
    requires IsDigit(c)
    ensures n < 10
  {
    c as int - '0' as int
  }

  function ParseNat(s: string): Option<nat> {
    if s == "" || !IsDigit(s[|s| - 1]) then None
    else if |s| == 1 then Some(Value(s[0]))
    else
      match ParseNat(s[..|s| - 1])
      case None => None
      case Some(n) => Some(10 * n + Value(s[|s| - 1]))
  }

  ghost function ParseItem(s: string): Option<set<int>> {
    var ends := Split(s, '-');
    if |ends| == 1 then
      match ParseNat(s)
      case None => None
      case Some(n) => Some(Interval(n, n))
    else if |ends| == 2 then
      match (ParseNat(ends[0]), ParseNat(ends[1]))
      case (Some(lo), Some(hi)) => Some(Interval(lo, hi))
      case _ => None
    else None
  }

  ghost function ParseItems(items: seq<string>): Option<set<int>> {
    if items == [] then Some({})
    else
      match (ParseItems(items[..|items| - 1]), ParseItem(items[|items| - 1]))
      case (Some(a), Some(b)) => Some(a + b)
      case _ => None
  }

  ghost function Decode(s: string): Option<set<int>> {
    if s == "" then Some({}) else ParseItems(Split(s, ','))
  }

  // --------------------------------------------------------------- splitting

  lemma SplitSnoc(s: string, c: char, sep: char)
    ensures var parts := Split(s, sep);
            Split(s + [c], sep) ==
            if c == sep then parts + [""] else parts[|parts| - 1 := parts[|parts| - 1] + [c]]
  {
    assert (s + [c])[..|s|] == s;
  }

  lemma {:induction false} SplitItem(s: string, sep: char)
    requires sep !in s
    ensures Split(s, sep) == [s]
  {
    if s != "" {
      var k := |s| - 1;
      SplitItem(s[..k], sep);
      assert s[k] in s && s[..k] + [s[k]] == s;
    }
  }

  /** A separator starts a new field. */
  lemma {:induction false} SplitField(s: string, sep: char, item: string)
    requires sep !in item
    ensures Split(s + [sep] + item, sep) == Split(s, sep) + [item]
  {
    if item == "" {
      assert s + [sep] + item == s + [sep];
      SplitSnoc(s, sep, sep);
    } else {
      var k := |item| - 1;
      SplitField(s, sep, item[..k]);
      assert item[k] in item && item[..k] + [item[k]] == item;
      assert s + [sep] + item == (s + [sep] + item[..k]) + [item[k]];
      SplitSnoc(s + [sep] + item[..k], item[k], sep);
    }
  }

  // ----------------------------------------------------------------- numbers

  lemma DigitValue(n: nat)
    requires n < 10
    ensures IsDigit(Digit(n)) && Value(Digit(n)) == n
  {
  }

  lemma {:induction false} DecimalDigits(n: nat)
    ensures Decimal(n) != "" && forall c :: c in Decimal(n) ==> IsDigit(c)
  {
    DigitValue(n % 10);
    if n >= 10 {
      DecimalDigits(n / 10);
    }
  }

  lemma {:induction false} DecimalRoundTrip(n: nat)
    ensures ParseNat(Decimal(n)) == Some(n)
  {
    if n < 10 {
      DigitValue(n);
    } else {
      var front, d := Decimal(n / 10), Digit(n % 10);
      DigitValue(n % 10);
      DecimalDigits(n / 10);
      DecimalRoundTrip(n / 10);
      assert (front + [d])[..|front|] == front;
    }
  }

  /** No leading zero. */
  lemma {:induction false} DecimalShape(n: nat)
    ensures Decimal(n) != "" && (Decimal(n)[0] == '0' <==> n == 0) && (n < 10 <==> |Decimal(n)| == 1)
  {
    if n >= 10 {
      DecimalShape(n / 10);
    }
  }

  lemma {:induction false} LeadingDigit(s: string, n: nat)
    requires ParseNat(s) == Some(n) && s[0] != '0'
    ensures n > 0
  {
    if |s| > 1 {
      LeadingDigit(s[..|s| - 1], ParseNat(s[..|s| - 1]).value);
    }
  }

  /** What is printed for n is the only way to write it without a leading zero, and so the
      shortest. */
  lemma {:induction false} DecimalUnique(s: string, n: nat)
    requires ParseNat(s) == Some(n) && (s[0] != '0' || s == "0")
    ensures s == Decimal(n)
  {
    if |s| > 1 {
      var k := |s| - 1;
      var front := ParseNat(s[..k]).value;
      LeadingDigit(s[..k], front);
      DecimalUnique(s[..k], front);
      assert n / 10 == front && n % 10 == Value(s[k]);
      assert s == s[..k] + [s[k]];
    }
  }

  lemma NotIn(c: char, s: string)
    requires !IsDigit(c) && forall d :: d in s ==> IsDigit(d)
    ensures c !in s
  {
  }

  lemma RangeFields(a: string, b: string)
    requires '-' !in a && '-' !in b
    ensures Split(a + "-" + b, '-') == [a, b]
  {
    SplitItem(a, '-');
    SplitField(a, '-', b);
  }

  lemma NumberRoundTrip(n: nat)
    ensures ParseItem(Decimal(n)) == Some(Interval(n, n))
  {
    DecimalDigits(n);
    NotIn('-', Decimal(n));
    SplitItem(Decimal(n), '-');
    DecimalRoundTrip(n);
  }

  lemma RangeRoundTrip(lo: nat, hi: nat)
    ensures ParseItem(Decimal(lo) + "-" + Decimal(hi)) == Some(Interval(lo, hi))
  {
    DecimalDigits(lo);
    DecimalDigits(hi);
    NotIn('-', Decimal(lo));
    NotIn('-', Decimal(hi));
    RangeFields(Decimal(lo), Decimal(hi));
    DecimalRoundTrip(lo);
    DecimalRoundTrip(hi);
  }

  lemma NoComma(r: Span)
    ensures ',' !in PrintSpan(r) && PrintSpan(r) != ""
  {
    DecimalDigits(r.lo);
    DecimalDigits(r.hi);
  }

  lemma SpanRoundTrip(r: Span)
    ensures ParseItem(PrintSpan(r)) == Some(Interval(r.lo, r.hi))
    ensures ',' !in PrintSpan(r) && PrintSpan(r) != ""
  {
    NoComma(r);
    if r.lo == r.hi {
      NumberRoundTrip(r.lo);
    } else {
      RangeRoundTrip(r.lo, r.hi);
    }
  }

  // ------------------------------------------------------------------- lists

  function Items(rs: seq<Span>): (items: seq<string>)
    ensures |items| == |rs|
  {
    if rs == [] then [] else Items(rs[..|rs| - 1]) + [PrintSpan(rs[|rs| - 1])]
  }

  lemma SinglePrint(r: Span)
    ensures Print([r]) == PrintSpan(r) && Items([r]) == [PrintSpan(r)]
  {
    assert [r][..0] == [];
  }

  lemma LongerPrint(rs: seq<Span>)
    requires |rs| > 1
    ensures var k := |rs| - 1; Print(rs) == Print(rs[..k]) + [','] + PrintSpan(rs[k])
  {
  }

  /** The fields of a printed list are its ranges. */
  lemma {:induction false} FieldsOfPrint(rs: seq<Span>)
    requires rs != []
    ensures Print(rs) != "" && Split(Print(rs), ',') == Items(rs)
  {
    var k := |rs| - 1;
    NoComma(rs[k]);
    if k == 0 {
      assert rs == [rs[0]];
      SinglePrint(rs[0]);
      SplitItem(Print(rs), ',');
    } else {
      FieldsOfPrint(rs[..k]);
      LongerPrint(rs);
      SplitField(Print(rs[..k]), ',', PrintSpan(rs[k]));
    }
  }

  lemma {:induction false} ItemsRoundTrip(rs: seq<Span>)
    requires Gapped(rs)
    ensures ParseItems(Items(rs)) == Some(Union(rs))
  {
    if rs != [] {
      var k := |rs| - 1;
      ItemsRoundTrip(rs[..k]);
      SpanRoundTrip(rs[k]);
      assert Items(rs)[..k] == Items(rs[..k]);
    }
  }

  /** Decoding what was printed gives back exactly the bits. */
  lemma PrintRoundTrip(s: string, bits: set<int>)
    requires PrintsAs(s, bits)
    ensures Decode(s) == Some(bits)
  {
    var rs :| RangesOf(rs, bits) && s == Print(rs);
    if rs != [] {
      FieldsOfPrint(rs);
      ItemsRoundTrip(rs);
    }
  }

  /** Two results of String are equal exactly when the bitmaps hold the same bits, whatever
      their lengths. */
  lemma PrintedAlikeIffEqual(s: string, a: set<int>, t: string, b: set<int>)
    requires PrintsAs(s, a) && PrintsAs(t, b)
    ensures s == t <==> a == b
  {
    PrintRoundTrip(s, a);
    PrintRoundTrip(t, b);
    if a == b {
      var p :| RangesOf(p, a) && s == Print(p);
      var q :| RangesOf(q, b) && t == Print(q);
      RangesUnique(p, q, a);
    }
  }

  lemma PrintTwo(a: Span, b: Span)
    ensures Print([a, b]) == PrintSpan(a) + "," + PrintSpan(b)
    ensures Union([a, b]) == Interval(a.lo, a.hi) + Interval(b.lo, b.hi)
  {
    assert [] + [a] == [a] && [a] + [b] == [a, b];
    SinglePrint(a);
    PrintSnoc([a], b);
    UnionSnoc([], a);
    UnionSnoc([a], b);
  }

  /** A range and a number behind it, as text. */
  lemma RangeAndNumber(s: string, lo: nat, hi: nat, n: nat)
    requires lo < hi && hi + 1 < n && PrintsAs(s, Interval(lo, hi) + Interval(n, n))
    ensures s == Decimal(lo) + "-" + Decimal(hi) + "," + Decimal(n)
  {
    var a, b, bits := Span(lo, hi), Span(n, n), Interval(lo, hi) + Interval(n, n);
    var rs :| RangesOf(rs, bits) && s == Print(rs);
    PrintTwo(a, b);
    RangesUnique(rs, [a, b], bits);
  }

  lemma DecimalInput()
    ensures Decimal(0) == "0" && Decimal(7) == "7" && Decimal(20) == "20"
  {
    assert Decimal(2) == "2" && Digit(0) == '0';
    assert Decimal(20) == Decimal(2) + "0" == "20";
  }
}
