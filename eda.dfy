/** pages/6_EDA.py: the IQR outlier rule over linearly interpolated quartiles,
    the skew note without any guard, the dominance warning that needs more
    than five categories, and the strict correlation list that keeps both
    orientations of a pair. */
module Eda {
  import opened Wrappers
  import opened Frames
  import opened Numbers
  import opened Counts
  import opened Correlation
  import Korelasi

  // ---------------------------------------------------------------------------
  // Sorting the values of a column
  // ---------------------------------------------------------------------------

  predicate Sorted(s: seq<real>) {
    forall a, b :: 0 <= a < b < |s| ==> s[a] <= s[b]
  }

  /** `x` put in front of the first element not below it. */
  function Insert(x: real, s: seq<real>): (r: seq<real>)
    requires Sorted(s)
    ensures |r| == |s| + 1
    ensures Sorted(r) && multiset(r) == multiset(s) + multiset{x}
  {
    if s == [] then [x]
    else if x <= s[0] then ConsSorted(x, s); [x] + s
    else
      var t := Insert(x, s[1..]);
      AboveFirst(s, x, t);
      ConsSorted(s[0], t);
      assert s == [s[0]] + s[1..];
      [s[0]] + t
  }

  /** A sorted sequence stays sorted behind an element not above its head. */
  lemma ConsSorted(a: real, t: seq<real>)
    requires Sorted(t) && (t != [] ==> a <= t[0])
    ensures Sorted([a] + t)
  {
    var r := [a] + t;
    forall i, j | 0 <= i < j < |r|
      ensures r[i] <= r[j]
    {
      if i > 0 {
        assert r[i] == t[i - 1] && r[j] == t[j - 1];
      } else {
        assert r[j] == t[j - 1] && t[0] <= t[j - 1];
      }
    }
  }

  /** What is inserted into the tail of `s` stays above its first element. */
  lemma AboveFirst(s: seq<real>, x: real, t: seq<real>)
    requires Sorted(s) && s != [] && s[0] <= x
    requires multiset(t) == multiset(s[1..]) + multiset{x}
    ensures forall k :: 0 <= k < |t| ==> s[0] <= t[k]
  {
    forall k | 0 <= k < |t|
      ensures s[0] <= t[k]
    {
      assert t[k] in multiset(t);
      if t[k] != x {
        assert t[k] in multiset(s[1..]);
        var b :| 0 <= b < |s[1..]| && s[1..][b] == t[k];
        assert s[b + 1] == t[k];
      }
    }
  }

  /** The values in ascending order, as `quantile` takes them. */
  function Sort(s: seq<real>): (r: seq<real>)
    ensures |r| == |s|
    ensures Sorted(r) && multiset(r) == multiset(s)
  {
    if s == [] then []
    else
      assert s == s[..|s| - 1] + [s[|s| - 1]];
      Insert(s[|s| - 1], Sort(s[..|s| - 1]))
  }

  lemma {:induction false} InsertLast(x: real, s: seq<real>)
    requires Sorted(s) && forall k :: 0 <= k < |s| ==> s[k] <= x
    ensures Insert(x, s) == s + [x]
    decreases |s|
  {
    if s == [] {
    } else if x <= s[0] {
      assert x == s[0];
      assert [x] + s == s + [x] by {
        forall k | 0 <= k < |s| ensures s[k] == x {
          assert s[0] <= s[k];
        }
      }
    } else {
      var t := s[1..];
      assert Sorted(t) && forall k :: 0 <= k < |t| ==> t[k] <= x;
      InsertLast(x, t);
      assert Insert(x, s) == [s[0]] + Insert(x, t);
      assert s == [s[0]] + t;
    }
  }

  /** Sorting a sorted sequence changes nothing. */
  lemma {:induction false} SortedFixed(s: seq<real>)
    requires Sorted(s)
    ensures Sort(s) == s
  {
    if s != [] {
      var init := s[..|s| - 1];
      SortedFixed(init);
      InsertLast(s[|s| - 1], init);
      assert init + [s[|s| - 1]] == s;
    }
  }

  // ---------------------------------------------------------------------------
  // Quantiles
  // ---------------------------------------------------------------------------

  /** The non-missing numbers of a column, in row order. */
  function Present(col: seq<Cell>): (v: seq<real>)
    ensures |v| <= |col|
    ensures forall x :: x in v <==> Num(x) in col
  {
    if col == [] then []
    else
      var v := Present(col[..|col| - 1]);
      assert col == col[..|col| - 1] + [col[|col| - 1]];
      if col[|col| - 1].Num? then v + [col[|col| - 1].x] else v
  }

  /** `quantile` sees each number as often as the column holds it. */
  lemma {:induction false} PresentCounts(col: seq<Cell>)
    ensures forall x :: multiset(Present(col))[x] == Count(col, Num(x))
  {
    if col != [] {
      var n := |col| - 1;
      PresentCounts(col[..n]);
    }
  }

  /** Position `(n - 1) * q` of a sorted sequence of length `n`, for
      `q = num / den`, falls on an index of the sequence. */
  lemma PositionInRange(n: nat, num: nat, den: nat)
    requires 0 < n && 0 < den && num <= den
    ensures (n - 1) * num / den < n
  {
  }

  /** numpy's position `(n - 1) * q` for `q = num / den`, as its whole part and
      the remainder over `den`: a valid index and a fraction below one. */
  function Position(n: nat, num: nat, den: nat): (p: (nat, nat))
    requires 0 < n && 0 < den && num <= den
    ensures p.0 < n && p.1 < den
    ensures p.0 * den + p.1 == (n - 1) * num
  {
    PositionInRange(n, num, den);
    ((n - 1) * num / den, (n - 1) * num % den)
  }

  /** A larger `q` gives a later position. */
  lemma PositionMonotone(n: nat, a: nat, b: nat, den: nat)
    requires 0 < n && 0 < den && a <= b <= den
    ensures Position(n, a, den).0 <= Position(n, b, den).0
    ensures Position(n, a, den).0 == Position(n, b, den).0 ==> Position(n, a, den).1 <= Position(n, b, den).1
  {
    var pa: nat, pb: nat := (n - 1) * a, (n - 1) * b;
    MulMonotone(n - 1, a, b);
    DivMonotone(pa, pb, den);
  }

  /** The point a fraction `rem / den` of the way from `a` to `b`. */
  function Lerp(a: real, b: real, rem: nat, den: nat): (r: real)
    requires rem < den
    ensures a <= b ==> a <= r <= b
  {
    FractionBetween(rem, den, b - a);
    a + (rem as real / den as real) * (b - a)
  }

  lemma FractionBetween(rem: nat, den: nat, d: real)
    requires rem < den
    ensures d >= 0.0 ==> 0.0 <= (rem as real / den as real) * d <= d
  {
    var f := rem as real / den as real;
    QuotientAbove(rem as real, den as real, 1.0);
    assert 0.0 <= f < 1.0;
    if d >= 0.0 {
      assert f * d <= d by {
        assert (1.0 - f) * d >= 0.0;
      }
    }
  }

  /** The linear interpolation between `s[lo]` and the next element, a fraction
      `rem / den` of the way; at the last element, that element. */
  function Interpolate(s: seq<real>, lo: nat, rem: nat, den: nat): (r: real)
    requires Sorted(s) && lo < |s| && rem < den
    ensures s[0] <= s[lo] <= r <= s[|s| - 1]
    ensures lo + 1 < |s| ==> r <= s[lo + 1]
  {
    assert s[0] <= s[lo] <= s[|s| - 1];
    if lo + 1 < |s| then
      assert s[lo] <= s[lo + 1] <= s[|s| - 1];
      Lerp(s[lo], s[lo + 1], rem, den)
    else s[lo]
  }

  /** `quantile(q)` for `q = num / den` in `[0, 1]`: numpy's linear
      interpolation over the sorted non-missing values; NaN (`None`) when
      there is none. The result lies between the smallest and the largest value. */
  function Quantile(v: seq<real>, num: nat, den: nat): (r: Option<real>)
    requires 0 < den && num <= den
    ensures r.None? <==> v == []
    ensures r.Some? ==> Sort(v)[0] <= r.value <= Sort(v)[|v| - 1]
  {
    if v == [] then None
    else
      var p := Position(|v|, num, den);
      Some(Interpolate(Sort(v), p.0, p.1, den))
  }

  /** Integer division and remainder grow with the dividend. */
  lemma DivMonotone(p: nat, q: nat, den: nat)
    requires p <= q && 0 < den
    ensures 0 <= p / den <= q / den
    ensures p / den == q / den ==> p % den <= q % den
  {
    var a, b := p / den, q / den;
    if a > b {
      MulAtLeast(a - b, den);
      assert false;
    }
  }

  lemma LerpMonotone(a: real, b: real, ra: nat, rb: nat, den: nat)
    requires a <= b && ra <= rb < den
    ensures Lerp(a, b, ra, den) <= Lerp(a, b, rb, den)
  {
    var fa, fb := ra as real / den as real, rb as real / den as real;
    assert fa <= fb;
    assert (fb - fa) * (b - a) >= 0.0;
  }

  /** Interpolating further along a sorted sequence never gives less. */
  lemma InterpolateMonotone(s: seq<real>, loa: nat, ra: nat, lob: nat, rb: nat, den: nat)
    requires Sorted(s) && loa <= lob < |s| && ra < den && rb < den
    requires loa == lob ==> ra <= rb
    ensures Interpolate(s, loa, ra, den) <= Interpolate(s, lob, rb, den)
  {
    if loa < lob {
      assert s[loa + 1] <= s[lob];
    } else if loa + 1 < |s| {
      LerpMonotone(s[loa], s[loa + 1], ra, rb, den);
    }
  }

  lemma MulMonotone(k: nat, a: nat, b: nat)
    requires a <= b
    ensures k * a <= k * b
  {
    assert k * b == k * a + k * (b - a);
  }

  /** A larger `q` never gives a smaller quantile; in particular Q1 <= Q3. */
  lemma QuantileMonotone(v: seq<real>, a: nat, b: nat, den: nat)
    requires v != [] && 0 < den && a <= b <= den
    ensures Quantile(v, a, den).value <= Quantile(v, b, den).value
  {
    var pa, pb := Position(|v|, a, den), Position(|v|, b, den);
    PositionMonotone(|v|, a, b, den);
    InterpolateMonotone(Sort(v), pa.0, pa.1, pb.0, pb.1, den);
  }

  // ---------------------------------------------------------------------------
  // Outliers
  // ---------------------------------------------------------------------------

  /** The quartiles and the fences `Q1 - 1.5 * IQR` and `Q3 + 1.5 * IQR`. */
  datatype Fences = Fences(q1: real, q3: real, lower: real, upper: real)

  /** Lines 101-105 on the chosen column; `None` when it holds no number, where
      both quartiles are NaN. The fences enclose the quartiles. */
  function FencesOf(col: seq<Cell>): (f: Option<Fences>)
    ensures f.None? <==> Present(col) == []
    ensures f.Some? ==>
      f.value.q1 == Quantile(Present(col), 1, 4).value &&
      f.value.q3 == Quantile(Present(col), 3, 4).value
    ensures f.Some? ==>
      f.value.lower == f.value.q1 - 1.5 * (f.value.q3 - f.value.q1) &&
      f.value.upper == f.value.q3 + 1.5 * (f.value.q3 - f.value.q1)
    ensures f.Some? ==> f.value.lower <= f.value.q1 <= f.value.q3 <= f.value.upper
  {
    var v := Present(col);
    if v == [] then None
    else
      var q1 := Quantile(v, 1, 4).value;
      var q3 := Quantile(v, 3, 4).value;
      QuantileMonotone(v, 1, 3, 4);
      Some(Fences(q1, q3, q1 - 1.5 * (q3 - q1), q3 + 1.5 * (q3 - q1)))
  }

  /** Line 106: strictly below the lower fence or strictly above the upper one;
      a missing cell, or a column without fences (NaN), compares false. */
  predicate IsOutlier(c: Cell, f: Option<Fences>) {
    f.Some? && c.Num? && (c.x < f.value.lower || c.x > f.value.upper)
  }

  function OutlierMask(col: seq<Cell>): (m: seq<bool>)
    ensures |m| == |col| && forall i :: 0 <= i < |col| ==> (m[i] <==> IsOutlier(col[i], FencesOf(col)))
  {
    var f := FencesOf(col);
    seq(|col|, i requires 0 <= i < |col| => IsOutlier(col[i], f))
  }

  /** `df_filtered[(col < lower) | (col > upper)]` for the chosen label. */
  function Outliers(df: Frame, name: string): (o: Frame)
    requires WellFormed(df) && name in df.names
    ensures WellFormed(o) && o.names == df.names && o.kinds == df.kinds && o.Height() <= df.Height()
  {
    Where(df, OutlierMask(ColumnOf(df, name).value))
  }

  /** The outliers are rows of the filtered frame, kept in order with all their
      columns; their number is the number of outlying cells, so never more than
      the rows; and every value of the chosen column among them lies strictly
      outside the fences. */
  lemma OutliersSpec(df: Frame, name: string)
    requires WellFormed(df) && name in df.names
    ensures var col := ColumnOf(df, name).value;
      var o := Outliers(df, name);
      o.names == df.names && o.index == Keep(df.index, OutlierMask(col)) &&
      o.Height() == Trues(OutlierMask(col)) && o.Height() <= df.Height() &&
      (FencesOf(col).Some? ==>
        forall c :: c in ColumnOf(o, name).value ==>
          c.Num? && (c.x < FencesOf(col).value.lower || c.x > FencesOf(col).value.upper))
  {
    var col := ColumnOf(df, name).value;
    var m := OutlierMask(col);
    var o := Outliers(df, name);
    KeepTrues(df.index, m);
    var j := IndexOf(df.names, name).value;
    assert ColumnOf(o, name).value == Keep(col, m);
    if FencesOf(col).Some? {
      forall c | c in ColumnOf(o, name).value
        ensures c.Num? && (c.x < FencesOf(col).value.lower || c.x > FencesOf(col).value.upper)
      {
        KeepMember(col, m, c);
      }
    }
  }

  /** A value on a fence, or between the quartiles, is never an outlier; a
      column without numbers has none. */
  lemma FencesNotOutliers(col: seq<Cell>, x: real)
    requires FencesOf(col).Some?
    requires var f := FencesOf(col).value; x == f.lower || x == f.upper || f.q1 <= x <= f.q3
    ensures !IsOutlier(Num(x), FencesOf(col))
  {
  }

  lemma NoNumbersNoOutliers(col: seq<Cell>)
    requires forall k :: 0 <= k < |col| ==> !col[k].Num?
    ensures Trues(OutlierMask(col)) == 0
  {
    NoNumbersPresent(col);
    var m := OutlierMask(col);
    assert forall i :: 0 <= i < |m| ==> !m[i];
    NoTrues(m);
  }

  lemma {:induction false} NoNumbersPresent(col: seq<Cell>)
    requires forall k :: 0 <= k < |col| ==> !col[k].Num?
    ensures Present(col) == []
  {
    if col != [] {
      NoNumbersPresent(col[..|col| - 1]);
    }
  }

  lemma {:induction false} NoTrues(m: seq<bool>)
    requires forall i :: 0 <= i < |m| ==> !m[i]
    ensures Trues(m) == 0
  {
    if m != [] {
      NoTrues(m[..|m| - 1]);
    }
  }

  /** The six cells of the example column. */
  predicate IsExample(col: seq<Cell>) {
    |col| == 6 && col[0] == Num(1.0) && col[1] == Num(2.0) && col[2] == Num(3.0) &&
    col[3] == Num(4.0) && col[4] == Num(5.0) && col[5] == Num(100.0)
  }

  /** The values 1, 2, 3, 4, 5, 100: Q1 = 2.25, Q3 = 4.75, the fences are -1.5
      and 8.5, and only 100 (the last row) is an outlier. */
  lemma WorkedExample(col: seq<Cell>)
    requires IsExample(col)
    ensures FencesOf(col) == Some(Fences(2.25, 4.75, -1.5, 8.5))
    ensures forall i :: 0 <= i < 6 ==> (OutlierMask(col)[i] <==> i == 5)
    ensures Trues(OutlierMask(col)) == 1
  {
    ExampleFences(col);
    ExampleMask(col, OutlierMask(col));
  }

  lemma ExampleMask(col: seq<Cell>, m: seq<bool>)
    requires IsExample(col) && |m| == 6
    requires forall i :: 0 <= i < 6 ==> (m[i] <==> IsOutlier(col[i], Some(Fences(2.25, 4.75, -1.5, 8.5))))
    ensures forall i :: 0 <= i < 6 ==> (m[i] <==> i == 5)
    ensures Trues(m) == 1
  {
    NoTrues(m[..5]);
  }

  lemma ExampleFences(col: seq<Cell>)
    requires IsExample(col)
    ensures FencesOf(col) == Some(Fences(2.25, 4.75, -1.5, 8.5))
  {
    var v := ExampleValues(col);
    ExampleQuartile(v, 1, 1, 1, 2.25);
    ExampleQuartile(v, 3, 3, 3, 4.75);
    FencesFrom(col, 2.25, 4.75);
  }

  /** The fences follow from the two quartiles alone. */
  lemma FencesFrom(col: seq<Cell>, q1: real, q3: real)
    requires Present(col) != []
    requires Quantile(Present(col), 1, 4) == Some(q1) && Quantile(Present(col), 3, 4) == Some(q3)
    ensures FencesOf(col) == Some(Fences(q1, q3, q1 - 1.5 * (q3 - q1), q3 + 1.5 * (q3 - q1)))
  {
    var f := FencesOf(col).value;
    assert f.q1 == q1 && f.q3 == q3;
    assert f == Fences(q1, q3, q1 - 1.5 * (q3 - q1), q3 + 1.5 * (q3 - q1));
  }

  lemma ExampleQuartile(v: seq<real>, num: nat, lo: nat, rem: nat, q: real)
    requires |v| == 6 && Sort(v) == v && num <= 4
    requires 5 * num == lo * 4 + rem && rem < 4 && lo + 1 < 6
    requires q == Lerp(v[lo], v[lo + 1], rem, 4)
    ensures Quantile(v, num, 4) == Some(q)
  {
    var p := Position(6, num, 4);
    assert p.0 == lo && p.1 == rem;
    assert Quantile(v, num, 4) == Some(Interpolate(v, lo, rem, 4));
  }

  lemma ExampleValues(col: seq<Cell>) returns (v: seq<real>)
    requires IsExample(col)
    ensures v == Present(col) && Sort(v) == v && |v| == 6
    ensures v[0] == 1.0 && v[1] == 2.0 && v[2] == 3.0 && v[3] == 4.0 && v[4] == 5.0 && v[5] == 100.0
  {
    AllPresent(col);
    v := Present(col);
    ExampleSorted(v);
    SortedFixed(v);
  }

  lemma ExampleSorted(v: seq<real>)
    requires |v| == 6
    requires v[0] == 1.0 && v[1] == 2.0 && v[2] == 3.0 && v[3] == 4.0 && v[4] == 5.0 && v[5] == 100.0
    ensures Sorted(v)
  {
  }

  /** A column without missing cells gives all its numbers, in order. */
  lemma {:induction false} AllPresent(col: seq<Cell>)
    requires forall k :: 0 <= k < |col| ==> col[k].Num?
    ensures |Present(col)| == |col| && forall k :: 0 <= k < |col| ==> Present(col)[k] == col[k].x
  {
    if col != [] {
      AllPresent(col[..|col| - 1]);
    }
  }

  // ---------------------------------------------------------------------------
  // The skew note
  // ---------------------------------------------------------------------------

  /** Lines 83-88: `abs(mean - median) / median > 0.2`, with no guard and no
      `1e-9`. */
  predicate EdaSkew(mean: real, median: real)
    ensures EdaSkew(mean, median) ==> mean != median
  {
    NumpyRatioAbove(Abs(mean - median), median, 0.2)
  }

  /** Without division: a positive median fires iff the gap exceeds a fifth of
      it, a negative median never fires, and a zero median fires iff the mean is
      not zero (the quotient is `inf`). */
  lemma EdaSkewSpec(mean: real, median: real)
    ensures median > 0.0 ==> (EdaSkew(mean, median) <==> 5.0 * Abs(mean - median) > median)
    ensures median < 0.0 ==> !EdaSkew(mean, median)
    ensures median == 0.0 ==> (EdaSkew(mean, median) <==> mean != 0.0)
  {
    NumpyRatioAboveSpec(Abs(mean - median), median, 0.2);
  }

  /** The two pages disagree on a tiny mean over a zero median. */
  lemma TinyMeanDisagrees()
    ensures EdaSkew(0.0000000001, 0.0)
    ensures !Korelasi.KorelasiSkew(0.0000000001, 0.0)
  {
    EdaSkewSpec(0.0000000001, 0.0);
    Korelasi.ZeroMedianFires(0.0000000001);
  }

  // ---------------------------------------------------------------------------
  // The categorical insight
  // ---------------------------------------------------------------------------

  /** The first row of `value_counts`, its count, and whether the warning fires. */
  datatype TopLine = TopLine(top: Cell, count: nat, warn: bool)

  /** Lines 92-96 for the chosen `object` column: the first category with its
      count, and the warning iff there are more than five categories and some
      category holds more than 60% of the values. A column with no value left
      after filtering has an empty `freq`, and `freq.iloc[0]` raises
      `IndexError`: that outcome is `None`. */
  function CategoryInsight(col: seq<Cell>): (l: Option<TopLine>)
    ensures l.None? <==> Total(col) == 0
    ensures l.Some? ==> IsTop(col, l.value.top) && l.value.count == Count(col, l.value.top)
    ensures l.Some? ==> (l.value.warn <==> (|Values(col)| > 5 &&
      exists k :: 0 <= k < |col| && !col[k].Null? && 5 * Count(col, col[k]) > 3 * Total(col)))
  {
    match Top(col)
    case None => None
    case Some(t) =>
      TotalZero(col);
      AppDominanceSpec(col);
      Some(TopLine(t, Count(col, t), EdaDominance(col)))
  }

  // ---------------------------------------------------------------------------
  // The strict correlation list
  // ---------------------------------------------------------------------------

  /** Lines 114-120: every ordered pair of different columns with
      `abs(r) > 0.5`, written without any de-duplication. */
  function StrictLines(m: Matrix): (ls: seq<Line>)
    requires Square(m)
    ensures |ls| == |StrongPairs(m, true)|
    ensures forall k :: 0 <= k < |ls| ==> ls[k].a == StrongPairs(m, true)[k].a && ls[k].b == StrongPairs(m, true)[k].b
    ensures forall k :: 0 <= k < |ls| ==>
      ls[k].r == StrongPairs(m, true)[k].r && (ls[k].arah == Positif <==> ls[k].r > 0.0)
  {
    Correlation.Lines(StrongPairs(m, true))
  }

  /** On a symmetric matrix every written pair is written again reversed, with
      the same coefficient and direction; each line pairs two different columns
      with `abs(r) > 0.5` and reads "positif" iff `r > 0`. */
  lemma StrictLinesBothWays(m: Matrix, l: Line)
    requires Square(m) && Symmetric(m) && l in StrictLines(m)
    ensures Line(l.b, l.a, l.r, l.arah) in StrictLines(m)
    ensures l.a != l.b && Abs(l.r) > 0.5 && (l.arah == Positif <==> l.r > 0.0)
  {
    var ps := StrongPairs(m, true);
    var k :| 0 <= k < |ps| && StrictLines(m)[k] == l;
    var x := ps[k];
    EdaListBothWays(m, x);
    var y := Pair(x.b, x.a, x.r);
    var t :| 0 <= t < |ps| && ps[t] == y;
    assert StrictLines(m)[t] == Line(l.b, l.a, l.r, l.arah);
    StrongPairsMembers(m, true, x);
  }
}
