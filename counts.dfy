/** `value_counts` over one column: how often each value occurs (missing values
    left out), the category listed first, and the two dominance warnings built
    on it. */
module Counts {
  import opened Wrappers
  import opened Frames
  import opened Numbers

  /** How many cells of `col` hold `x`. */
  function Count(col: seq<Cell>, x: Cell): (n: nat)
    ensures n <= |col|
  {
    if col == [] then 0
    else Count(col[..|col| - 1], x) + (if col[|col| - 1] == x then 1 else 0)
  }

  /** `value_counts().sum()`: the number of cells that are not missing. */
  function Total(col: seq<Cell>): (n: nat)
    ensures n <= |col|
  {
    if col == [] then 0
    else Total(col[..|col| - 1]) + (if col[|col| - 1].Null? then 0 else 1)
  }

  /** The categories `value_counts` lists: the distinct values that are not missing. */
  function Values(col: seq<Cell>): set<Cell> {
    set k | 0 <= k < |col| && !col[k].Null? :: col[k]
  }

  lemma {:induction false} CountPositive(col: seq<Cell>, x: Cell)
    ensures x in col <==> Count(col, x) > 0
  {
    if col != [] {
      var n := |col| - 1;
      CountPositive(col[..n], x);
      assert col == col[..n] + [col[n]];
    }
  }

  /** Two different categories together never outnumber all the values. */
  lemma {:induction false} CountTwoBound(col: seq<Cell>, x: Cell, y: Cell)
    requires x != y && !x.Null? && !y.Null?
    ensures Count(col, x) + Count(col, y) <= Total(col)
  {
    if col != [] {
      CountTwoBound(col[..|col| - 1], x, y);
    }
  }

  lemma {:induction false} CountBound(col: seq<Cell>, x: Cell)
    requires !x.Null?
    ensures Count(col, x) <= Total(col)
  {
    if col != [] {
      CountBound(col[..|col| - 1], x);
    }
  }

  lemma {:induction false} TotalZero(col: seq<Cell>)
    ensures Total(col) == 0 <==> forall k :: 0 <= k < |col| ==> col[k].Null?
  {
    if col != [] {
      var n := |col| - 1;
      TotalZero(col[..n]);
      assert forall k :: 0 <= k < n ==> col[..n][k] == col[k];
    }
  }

  lemma ValuesLast(col: seq<Cell>)
    requires col != []
    ensures Values(col) == Values(col[..|col| - 1]) + (if col[|col| - 1].Null? then {} else {col[|col| - 1]})
  {
    var n := |col| - 1;
    forall v | v in Values(col)
      ensures v in Values(col[..n]) + (if col[n].Null? then {} else {col[n]})
    {
      var k :| 0 <= k < |col| && !col[k].Null? && col[k] == v;
      if k < n {
        assert col[..n][k] == v;
      }
    }
    forall v | v in Values(col[..n])
      ensures v in Values(col)
    {
      var k :| 0 <= k < n && !col[..n][k].Null? && col[..n][k] == v;
      assert col[k] == v;
    }
  }

  /** Every category other than `x` occurs at least once, so the values number at
      least the count of `x` plus the other categories. */
  lemma {:induction false} TotalCoversCategories(col: seq<Cell>, x: Cell)
    requires !x.Null?
    ensures Total(col) >= Count(col, x) + |Values(col) - {x}|
  {
    if col != [] {
      TotalCoversCategories(col[..|col| - 1], x);
      OthersStep(col, x);
    }
  }

  /** The last cell adds at most one category other than `x`, and none when it is
      missing or `x`. */
  lemma OthersStep(col: seq<Cell>, x: Cell)
    requires col != []
    ensures var n := |col| - 1;
      |Values(col) - {x}| <= |Values(col[..n]) - {x}| + (if !col[n].Null? && col[n] != x then 1 else 0)
  {
    var n := |col| - 1;
    ValuesLast(col);
    var before := Values(col[..n]) - {x};
    if !col[n].Null? && col[n] != x {
      assert Values(col) - {x} <= before + {col[n]};
      assert |before + {col[n]}| <= |before| + 1;
      SubsetCard(Values(col) - {x}, before + {col[n]});
    } else {
      assert Values(col) - {x} == before;
    }
  }

  lemma SubsetCard<T>(a: set<T>, b: set<T>)
    requires a <= b
    ensures |a| <= |b|
  {
    assert b == a + (b - a);
  }

  // ---------------------------------------------------------------------------
  // The first category
  // ---------------------------------------------------------------------------

  /** A value with the largest count: what `value_counts` lists first. */
  predicate IsTop(col: seq<Cell>, x: Cell) {
    !x.Null? && x in col &&
    forall k :: 0 <= k < |col| && !col[k].Null? ==> Count(col, col[k]) <= Count(col, x)
  }

  /** Scans the cells from `i` on, keeping the first value met with the largest
      count so far. */
  function TopFrom(col: seq<Cell>, i: nat, best: Option<Cell>): (r: Option<Cell>)
    requires i <= |col|
    requires best.None? ==> forall k :: 0 <= k < i ==> col[k].Null?
    requires best.Some? ==> !best.value.Null? && best.value in col
    requires best.Some? ==>
      forall k :: 0 <= k < i && !col[k].Null? ==> Count(col, col[k]) <= Count(col, best.value)
    ensures r.None? <==> forall k :: 0 <= k < |col| ==> col[k].Null?
    ensures r.Some? ==> IsTop(col, r.value)
    decreases |col| - i
  {
    if i == |col| then best
    else if col[i].Null? then TopFrom(col, i + 1, best)
    else if best.None? || Count(col, col[i]) > Count(col, best.value) then TopFrom(col, i + 1, Some(col[i]))
    else TopFrom(col, i + 1, best)
  }

  /** `value_counts().index[0]` (also `idxmax()`): `None` when the column holds no
      value, so that the list of counts is empty. */
  function Top(col: seq<Cell>): (r: Option<Cell>)
    ensures r.None? <==> Total(col) == 0
    ensures r.Some? ==> IsTop(col, r.value)
  {
    TotalZero(col);
    TopFrom(col, 0, None)
  }

  /** Every top value has the same count, the largest. */
  lemma TopCountsAgree(col: seq<Cell>, x: Cell, y: Cell)
    requires IsTop(col, x) && IsTop(col, y)
    ensures Count(col, x) == Count(col, y)
  {
    var i :| 0 <= i < |col| && col[i] == x;
    var j :| 0 <= j < |col| && col[j] == y;
  }

  // ---------------------------------------------------------------------------
  // Dominance
  // ---------------------------------------------------------------------------

  /** The share of the first category, `top / freq.sum()`. */
  function TopShare(col: seq<Cell>): (r: real)
    requires Total(col) > 0
    ensures 0.0 < r <= 1.0
  {
    var t := Top(col).value;
    CountPositive(col, t);
    CountBound(col, t);
    RatioBounds(Count(col, t), Total(col));
    Count(col, t) as real / Total(col) as real
  }

  lemma RatioBounds(c: nat, t: nat)
    requires 0 < c <= t
    ensures 0.0 < c as real / t as real <= 1.0
  {
    QuotientAbove(c as real, t as real, 0.0);
    QuotientAbove(c as real, t as real, 1.0);
  }

  /** The 60% test on a ratio of counts, stated without division. */
  lemma RatioAboveSixTenths(c: nat, t: nat)
    requires t > 0
    ensures c as real / t as real > 0.6 <==> 5 * c > 3 * t
  {
    QuotientAbove(c as real, t as real, 0.6);
  }

  /** app.py: for a column whose counts are not empty, whether the first
      category holds more than 60% of the values (`None`: no line is written). */
  function AppDominance(col: seq<Cell>): (d: Option<bool>)
    ensures d.None? <==> Total(col) == 0
    ensures d.Some? ==> (d.value <==> 5 * Count(col, Top(col).value) > 3 * Total(col))
  {
    if Total(col) == 0 then None
    else
      ShareOnCounts(col);
      Some(TopShare(col) > 0.6)
  }

  /** pages/6_EDA.py: the warning needs more than five categories and a first
      category with more than 60% of the values. */
  predicate EdaDominance(col: seq<Cell>)
    ensures EdaDominance(col) <==>
      Total(col) > 0 && |Values(col)| > 5 && 5 * Count(col, Top(col).value) > 3 * Total(col)
  {
    Total(col) > 0 && |Values(col)| > 5 && (ShareOnCounts(col); TopShare(col) > 0.6)
  }

  /** The 60% test on counts: a value `x` holds more than 60% of the values iff
      five times its count exceeds three times the total. */
  lemma ShareOnCounts(col: seq<Cell>)
    requires Total(col) > 0
    ensures TopShare(col) > 0.6 <==> 5 * Count(col, Top(col).value) > 3 * Total(col)
  {
    RatioAboveSixTenths(Count(col, Top(col).value), Total(col));
  }

  /** A value with more than 60% of the values is the only such value, and it is
      the first category: the warning names the dominant category. */
  lemma DominantIsTop(col: seq<Cell>, x: Cell)
    requires !x.Null? && 5 * Count(col, x) > 3 * Total(col)
    ensures Top(col) == Some(x)
    ensures AppDominance(col) == Some(true)
  {
    CountBound(col, x);
    CountPositive(col, x);
    var t := Top(col).value;
    if t != x {
      CountTwoBound(col, x, t);
      assert false;
    }
    ShareOnCounts(col);
  }

  /** The app warns for a column iff some value holds more than 60% of it. */
  lemma AppDominanceSpec(col: seq<Cell>)
    ensures AppDominance(col) == Some(true) <==>
      exists k :: 0 <= k < |col| && !col[k].Null? && 5 * Count(col, col[k]) > 3 * Total(col)
  {
    if AppDominance(col) == Some(true) {
      ShareOnCounts(col);
      var t := Top(col).value;
      var k :| 0 <= k < |col| && col[k] == t;
      assert 5 * Count(col, col[k]) > 3 * Total(col);
    }
    if exists k :: 0 <= k < |col| && !col[k].Null? && 5 * Count(col, col[k]) > 3 * Total(col) {
      var k :| 0 <= k < |col| && !col[k].Null? && 5 * Count(col, col[k]) > 3 * Total(col);
      DominantIsTop(col, col[k]);
    }
  }

  /** The EDA warning implies the app's for the same column, and it cannot fire
      on fewer than 13 values: the five other categories take at least one value
      each, which leaves the first less than 60% of any smaller total. */
  lemma EdaDominanceStricter(col: seq<Cell>)
    requires EdaDominance(col)
    ensures AppDominance(col) == Some(true)
    ensures Total(col) >= 13
  {
    var t := Top(col).value;
    ShareOnCounts(col);
    TotalCoversCategories(col, t);
    CountPositive(col, t);
    var i :| 0 <= i < |col| && col[i] == t;
    assert t in Values(col);
    assert |Values(col) - {t}| == |Values(col)| - 1;
  }

  // ---------------------------------------------------------------------------
  // The app's categorical insight
  // ---------------------------------------------------------------------------

  /** `select_dtypes(include="object")`: the positions of the `object` columns
      from `j` on, in frame order. */
  function TextPositions(df: Frame, j: nat): (r: seq<nat>)
    requires WellFormed(df) && j <= |df.cols|
    ensures forall k :: 0 <= k < |r| ==> j <= r[k] < |df.cols| && df.kinds[r[k]] == Object
    ensures forall p :: j <= p < |df.cols| && df.kinds[p] == Object ==> p in r
    ensures forall a, b :: 0 <= a < b < |r| ==> r[a] < r[b]
    decreases |df.cols| - j
  {
    if j == |df.cols| then []
    else if df.kinds[j] == Object then [j] + TextPositions(df, j + 1)
    else TextPositions(df, j + 1)
  }

  /** One line of the app's categorical insight. */
  datatype CategoryLine = CategoryLine(column: string, top: Cell, count: nat, dominant: bool)

  function LineFor(df: Frame, j: nat): Option<CategoryLine>
    requires WellFormed(df) && j < |df.cols|
  {
    var col := df.cols[j];
    match Top(col)
    case None => None
    case Some(t) => Some(CategoryLine(df.names[j], t, Count(col, t), AppDominance(col) == Some(true)))
  }

  function Lines(df: Frame, ps: seq<nat>): seq<CategoryLine>
    requires WellFormed(df) && forall k :: 0 <= k < |ps| ==> ps[k] < |df.cols|
  {
    if ps == [] then []
    else
      (match LineFor(df, ps[0]) case None => [] case Some(l) => [l]) + Lines(df, ps[1..])
  }

  /** app.py: the first three text columns, each with its first category, its
      count and the 60% warning; a column with no value gives no line. */
  function AppCategorical(df: Frame): (r: seq<CategoryLine>)
    requires WellFormed(df)
    ensures |r| <= 3
    ensures forall l :: l in r ==>
      exists j :: (0 <= j < |df.cols| && df.kinds[j] == Object &&
        l.column == df.names[j] && IsTop(df.cols[j], l.top) && l.count == Count(df.cols[j], l.top))
    ensures var ps := TextPositions(df, 0); var v := Valued(df, ps[..if |ps| < 3 then |ps| else 3]);
      |r| == |v| && forall i :: 0 <= i < |r| ==> LineMeans(df, v[i], r[i])
  {
    var ps := TextPositions(df, 0);
    var chosen := ps[..if |ps| < 3 then |ps| else 3];
    LinesSpec(df, chosen);
    LinesExact(df, chosen);
    Lines(df, chosen)
  }

  /** The columns examined are `object` columns, at most three of them, and an
      `object` column is skipped only when three earlier ones were examined. */
  lemma ExaminedColumns(df: Frame)
    requires WellFormed(df)
    ensures var ps := TextPositions(df, 0);
      var chosen := ps[..if |ps| < 3 then |ps| else 3];
      |chosen| <= 3 &&
      (forall k :: 0 <= k < |chosen| ==> df.kinds[chosen[k]] == Object) &&
      (forall p :: 0 <= p < |df.cols| && df.kinds[p] == Object && p !in chosen ==>
        |chosen| == 3 && forall k :: 0 <= k < 3 ==> chosen[k] < p)
  {
    var ps := TextPositions(df, 0);
    var chosen := ps[..if |ps| < 3 then |ps| else 3];
    forall p | 0 <= p < |df.cols| && df.kinds[p] == Object && p !in chosen
      ensures |chosen| == 3 && forall k :: 0 <= k < 3 ==> chosen[k] < p
    {
      var q :| 0 <= q < |ps| && ps[q] == p;
      assert q >= 3;
    }
  }

  /** The `object` columns depend on the dtypes alone, so filtering rows never
      changes which columns are examined. */
  lemma {:induction false} TextPositionsOfKinds(a: Frame, b: Frame, j: nat)
    requires WellFormed(a) && WellFormed(b) && a.kinds == b.kinds && j <= |a.cols|
    ensures TextPositions(a, j) == TextPositions(b, j)
    decreases |a.cols| - j
  {
    if j < |a.cols| {
      TextPositionsOfKinds(a, b, j + 1);
    }
  }

  lemma ExaminedAfterFilter(df: Frame, m: seq<bool>)
    requires WellFormed(df) && |m| == |df.index|
    ensures TextPositions(Where(df, m), 0) == TextPositions(df, 0)
  {
    TextPositionsOfKinds(Where(df, m), df, 0);
  }

  /** An `object` column left with no value after filtering is still examined,
      and gives no line. */
  lemma NoValueNoLine(name: string)
    ensures var df := Frame([name], [[Null]], [0], [Object]);
      TextPositions(df, 0) == [0] && AppCategorical(df) == []
  {
    var df := Frame([name], [[Null]], [0], [Object]);
    assert WellFormed(df) && |df.cols| == 1 && df.kinds[0] == Object;
    assert TextPositions(df, 1) == [];
    var ps := TextPositions(df, 0);
    assert ps == [0];
    TotalZero([Null]);
    assert LineFor(df, 0).None?;
    assert ps[..1] == [0] && [0][1..] == [];
    assert Lines(df, [0][1..]) == [];
    assert Lines(df, [0]) == [];
  }

  /** Each line names a category with the largest count, reports that count, and
      warns iff the category holds more than 60% of the values. */
  lemma {:induction false} LinesSpec(df: Frame, ps: seq<nat>)
    requires WellFormed(df) && forall k :: 0 <= k < |ps| ==> ps[k] < |df.cols|
    ensures |Lines(df, ps)| <= |ps|
    ensures forall l :: l in Lines(df, ps) ==>
      exists j :: (j in ps && l.column == df.names[j] && IsTop(df.cols[j], l.top) &&
        l.count == Count(df.cols[j], l.top) &&
        (l.dominant <==> 5 * l.count > 3 * Total(df.cols[j])))
  {
    if ps != [] {
      LinesSpec(df, ps[1..]);
      var j := ps[0];
      var col := df.cols[j];
      if Top(col).Some? {
        ShareOnCounts(col);
      }
      forall l | l in Lines(df, ps)
        ensures exists j :: (j in ps && l.column == df.names[j] && IsTop(df.cols[j], l.top) &&
          l.count == Count(df.cols[j], l.top) &&
          (l.dominant <==> 5 * l.count > 3 * Total(df.cols[j])))
      {
        if l !in Lines(df, ps[1..]) {
          assert LineFor(df, j) == Some(l);
          assert j in ps;
        } else {
          var j' :| j' in ps[1..] && l.column == df.names[j'] && IsTop(df.cols[j'], l.top) &&
            l.count == Count(df.cols[j'], l.top) &&
            (l.dominant <==> 5 * l.count > 3 * Total(df.cols[j']));
          assert j' in ps;
        }
      }
    }
  }

  /** What a line says about column `j`: its label, a category with the
      largest count, that count, and the warning iff that count is above 60%
      of the values. */
  predicate LineMeans(df: Frame, j: nat, l: CategoryLine)
    requires WellFormed(df) && j < |df.cols|
  {
    l.column == df.names[j] && IsTop(df.cols[j], l.top) && l.count == Count(df.cols[j], l.top) &&
    (l.dominant <==> 5 * l.count > 3 * Total(df.cols[j]))
  }

  /** The positions of `ps` whose column holds a value (`freq` not empty),
      in the order of `ps`. */
  function Valued(df: Frame, ps: seq<nat>): (v: seq<nat>)
    requires WellFormed(df) && forall k :: 0 <= k < |ps| ==> ps[k] < |df.cols|
    ensures |v| <= |ps|
    ensures forall i :: 0 <= i < |v| ==> v[i] in ps && Total(df.cols[v[i]]) > 0
    ensures forall k :: 0 <= k < |ps| && Total(df.cols[ps[k]]) > 0 ==> ps[k] in v
  {
    if ps == [] then []
    else (if Total(df.cols[ps[0]]) > 0 then [ps[0]] else []) + Valued(df, ps[1..])
  }

  predicate Increasing(s: seq<nat>) {
    forall a, b :: 0 <= a < b < |s| ==> s[a] < s[b]
  }

  /** A bound below every position of `ps` is below every valued one. */
  lemma ValuedAbove(df: Frame, ps: seq<nat>, x: nat)
    requires WellFormed(df) && forall k :: 0 <= k < |ps| ==> ps[k] < |df.cols|
    requires forall k :: 0 <= k < |ps| ==> x < ps[k]
    ensures forall i :: 0 <= i < |Valued(df, ps)| ==> x < Valued(df, ps)[i]
  {
  }

  /** Over increasing positions the valued ones increase too: the lines come
      in column order. */
  lemma {:induction false} ValuedOrdered(df: Frame, ps: seq<nat>)
    requires WellFormed(df) && forall k :: 0 <= k < |ps| ==> ps[k] < |df.cols|
    requires Increasing(ps)
    ensures Increasing(Valued(df, ps))
  {
    if ps != [] {
      var rest := Valued(df, ps[1..]);
      assert Increasing(ps[1..]);
      ValuedOrdered(df, ps[1..]);
      ValuedAbove(df, ps[1..], ps[0]);
      if Total(df.cols[ps[0]]) > 0 {
        IncreasingCons(ps[0], rest);
        assert Valued(df, ps) == [ps[0]] + rest;
      } else {
        assert Valued(df, ps) == rest;
      }
    }
  }

  lemma IncreasingCons(x: nat, s: seq<nat>)
    requires Increasing(s) && forall i :: 0 <= i < |s| ==> x < s[i]
    ensures Increasing([x] + s)
  {
    var v := [x] + s;
    forall a, b | 0 <= a < b < |v|
      ensures v[a] < v[b]
    {
      assert v[b] == s[b - 1];
      if a > 0 {
        assert v[a] == s[a - 1];
      }
    }
  }

  /** The lines are exactly one per column of `ps` that holds a value, in the
      order of `ps`. */
  lemma {:induction false} LinesExact(df: Frame, ps: seq<nat>)
    requires WellFormed(df) && forall k :: 0 <= k < |ps| ==> ps[k] < |df.cols|
    ensures var ls := Lines(df, ps); var v := Valued(df, ps);
      |ls| == |v| &&
      forall i :: 0 <= i < |ls| ==> LineFor(df, v[i]) == Some(ls[i]) && LineMeans(df, v[i], ls[i])
  {
    LinesShape(df, ps);
    var ls := Lines(df, ps);
    var v := Valued(df, ps);
    forall i | 0 <= i < |ls|
      ensures LineMeans(df, v[i], ls[i])
    {
      LineForMeans(df, v[i]);
    }
  }

  /** The lines, position by position, are those of the valued columns. */
  lemma {:induction false} LinesShape(df: Frame, ps: seq<nat>)
    requires WellFormed(df) && forall k :: 0 <= k < |ps| ==> ps[k] < |df.cols|
    ensures var ls := Lines(df, ps); var v := Valued(df, ps);
      |ls| == |v| && forall i :: 0 <= i < |ls| ==> LineFor(df, v[i]) == Some(ls[i])
  {
    if ps != [] {
      LinesShape(df, ps[1..]);
    }
  }

  /** A column's line, when it has one, says what `LineMeans` says. */
  lemma LineForMeans(df: Frame, j: nat)
    requires WellFormed(df) && j < |df.cols|
    ensures LineFor(df, j).Some? ==> LineMeans(df, j, LineFor(df, j).value)
  {
  }

  /** A column of `ps` that holds a value gets its line. */
  lemma LinesComplete(df: Frame, ps: seq<nat>, k: nat)
    requires WellFormed(df) && forall k :: 0 <= k < |ps| ==> ps[k] < |df.cols|
    requires k < |ps| && Total(df.cols[ps[k]]) > 0
    ensures LineFor(df, ps[k]).Some? && LineFor(df, ps[k]).value in Lines(df, ps)
  {
    LinesExact(df, ps);
    var v := Valued(df, ps);
    var i :| 0 <= i < |v| && v[i] == ps[k];
    assert LineFor(df, v[i]) == Some(Lines(df, ps)[i]);
  }

  /** Lines that mean the valued columns of an increasing list, one each,
      cover every listed column that holds a value, in list order. */
  lemma ValuedLinesComplete(df: Frame, chosen: seq<nat>, r: seq<CategoryLine>)
    requires WellFormed(df) && forall k :: 0 <= k < |chosen| ==> chosen[k] < |df.cols|
    requires Increasing(chosen)
    requires var v := Valued(df, chosen);
      |r| == |v| && forall i :: 0 <= i < |r| ==> LineMeans(df, v[i], r[i])
    ensures var v := Valued(df, chosen);
      Increasing(v) &&
      forall k :: 0 <= k < |chosen| && Total(df.cols[chosen[k]]) > 0 ==>
        exists i :: 0 <= i < |r| && v[i] == chosen[k] && LineMeans(df, chosen[k], r[i])
  {
    var v := Valued(df, chosen);
    ValuedOrdered(df, chosen);
    forall k | 0 <= k < |chosen| && Total(df.cols[chosen[k]]) > 0
      ensures exists i :: 0 <= i < |r| && v[i] == chosen[k] && LineMeans(df, chosen[k], r[i])
    {
      var i :| 0 <= i < |v| && v[i] == chosen[k];
      assert LineMeans(df, v[i], r[i]);
    }
  }

  /** app.py lines 161-169: every one of the first three `object` columns that
      holds a value gets its line, and the lines follow the column order. */
  lemma AppCategoricalComplete(df: Frame)
    requires WellFormed(df)
    ensures var ps := TextPositions(df, 0); var chosen := ps[..if |ps| < 3 then |ps| else 3];
      var r := AppCategorical(df); var v := Valued(df, chosen);
      Increasing(v) &&
      forall k :: 0 <= k < |chosen| && Total(df.cols[chosen[k]]) > 0 ==>
        exists i :: 0 <= i < |r| && v[i] == chosen[k] && LineMeans(df, chosen[k], r[i])
  {
    var ps := TextPositions(df, 0);
    var chosen := ps[..if |ps| < 3 then |ps| else 3];
    assert Increasing(chosen);
    ValuedLinesComplete(df, chosen, AppCategorical(df));
  }

  // ---------------------------------------------------------------------------
  // The top province
  // ---------------------------------------------------------------------------

  /** app.py: `value_counts().idxmax()` of the location column and
      `value_counts().max()`. `None` when the column is absent or holds no value
      (the latter would make `idxmax` raise). */
  function TopProvince(df: Frame): (r: Option<(Cell, nat)>)
    requires WellFormed(df)
    ensures r.None? <==> Lokasi !in df.names || Total(ColumnOf(df, Lokasi).value) == 0
    ensures r.Some? ==> var col := ColumnOf(df, Lokasi).value;
      IsTop(col, r.value.0) && r.value.1 == Count(col, r.value.0)
  {
    match ColumnOf(df, Lokasi)
    case None => None
    case Some(col) =>
      match Top(col)
      case None => None
      case Some(t) => Some((t, Count(col, t)))
  }

  /** The reported province has the largest count and the reported count is that
      count. The location column after loading holds only text, so on a frame
      with rows and that column there is always a province to report. */
  lemma TopProvinceSpec(df: Frame)
    requires WellFormed(df)
    ensures TopProvince(df).Some? ==>
      var col := ColumnOf(df, Lokasi).value;
      var (t, n) := TopProvince(df).value;
      IsTop(col, t) && n == Count(col, t) &&
      forall k :: 0 <= k < |col| && !col[k].Null? ==> Count(col, col[k]) <= n
    ensures (Lokasi in df.names && |df.index| > 0 &&
             forall k :: 0 <= k < |df.index| ==> ColumnOf(df, Lokasi).value[k].Str?) ==>
      TopProvince(df).Some?
  {
    if Lokasi in df.names && |df.index| > 0 {
      TotalZero(ColumnOf(df, Lokasi).value);
    }
  }
}
