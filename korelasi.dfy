/** pages/5_Korelasi.py: the guards in front of the correlation analysis, the
    scatter insight for two chosen columns and its own skew note. The scan and
    the `seen` pass over the matrix are the ones of `Correlation`. */
module Korelasi {
  import opened Wrappers
  import opened Frames
  import opened Numbers
  import opened Correlation
  import Overview

  // ---------------------------------------------------------------------------
  // The numeric columns and the guards
  // ---------------------------------------------------------------------------

  /** `select_dtypes(include=[np.number])`: the positions from `j` on of the
      numeric columns, in frame order. */
  function NumericPositions(df: Frame, j: nat): (r: seq<nat>)
    requires WellFormed(df) && j <= |df.cols|
    ensures forall k :: 0 <= k < |r| ==> j <= r[k] < |df.cols| && df.kinds[r[k]] == Number
    ensures forall p :: j <= p < |df.cols| && df.kinds[p] == Number ==> p in r
    ensures forall a, b :: 0 <= a < b < |r| ==> r[a] < r[b]
    decreases |df.cols| - j
  {
    if j == |df.cols| then []
    else if df.kinds[j] == Number then [j] + NumericPositions(df, j + 1)
    else NumericPositions(df, j + 1)
  }

  /** The numeric columns depend on the dtypes alone, so filtering rows never
      changes them. */
  lemma {:induction false} NumericPositionsOfKinds(a: Frame, b: Frame, j: nat)
    requires WellFormed(a) && WellFormed(b) && a.kinds == b.kinds && j <= |a.cols|
    ensures NumericPositions(a, j) == NumericPositions(b, j)
    decreases |a.cols| - j
  {
    if j < |a.cols| {
      NumericPositionsOfKinds(a, b, j + 1);
    }
  }

  lemma NumericNamesAfterFilter(df: Frame, m: seq<bool>)
    requires WellFormed(df) && |m| == |df.index|
    ensures NumericNames(Where(df, m)) == NumericNames(df)
  {
    NumericPositionsOfKinds(Where(df, m), df, 0);
  }

  /** The labels of `num_df`. */
  function NumericNames(df: Frame): (ns: seq<string>)
    requires WellFormed(df)
    ensures |ns| == |NumericPositions(df, 0)|
    ensures forall k :: 0 <= k < |ns| ==> ns[k] == df.names[NumericPositions(df, 0)[k]]
  {
    var ps := NumericPositions(df, 0);
    seq(|ps|, k requires 0 <= k < |ps| => df.names[ps[k]])
  }

  /** What the correlation section shows: the "no data" warning, the "not
      enough numeric columns" note, or the insight lines. */
  datatype Section = NoData | TooFewColumns | Insight(lines: seq<Line>)

  /** Lines 17-52: an empty filtered frame stops the page, fewer than two
      numeric columns stop the analysis, and otherwise the matrix of the numeric
      columns is scanned and each strong pair written once. */
  method CorrelationSection(df: Frame, m: Matrix) returns (s: Section)
    requires WellFormed(df)
    requires m.names == NumericNames(df) && Square(m) && DistinctNames(m.names)
    ensures s == NoData <==> Empty(df)
    ensures s == TooFewColumns <==> !Empty(df) && |NumericNames(df)| < 2
    ensures s.Insight? ==>
      s.lines == Keep(Lines(StrongPairs(m, false)), FirstMet(StrongPairs(m, false)))
  {
    if df.Height() == 0 || |df.names| == 0 {
      return NoData;
    }
    var names := NumericNames(df);
    if |names| < 2 {
      return TooFewColumns;
    }
    var lines := StrongInsight(m);
    s := Insight(lines);
  }

  /** With at least two numeric columns the analysis runs, and every written
      line is a strong pair of two different numeric columns. */
  lemma SectionLines(df: Frame, m: Matrix, l: Line)
    requires WellFormed(df) && !Empty(df) && |NumericNames(df)| >= 2
    requires m.names == NumericNames(df) && Square(m)
    requires l in Keep(Lines(StrongPairs(m, false)), FirstMet(StrongPairs(m, false)))
    ensures l.a != l.b && l.a in NumericNames(df) && l.b in NumericNames(df)
    ensures Abs(l.r) >= 0.5 && (l.arah == Positif <==> l.r > 0.0)
  {
    WrittenAreCandidates(m, l);
  }

  // ---------------------------------------------------------------------------
  // The scatter insight
  // ---------------------------------------------------------------------------

  /** The direction of a coefficient that may be NaN: NaN > 0 is false. */
  function ArahOf(v: Option<real>): (d: Direction)
    ensures d == Positif <==> v.Some? && v.value > 0.0
  {
    if v.Some? then Arah(v.value) else Negatif
  }

  /** `corr.loc[x, y]`. */
  function Entry(m: Matrix, x: string, y: string): Option<real>
    requires Square(m) && x in m.names && y in m.names
  {
    m.r[IndexOf(m.names, x).value][IndexOf(m.names, y).value]
  }

  datatype ScatterNote = ScatterNote(x: string, y: string, r: Option<real>, arah: Direction)

  /** Lines 61-70: the note is written only for two chosen labels that are both
      non-empty (truthy) and different. */
  function Scatter(m: Matrix, x: string, y: string): (n: Option<ScatterNote>)
    requires Square(m) && x in m.names && y in m.names
    ensures n.Some? <==> x != "" && y != "" && x != y
    ensures n.Some? ==> n.value.x == x && n.value.y == y && n.value.r == Entry(m, x, y)
    ensures n.Some? ==> (n.value.arah == Positif <==> Entry(m, x, y).Some? && Entry(m, x, y).value > 0.0)
  {
    if x != "" && y != "" && x != y then
      Some(ScatterNote(x, y, Entry(m, x, y), ArahOf(Entry(m, x, y))))
    else None
  }

  lemma IndexOfDistinct(names: seq<string>, i: nat)
    requires DistinctNames(names) && i < |names|
    ensures IndexOf(names, names[i]) == Some(i)
  {
  }

  /** The scatter note agrees with the pair list: for two different labels with
      a strong coefficient it reports the same coefficient and direction as the
      line of that pair, which is a candidate of the scan. */
  lemma ScatterMatchesList(m: Matrix, i: nat, j: nat)
    requires Square(m) && DistinctNames(m.names)
    requires i < |m.names| && j < |m.names| && i != j
    requires m.names[i] != "" && m.names[j] != ""
    requires Strong(m.r[i][j], false)
    ensures var p := Pair(m.names[i], m.names[j], m.r[i][j].value);
      p in StrongPairs(m, false) &&
      Scatter(m, m.names[i], m.names[j]) == Some(ScatterNote(p.a, p.b, Some(p.r), LineOf(p).arah))
  {
    var p := Pair(m.names[i], m.names[j], m.r[i][j].value);
    assert CandidateAt(m, false, p, i, j);
    StrongPairsMembers(m, false, p);
    IndexOfDistinct(m.names, i);
    IndexOfDistinct(m.names, j);
  }

  /** With unique labels the default choice (the first two numeric columns)
      produces the note unless one of the labels is empty. */
  lemma DefaultScatter(m: Matrix)
    requires Square(m) && DistinctNames(m.names) && |m.names| >= 2
    requires m.names[0] != "" && m.names[1] != ""
    ensures Scatter(m, m.names[0], m.names[1]).Some?
  {
    assert m.names[0] != m.names[1];
  }

  // ---------------------------------------------------------------------------
  // The skew note
  // ---------------------------------------------------------------------------

  /** Lines 83-88: `abs(mean - median) / (median + 1e-9) > 0.2` on the raw
      statistics, with no guard against a zero denominator. */
  predicate KorelasiSkew(mean: real, median: real)
    ensures KorelasiSkew(mean, median) ==> mean != median
  {
    NumpyRatioAbove(Abs(mean - median), median + Epsilon, 0.2)
  }

  /** Without division: above a denominator `median + 1e-9 > 0` the note fires
      iff the gap exceeds a fifth of it; below zero never; at zero iff the mean
      and the median differ. */
  lemma KorelasiSkewSpec(mean: real, median: real)
    ensures median + Epsilon > 0.0 ==>
      (KorelasiSkew(mean, median) <==> 5.0 * Abs(mean - median) > median + Epsilon)
    ensures median + Epsilon < 0.0 ==> !KorelasiSkew(mean, median)
    ensures median + Epsilon == 0.0 ==> (KorelasiSkew(mean, median) <==> mean != median)
  {
    NumpyRatioAboveSpec(Abs(mean - median), median + Epsilon, 0.2);
  }

  /** A zero median is not excluded: the note fires as soon as five times the
      mean is more than `1e-9` away from zero. */
  lemma ZeroMedianFires(mean: real)
    ensures KorelasiSkew(mean, 0.0) <==> 5.0 * Abs(mean) > Epsilon
  {
    KorelasiSkewSpec(mean, 0.0);
  }

  /** Where the home page stays silent the page warns: mean 1 and median 0. */
  lemma UnguardedAgainstApp()
    ensures KorelasiSkew(1.0, 0.0)
    ensures !Overview.AppSkew(Gaji, 1.0, 0.0)
  {
    ZeroMedianFires(1.0);
    Overview.NotIpk(Gaji);
    RoundHalfEvenUnique(0.0, 0);
  }
}
