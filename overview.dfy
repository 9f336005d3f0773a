/** The rules of the home page (app.py): the skew note of the numeric insight,
    and the second normalisation of province names before the map. The
    categorical insight and the top province are in `Counts`, the correlation
    insight in `Correlation`. */
module Overview {
  import opened Text
  import opened Numbers
  import opened Frames
  import opened Loader

  // ---------------------------------------------------------------------------
  // The skew note
  // ---------------------------------------------------------------------------

  /** A column named "ipk" in any case keeps two decimals; every other column
      is rounded to an integer (`int(round(x))`). */
  predicate IsIpk(column: string) {
    Lower(column) == "ipk"
  }

  function Rounded(column: string, x: real): (r: real)
    ensures IsIpk(column) ==> -0.005 <= r - x <= 0.005
    ensures -0.5 <= r - x <= 0.5
  {
    if IsIpk(column) then Round2(x) else RoundHalfEven(x) as real
  }

  /** A rounded statistic is a whole number of hundredths. */
  lemma RoundedHundredths(column: string, x: real) returns (k: int)
    ensures Rounded(column, x) == k as real / 100.0
  {
    if IsIpk(column) {
      k := RoundHalfEven(x * 100.0);
    } else {
      k := 100 * RoundHalfEven(x);
    }
  }

  /** So a non-zero rounded median plus `1e-9` is never zero. */
  lemma ShiftedMedianNonZero(column: string, x: real)
    ensures Rounded(column, x) != 0.0 ==> Rounded(column, x) + Epsilon != 0.0
  {
    var k := RoundedHundredths(column, x);
  }

  /** app.py: "miring" iff the rounded median is non-zero and
      `abs(mean - median) / (median + 1e-9) > 0.2` on the rounded values. */
  predicate AppSkew(column: string, mean: real, median: real)
    ensures AppSkew(column, mean, median) ==>
      Rounded(column, median) != 0.0 && Rounded(column, mean) != Rounded(column, median)
  {
    var mv := Rounded(column, mean);
    var md := Rounded(column, median);
    md != 0.0 && (ShiftedMedianNonZero(column, median); NoGapNoSkew(mv, md, md + Epsilon);
      Abs(mv - md) / (md + Epsilon) > 0.2)
  }

  /** Equal statistics are never more than 20% apart. */
  lemma NoGapNoSkew(mv: real, md: real, d: real)
    requires d != 0.0
    ensures Abs(mv - md) / d > 0.2 ==> mv != md
  {
  }

  /** The note fires iff the rounded median is positive and the rounded mean is
      more than 20% of `median + 1e-9` away from it: a zero or negative median
      never fires. */
  lemma AppSkewSpec(column: string, mean: real, median: real)
    ensures var mv := Rounded(column, mean);
      var md := Rounded(column, median);
      AppSkew(column, mean, median) <==> md > 0.0 && 5.0 * Abs(mv - md) > md + Epsilon
  {
    var k := RoundedHundredths(column, median);
    SkewTest(Rounded(column, mean), Rounded(column, median), k);
  }

  /** The test on two rounded values, the median a whole number of hundredths. */
  lemma SkewTest(mv: real, md: real, k: int)
    requires md == k as real / 100.0
    ensures md != 0.0 ==> md + Epsilon != 0.0
    ensures (md != 0.0 && (md + Epsilon != 0.0 && Abs(mv - md) / (md + Epsilon) > 0.2)) <==>
      (md > 0.0 && 5.0 * Abs(mv - md) > md + Epsilon)
  {
    if md > 0.0 {
      QuotientAbove(Abs(mv - md), md + Epsilon, 0.2);
    } else if md < 0.0 {
      assert k <= -1;
      QuotientOfNegative(Abs(mv - md), md + Epsilon);
    }
  }

  lemma NotIpk(column: string)
    requires |column| != 3
    ensures !IsIpk(column)
  {
  }

  /** Rounding first can hide a skew: for "Gaji" with mean 0.6 and median 0.4
      the raw values are 50% apart, but the median rounds to 0 and no note is
      written. */
  lemma RoundingHidesSkew()
    ensures 5.0 * Abs(0.6 - 0.4) > 0.4 + Epsilon
    ensures !AppSkew(Gaji, 0.6, 0.4)
  {
    NotIpk(Gaji);
    RoundHalfEvenUnique(0.4, 0);
  }

  /** The two reference cases of the skew rule on whole numbers: mean 100
      over median 50 is skewed, mean 100 over median 98 is not. */
  lemma SkewReferenceCases()
    ensures AppSkew(Gaji, 100.0, 50.0)
    ensures !AppSkew(Gaji, 100.0, 98.0)
  {
    NotIpk(Gaji);
    RoundHalfEvenUnique(100.0, 100);
    RoundHalfEvenUnique(50.0, 50);
    RoundHalfEvenUnique(98.0, 98);
    AppSkewSpec(Gaji, 100.0, 50.0);
    AppSkewSpec(Gaji, 100.0, 98.0);
  }

  /** One line of the numeric insight: the skew note, or the `ValueError` that
      `int(round(nan))` raises. */
  datatype NumericNote = Crash | Note(skewed: bool)

  predicate HasNumber(col: seq<Cell>) {
    exists i :: 0 <= i < |col| && col[i].Num?
  }

  /** app.py:136-151 for one numeric column, given its cells after filtering and
      the mean and median of its numbers. A column with no number (an empty
      filtered table among them) has NaN statistics, and the section does not
      check for that: an IPK column keeps NaN through `round(x, 2)` and every
      comparison with NaN is false, so it reads as symmetric; any other column
      stops the page in `int(round(nan))`. */
  function AppNumericNote(column: string, col: seq<Cell>, mean: real, median: real): (n: NumericNote)
    ensures n.Crash? <==> !IsIpk(column) && forall i :: 0 <= i < |col| ==> !col[i].Num?
    ensures n.Note? ==> (n.skewed <==> HasNumber(col) && AppSkew(column, mean, median))
  {
    if HasNumber(col) then Note(AppSkew(column, mean, median))
    else if IsIpk(column) then Note(false)
    else Crash
  }

  // ---------------------------------------------------------------------------
  // Province names for the map
  // ---------------------------------------------------------------------------

  /** app.py: a counted location is stripped and title-cased again, then mapped
      through the same province table as the loader. */
  function MapProvince(s: string): (r: string)
    ensures r in ProvinceMap.Values || (r == Title(Strip(s)) && r !in ProvinceMap)
  {
    CanonicalProvince(Title(Strip(s)))
  }

  lemma TitleIs(s: string, t: string)
    requires |t| == |s| && forall i :: 0 <= i < |s| ==> t[i] == TitleAt(s, i)
    ensures Title(s) == t
  {
    forall i | 0 <= i < |s|
      ensures Title(s)[i] == t[i]
    {
      TitleFromAt(s, false, i);
    }
  }

  /** The canonical "DI Yogyakarta" title-cases to "Di Yogyakarta", which is not
      a key of the table, so the map receives a name the table never produces. */
  lemma YogyakartaLost(s: string)
    requires |s| == 13 && s[0] == 'D' && s[1] == 'I' && s[2] == ' ' && s[3] == 'Y'
    requires s[4] == 'o' && s[5] == 'g' && s[6] == 'y' && s[7] == 'a' && s[8] == 'k'
    requires s[9] == 'a' && s[10] == 'r' && s[11] == 't' && s[12] == 'a'
    ensures MapProvince(s) == "Di Yogyakarta"
    ensures "Di Yogyakarta" !in ProvinceMap
  {
    StripNoEdge(s);
    YogyakartaTitle(s);
    YogyakartaNoKey();
  }

  lemma YogyakartaTitle(s: string)
    requires |s| == 13 && s[0] == 'D' && s[1] == 'I' && s[2] == ' ' && s[3] == 'Y'
    requires s[4] == 'o' && s[5] == 'g' && s[6] == 'y' && s[7] == 'a' && s[8] == 'k'
    requires s[9] == 'a' && s[10] == 'r' && s[11] == 't' && s[12] == 'a'
    ensures Title(s) == "Di Yogyakarta"
  {
    var t := "Di Yogyakarta";
    assert t[1] == ToLower(s[1]);
    TitleIs(s, t);
  }

  lemma YogyakartaNoKey()
    ensures "Di Yogyakarta" !in ProvinceMap
  {
  }

  /** "DKI Jakarta" title-cases to "Dki Jakarta", which the table maps back. */
  lemma JakartaKept(s: string)
    requires |s| == 11 && s[0] == 'D' && s[1] == 'K' && s[2] == 'I' && s[3] == ' '
    requires s[4] == 'J' && s[5] == 'a' && s[6] == 'k' && s[7] == 'a' && s[8] == 'r'
    requires s[9] == 't' && s[10] == 'a'
    ensures MapProvince(s) == s
  {
    JakartaText(s);
    StripNoEdge(s);
    JakartaTitle(s);
    JakartaKey();
  }

  lemma JakartaText(s: string)
    requires |s| == 11 && s[0] == 'D' && s[1] == 'K' && s[2] == 'I' && s[3] == ' '
    requires s[4] == 'J' && s[5] == 'a' && s[6] == 'k' && s[7] == 'a' && s[8] == 'r'
    requires s[9] == 't' && s[10] == 'a'
    ensures s == "DKI Jakarta" && NoEdgeSpace(s)
  {
  }

  lemma JakartaTitle(s: string)
    requires |s| == 11 && s[0] == 'D' && s[1] == 'K' && s[2] == 'I' && s[3] == ' '
    requires s[4] == 'J' && s[5] == 'a' && s[6] == 'k' && s[7] == 'a' && s[8] == 'r'
    requires s[9] == 't' && s[10] == 'a'
    ensures Title(s) == "Dki Jakarta"
  {
    var t := "Dki Jakarta";
    assert t[1] == ToLower(s[1]) && t[2] == ToLower(s[2]);
    TitleIs(s, t);
  }

  lemma JakartaKey()
    ensures "Dki Jakarta" in ProvinceMap && ProvinceMap["Dki Jakarta"] == "DKI Jakarta"
    ensures CanonicalProvince("Dki Jakarta") == "DKI Jakarta"
  {
  }

  /** A location the loader left unmapped comes through unchanged. */
  lemma UnmappedStable(v: string)
    requires IsNormalized(v) && IsTitled(v) && v !in ProvinceMap
    ensures MapProvince(v) == v
  {
    StripNoEdge(v);
    TitledFixed(v);
  }

  lemma CanonicalValues(v: string)
    requires v in ProvinceMap.Values
    ensures v in {"DKI Jakarta", "DI Yogyakarta", "Jawa Barat", "Jawa Timur", "Jawa Tengah", "Aceh",
      "Kepulauan Riau", "Kep. Bangka Belitung", "Papua Barat", "Papua Selatan", "Papua Tengah",
      "Papua Pegunungan"}
  {
    var k :| k in ProvinceMap && ProvinceMap[k] == v;
  }

  /** What the second normalisation does to any value the loader can leave in
      the location column. */
  lemma MapLoadedValue(v: string)
    requires v in ProvinceMap.Values || (v !in ProvinceMap && IsNormalized(v) && IsTitled(v))
    ensures v == "DI Yogyakarta" ==> MapProvince(v) == "Di Yogyakarta"
    ensures v == "DKI Jakarta" ==> MapProvince(v) == v
    ensures v !in ProvinceMap.Values ==> MapProvince(v) == v
  {
    MapYogyakarta(v);
    MapJakarta(v);
    MapUnmapped(v);
  }

  lemma MapYogyakarta(v: string)
    ensures v == "DI Yogyakarta" ==> MapProvince(v) == "Di Yogyakarta"
  {
    if v == "DI Yogyakarta" {
      YogyakartaLost(v);
    }
  }

  lemma MapJakarta(v: string)
    ensures v == "DKI Jakarta" ==> MapProvince(v) == v
  {
    if v == "DKI Jakarta" {
      JakartaKept(v);
    }
  }

  lemma MapUnmapped(v: string)
    requires v in ProvinceMap.Values || (v !in ProvinceMap && IsNormalized(v) && IsTitled(v))
    ensures v !in ProvinceMap.Values ==> MapProvince(v) == v
  {
    if v !in ProvinceMap.Values {
      UnmappedStable(v);
    }
  }

  /** On the loader's output the second normalisation keeps every value the
      province table did not produce, keeps "DKI Jakarta", and turns
      "DI Yogyakarta" into "Di Yogyakarta". */
  lemma MapProvinceOfLoaded(c: Cell)
    requires !c.Num?
    ensures var v := ProvinceCell(TextCell(c, true)).s;
      (v == "DI Yogyakarta" ==> MapProvince(v) == "Di Yogyakarta") &&
      (v == "DKI Jakarta" ==> MapProvince(v) == v) &&
      (v !in ProvinceMap.Values ==> MapProvince(v) == v)
  {
    LocationCellSpec(c);
    MapLoadedValue(ProvinceCell(TextCell(c, true)).s);
  }
}
