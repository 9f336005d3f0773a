// The feedback page: a keyword rule that labels each feedback text, and the
// Sentiment column it adds to the filtered table when the column is missing.

module Sentimen {
  import opened Text
  import opened Frames
  import Counts

  datatype Sentiment = Positive | Neutral

  const PositiveWords: seq<string> :=
    ["baik", "bagus", "membantu", "positif", "recommend", "recommended"]
  const ImprovementWords: seq<string> :=
    ["perlu", "perbanyak", "tingkatkan", "kurang", "update", "perbarui"]

  // ---------------------------------------------------------------------------
  // The keyword rule
  // ---------------------------------------------------------------------------

  /** `any(w in s for w in words)`. */
  function AnyIn(s: string, words: seq<string>): (b: bool)
    ensures b <==> exists w :: w in words && Contains(s, w)
  {
    if words == [] then false
    else
      assert forall w :: w in words <==> w == words[0] || w in words[1..];
      Contains(s, words[0]) || AnyIn(s, words[1..])
  }

  /** `quick_sent` on the text `str(value)`: lower-cased, a positive keyword
      wins; the improvement keywords lead to the same answer as no keyword. */
  function QuickSent(s: string): (r: Sentiment)
    ensures r == Positive <==> exists w :: w in PositiveWords && Contains(Lower(s), w)
  {
    var t := Lower(s);
    if AnyIn(t, PositiveWords) then Positive
    else if AnyIn(t, ImprovementWords) then Neutral
    else Neutral
  }

  /** `quick_sent` on a feedback cell: a missing value is the float NaN, whose
      text is "nan"; a number's decimal text holds no keyword. */
  function QuickSentCell(c: Cell): (r: Sentiment)
    ensures c.Str? ==> r == QuickSent(c.s)
    ensures !c.Str? ==> r == Neutral
  {
    match c
    case Null => MissingIsNeutral(); QuickSent("nan")
    case Str(s) => QuickSent(s)
    case Num(_) => Neutral
  }

  /** A word longer than the text cannot occur in it. */
  lemma TooLong(s: string, w: string)
    requires |w| > |s|
    ensures !Contains(s, w)
  {
  }

  /** The text of a missing value, "nan" for NaN or "none" for `None`, is
      Neutral. */
  lemma MissingIsNeutral()
    ensures QuickSent("nan") == Neutral
    ensures QuickSent("none") == Neutral
  {
    forall w | w in PositiveWords
      ensures !Contains(Lower("nan"), w) && !Contains(Lower("none"), w)
    {
      TooLong(Lower("nan"), w);
      if |w| == 4 {
        assert w == "baik";
        assert Lower("none")[0..4] != w by {
          assert Lower("none")[0] == 'n';
        }
      } else {
        TooLong(Lower("none"), w);
      }
    }
  }

  /** A lower-cased occurrence survives any text written before or after it. */
  lemma ContainsExtended(s: string, w: string, pre: string, post: string)
    requires Contains(Lower(s), w)
    ensures Contains(Lower(pre + s + post), w)
  {
    var i :| 0 <= i <= |Lower(s)| - |w| && OccursAt(Lower(s), w, i);
    var t := Lower(pre + s + post);
    var j := |pre| + i;
    assert t[j..j + |w|] == Lower(s)[i..i + |w|];
    assert OccursAt(t, w, j);
  }

  /** More text around a Positive feedback keeps it Positive, whatever the
      extra text says (a negation or an improvement keyword included). */
  lemma PositiveStable(s: string, pre: string, post: string)
    requires QuickSent(s) == Positive
    ensures QuickSent(pre + s + post) == Positive
  {
    var w :| w in PositiveWords && Contains(Lower(s), w);
    ContainsExtended(s, w, pre, post);
  }

  /** Upper and lower case do not matter. */
  lemma CaseInsensitive(s: string, t: string)
    requires |s| == |t|
    requires forall i :: 0 <= i < |s| ==> ToLower(s[i]) == ToLower(t[i])
    ensures QuickSent(s) == QuickSent(t)
  {
    assert Lower(s) == Lower(t);
  }

  /** The rule ignores negation: "Kurang bagus" ("not good enough") holds
      "bagus" and is Positive. */
  lemma NegationIgnored(s: string)
    requires |s| == 12
    requires s[0] == 'K' && s[1] == 'u' && s[2] == 'r' && s[3] == 'a' && s[4] == 'n' && s[5] == 'g'
    requires s[6] == ' ' && s[7] == 'b' && s[8] == 'a' && s[9] == 'g' && s[10] == 'u' && s[11] == 's'
    ensures QuickSent(s) == Positive
  {
    var t := Lower(s);
    assert t[7..12] == "bagus";
    assert OccursAt(t, "bagus", 7);
    assert "bagus" in PositiveWords;
  }

  // ---------------------------------------------------------------------------
  // The Sentiment column
  // ---------------------------------------------------------------------------

  const SentimentLabel: string := "Sentiment"
  const FeedbackLabel: string := "Umpan Balik"

  function LabelOf(r: Sentiment): Cell {
    if r == Positive then Str("Positive") else Str("Neutral")
  }

  /** `feedback.apply(quick_sent)`: one label per feedback cell, in place. */
  function Scored(col: seq<Cell>): (r: seq<Cell>)
    ensures |r| == |col|
    ensures forall i :: 0 <= i < |col| ==> r[i] == LabelOf(QuickSentCell(col[i]))
  {
    seq(|col|, i requires 0 <= i < |col| => LabelOf(QuickSentCell(col[i])))
  }

  /** Without a feedback column, `pd.Series([None] * n).apply(quick_sent)`
      assigned to the filtered table: the new series is labelled 0 .. n-1 and
      pandas matches it to the table's rows by label, so a row whose label is
      n or more gets NaN. */
  function FallbackAsWritten(index: seq<nat>): (col: seq<Cell>)
    ensures |col| == |index|
    ensures forall i :: 0 <= i < |index| ==> (col[i] == Null <==> index[i] >= |index|)
    ensures forall i :: 0 <= i < |index| && index[i] < |index| ==> col[i] == Str("Neutral")
  {
    MissingIsNeutral();
    seq(|index|, i requires 0 <= i < |index| =>
      if index[i] < |index| then LabelOf(QuickSent("none")) else Null)
  }

  /** What the fallback is evidently meant to give: every row Neutral. */
  function Fallback(n: nat): (col: seq<Cell>)
    ensures |col| == n
    ensures forall i :: 0 <= i < n ==> col[i] == Str("Neutral")
  {
    MissingIsNeutral();
    seq(n, _ => LabelOf(QuickSent("none")))
  }

  /** The page's column step as written: an existing Sentiment column is kept;
      otherwise the feedback is scored, or the misaligned fallback is used. */
  function AddSentimentAsWritten(df: Frame): (r: Frame)
    requires WellFormed(df)
    ensures WellFormed(r) && r.index == df.index
    ensures SentimentLabel in df.names ==> r == df
    ensures SentimentLabel !in df.names ==>
      r.names == df.names + [SentimentLabel] && r.cols[..|df.cols|] == df.cols
  {
    if SentimentLabel in df.names then df
    else
      var col := match ColumnOf(df, FeedbackLabel)
        case Some(f) => Scored(f)
        case None => FallbackAsWritten(df.index);
      var r := AddColumn(df, SentimentLabel, col, Object);
      assert r.cols[..|df.cols|] == df.cols;
      r
  }

  /** The column step with every row labelled; the rest of the model uses it. */
  function AddSentiment(df: Frame): (r: Frame)
    requires WellFormed(df)
    ensures WellFormed(r) && r.index == df.index
    ensures SentimentLabel in df.names ==> r == df
    ensures SentimentLabel !in df.names ==>
      r.names == df.names + [SentimentLabel] && r.cols[..|df.cols|] == df.cols
  {
    if SentimentLabel in df.names then df
    else
      var col := match ColumnOf(df, FeedbackLabel)
        case Some(f) => Scored(f)
        case None => Fallback(|df.index|);
      var r := AddColumn(df, SentimentLabel, col, Object);
      assert r.cols[..|df.cols|] == df.cols;
      r
  }

  /** A row added by `AddSentiment` is Positive exactly when the table has
      feedback and that row's feedback text holds a positive keyword in any
      case; every other added row is Neutral. */
  lemma AddSentimentSpec(df: Frame, i: nat)
    requires WellFormed(df) && SentimentLabel !in df.names && i < df.Height()
    ensures AddSentiment(df).cols[|df.cols|][i] in {Str("Positive"), Str("Neutral")}
    ensures AddSentiment(df).cols[|df.cols|][i] == Str("Positive") <==>
      (FeedbackLabel in df.names && ColumnOf(df, FeedbackLabel).value[i].Str? &&
       exists w :: w in PositiveWords && Contains(Lower(ColumnOf(df, FeedbackLabel).value[i].s), w))
  {
  }

  lemma {:induction false} NoNullTotal(col: seq<Cell>)
    requires forall i :: 0 <= i < |col| ==> !col[i].Null?
    ensures Counts.Total(col) == |col|
  {
    if col != [] {
      NoNullTotal(col[..|col| - 1]);
    }
  }

  /** `value_counts()` on the added column counts every row of the table. */
  lemma EveryRowCounted(df: Frame)
    requires WellFormed(df) && SentimentLabel !in df.names
    ensures Counts.Total(AddSentiment(df).cols[|df.cols|]) == df.Height()
  {
    var col := AddSentiment(df).cols[|df.cols|];
    forall i | 0 <= i < |col|
      ensures !col[i].Null?
    {
      AddSentimentSpec(df, i);
    }
    NoNullTotal(col);
  }

  /** The step as written agrees with the corrected one exactly when the table
      already has a Sentiment column, has feedback, or keeps only row labels
      below its height (as an unfiltered table does). */
  lemma AsWrittenAgrees(df: Frame)
    requires WellFormed(df)
    ensures AddSentimentAsWritten(df) == AddSentiment(df) <==>
      (SentimentLabel in df.names || FeedbackLabel in df.names ||
       forall i :: 0 <= i < df.Height() ==> df.index[i] < df.Height())
  {
    if SentimentLabel !in df.names && FeedbackLabel !in df.names {
      var a := AddSentimentAsWritten(df).cols[|df.cols|];
      var b := AddSentiment(df).cols[|df.cols|];
      if forall i :: 0 <= i < df.Height() ==> df.index[i] < df.Height() {
        assert a == b;
      } else {
        var i :| 0 <= i < df.Height() && df.index[i] >= df.Height();
        assert a[i] != b[i];
      }
    }
  }

  /** A one-row table whose row kept label 1 after filtering, without feedback
      and without a Sentiment column: as written, its row gets NaN, which
      `value_counts()` drops, so the chart counts no row at all. */
  lemma FallbackMisaligned()
    ensures var df := Frame(["Tahun Lulus"], [[Num(2020.0)]], [1], [Number]);
      AddSentimentAsWritten(df).cols[1] == [Null] &&
      Counts.Total(AddSentimentAsWritten(df).cols[1]) == 0 &&
      AddSentiment(df).cols[1] == [Str("Neutral")]
  {
    var df := Frame(["Tahun Lulus"], [[Num(2020.0)]], [1], [Number]);
    assert SentimentLabel !in df.names && FeedbackLabel !in df.names;
    assert AddSentimentAsWritten(df).cols[1] == [Null];
  }
}
