/** pages/4_Klaster.py: which rows are clustered, the guard on their number,
    the `Cluster` column, and the notes written for each cluster of the
    summary. The scaling, the k-means labels and the per-cluster means come
    from scikit-learn and pandas and are inputs here. */
module Klaster {
  import opened Wrappers
  import opened Frames
  import opened Numbers

  // ---------------------------------------------------------------------------
  // Candidate columns and eligible rows
  // ---------------------------------------------------------------------------

  /** The columns offered for clustering, in this order. */
  const CandidateOrder: seq<string> := [Gaji, Tahun, Relevansi, Ipk, MasaTunggu]

  /** Lines 20-23: the candidates present in the frame, in the fixed order. */
  function CandidateCols(df: Frame): (cs: seq<string>)
    ensures forall c :: c in cs <==> c in CandidateOrder && c in df.names
    ensures cs == Keep(CandidateOrder, seq(5, i requires 0 <= i < 5 => CandidateOrder[i] in df.names))
  {
    var m := seq(5, i requires 0 <= i < 5 => CandidateOrder[i] in df.names);
    forall c ensures c in Keep(CandidateOrder, m) <==> c in CandidateOrder && c in df.names {
      KeepMember(CandidateOrder, m, c);
    }
    Keep(CandidateOrder, m)
  }

  /** Row `i` has a value in every chosen column. */
  predicate Complete(df: Frame, chosen: seq<string>, i: nat)
    requires WellFormed(df) && i < df.Height() && forall c :: c in chosen ==> c in df.names
  {
    forall c :: c in chosen ==> !ColumnOf(df, c).value[i].Null?
  }

  function CompleteMask(df: Frame, chosen: seq<string>): (m: seq<bool>)
    requires WellFormed(df) && forall c :: c in chosen ==> c in df.names
    ensures |m| == df.Height() && forall i :: 0 <= i < df.Height() ==> (m[i] <==> Complete(df, chosen, i))
  {
    seq(df.Height(), i requires 0 <= i < df.Height() => Complete(df, chosen, i))
  }

  /** Line 34, `dropna(subset=chosen)`: the rows with no missing value in a
      chosen column, in their order. */
  function Eligible(df: Frame, chosen: seq<string>): (e: Frame)
    requires WellFormed(df) && forall c :: c in chosen ==> c in df.names
    ensures WellFormed(e) && e.names == df.names && e.kinds == df.kinds && e.Height() <= df.Height()
  {
    Where(df, CompleteMask(df, chosen))
  }

  /** The eligible rows keep every column and their labels in order; no chosen
      column has a missing value among them; and there are exactly as many as
      there are complete rows. With nothing chosen every row is eligible. */
  lemma EligibleSpec(df: Frame, chosen: seq<string>)
    requires WellFormed(df) && forall c :: c in chosen ==> c in df.names
    ensures var e := Eligible(df, chosen);
      e.names == df.names && e.index == Keep(df.index, CompleteMask(df, chosen)) &&
      e.Height() == Trues(CompleteMask(df, chosen)) &&
      (forall c, x :: c in chosen && x in ColumnOf(e, c).value ==> !x.Null?) &&
      (chosen == [] ==> e == df)
  {
    var m := CompleteMask(df, chosen);
    var e := Eligible(df, chosen);
    KeepTrues(df.index, m);
    forall c, x | c in chosen && x in ColumnOf(e, c).value
      ensures !x.Null?
    {
      var col := ColumnOf(df, c).value;
      assert ColumnOf(e, c).value == Keep(col, m);
      KeepMember(col, m, x);
    }
    if chosen == [] {
      WhereAll(df, m);
    }
  }

  // ---------------------------------------------------------------------------
  // The cluster column
  // ---------------------------------------------------------------------------

  const ClusterLabel: string := "Cluster"

  /** `df[name] = col` with a column of dtype `kind`: replaces the first column
      with that label, or appends a new last column. */
  function SetColumn(df: Frame, name: string, col: seq<Cell>, kind: Kind): (r: Frame)
    requires WellFormed(df) && |col| == df.Height()
    ensures WellFormed(r) && r.index == df.index && ColumnOf(r, name) == Some(col)
    ensures forall n :: n != name && n in df.names ==> ColumnOf(r, n) == ColumnOf(df, n)
    ensures name in df.names ==> r.names == df.names
    ensures name !in df.names ==> r.names == df.names + [name]
  {
    match IndexOf(df.names, name)
    case Some(j) =>
      var r := UpdateColumn(df, j, col, kind);
      forall n | n != name && n in df.names
        ensures ColumnOf(r, n) == ColumnOf(df, n)
      {
        assert IndexOf(r.names, n) == IndexOf(df.names, n);
        assert IndexOf(df.names, n).value != j;
      }
      r
    case None =>
      var r := AddColumn(df, name, col, kind);
      AppendedLabel(df.names, name);
      forall n | n != name && n in df.names
        ensures ColumnOf(r, n) == ColumnOf(df, n)
      {
        AppendedOther(df.names, name, n);
      }
      r
  }

  lemma {:induction false} AppendedLabel(names: seq<string>, name: string)
    requires name !in names
    ensures IndexOf(names + [name], name) == Some(|names|)
  {
    if names != [] {
      AppendedLabel(names[1..], name);
      assert (names + [name])[1..] == names[1..] + [name];
    }
  }

  lemma {:induction false} AppendedOther(names: seq<string>, name: string, n: string)
    requires n in names
    ensures IndexOf(names + [name], n) == IndexOf(names, n)
  {
    if names[0] != n {
      AppendedOther(names[1..], name, n);
      assert (names + [name])[1..] == names[1..] + [name];
    }
  }

  /** `labels.astype(int)` as cells. */
  function LabelCells(labels: seq<nat>): (col: seq<Cell>)
    ensures |col| == |labels| && forall i :: 0 <= i < |labels| ==> col[i] == Num(labels[i] as real)
  {
    seq(|labels|, i requires 0 <= i < |labels| => Num(labels[i] as real))
  }

  // ---------------------------------------------------------------------------
  // The summary and the notes
  // ---------------------------------------------------------------------------

  /** A value of the summary as the notes read it: `round(2)`, and for the wait
      column then `round()` to an integer (line 54). */
  function Shown(column: string, x: real): (r: real)
    ensures column != MasaTunggu ==> r == Round2(x)
    ensures column == MasaTunggu ==> r == RoundHalfEven(Round2(x)) as real
  {
    if column == MasaTunggu then RoundHalfEven(Round2(x)) as real else Round2(x)
  }

  /** The summary: one row of raw means per cluster, one entry per chosen column. */
  predicate Shaped(chosen: seq<string>, summary: seq<seq<real>>) {
    forall c :: 0 <= c < |summary| ==> |summary[c]| == |chosen|
  }

  /** `summary[name]` as shown, for a chosen column; `None` when it was not chosen. */
  function Column(chosen: seq<string>, summary: seq<seq<real>>, name: string): (v: Option<seq<real>>)
    requires Shaped(chosen, summary)
    ensures v.None? <==> name !in chosen
    ensures v.Some? ==> |v.value| == |summary|
  {
    match IndexOf(chosen, name)
    case None => None
    case Some(j) => Some(seq(|summary|, c requires 0 <= c < |summary| => Shown(name, summary[c][j])))
  }

  /** `Series.max()`. */
  function MaxOf(v: seq<real>): (r: real)
    requires v != []
    ensures r in v && forall d :: 0 <= d < |v| ==> v[d] <= r
  {
    if |v| == 1 then v[0]
    else
      var m := MaxOf(v[1..]);
      assert forall d :: 1 <= d < |v| ==> v[d] == v[1..][d - 1];
      if v[0] >= m then v[0] else m
  }

  /** `Series.min()`. */
  function MinOf(v: seq<real>): (r: real)
    requires v != []
    ensures r in v && forall d :: 0 <= d < |v| ==> r <= v[d]
  {
    if |v| == 1 then v[0]
    else
      var m := MinOf(v[1..]);
      assert forall d :: 1 <= d < |v| ==> v[d] == v[1..][d - 1];
      if v[0] <= m then v[0] else m
  }

  /** Cluster `c` is not below any other. */
  predicate Highest(v: seq<real>, c: nat)
    requires c < |v|
  {
    forall d :: 0 <= d < |v| ==> v[d] <= v[c]
  }

  predicate Lowest(v: seq<real>, c: nat)
    requires c < |v|
  {
    forall d :: 0 <= d < |v| ==> v[c] <= v[d]
  }

  datatype Note = HighestSalary | LowestSalary | HighestIpk | FastestWait

  /** `[note]` when the column was chosen and cluster `c` is its highest (or,
      with `high` false, its lowest); otherwise nothing. */
  function Mark(v: Option<seq<real>>, c: nat, high: bool, note: Note): seq<Note>
    requires v.Some? ==> c < |v.value|
  {
    if v.Some? && (if high then Highest(v.value, c) else Lowest(v.value, c)) then [note] else []
  }

  /** The notes a cluster should get: the salary notes when salary was chosen and
      no cluster beats this one, the IPK note likewise, and the wait note when no
      cluster waits less; always in this order. */
  function Expected(chosen: seq<string>, summary: seq<seq<real>>, c: nat): seq<Note>
    requires Shaped(chosen, summary) && c < |summary|
  {
    var g := Column(chosen, summary, Gaji);
    var p := Column(chosen, summary, Ipk);
    var w := Column(chosen, summary, MasaTunggu);
    Mark(g, c, true, HighestSalary) + Mark(g, c, false, LowestSalary) +
    Mark(p, c, true, HighestIpk) + Mark(w, c, false, FastestWait)
  }

  /** Which notes a cluster gets: each iff its column was chosen and the cluster
      is not beaten on it. */
  lemma ExpectedMembers(chosen: seq<string>, summary: seq<seq<real>>, c: nat)
    requires Shaped(chosen, summary) && c < |summary|
    ensures var g := Column(chosen, summary, Gaji);
      var e := Expected(chosen, summary, c);
      (HighestSalary in e <==> g.Some? && Highest(g.value, c)) &&
      (LowestSalary in e <==> g.Some? && Lowest(g.value, c))
    ensures var p := Column(chosen, summary, Ipk);
      HighestIpk in Expected(chosen, summary, c) <==> p.Some? && Highest(p.value, c)
    ensures var w := Column(chosen, summary, MasaTunggu);
      FastestWait in Expected(chosen, summary, c) <==> w.Some? && Lowest(w.value, c)
  {
    var g := Column(chosen, summary, Gaji);
    var p := Column(chosen, summary, Ipk);
    var w := Column(chosen, summary, MasaTunggu);
    var a, b, d, f := Mark(g, c, true, HighestSalary), Mark(g, c, false, LowestSalary),
      Mark(p, c, true, HighestIpk), Mark(w, c, false, FastestWait);
    assert Expected(chosen, summary, c) == a + b + d + f;
    assert forall x :: x in a + b + d + f <==> x in a || x in b || x in d || x in f;
  }

  /** Lines 81-89: the notes of cluster `c`, read from the summary. */
  method ClusterNotes(chosen: seq<string>, summary: seq<seq<real>>, c: nat) returns (notes: seq<Note>)
    requires Shaped(chosen, summary) && c < |summary|
    ensures notes == Expected(chosen, summary, c)
  {
    var g := Column(chosen, summary, Gaji);
    var p := Column(chosen, summary, Ipk);
    var w := Column(chosen, summary, MasaTunggu);
    notes := NotesFrom(g, p, w, c);
  }

  /** Each note is appended when the cluster's shown mean equals the column's
      maximum (or minimum). */
  method NotesFrom(g: Option<seq<real>>, p: Option<seq<real>>, w: Option<seq<real>>, c: nat)
    returns (notes: seq<Note>)
    requires g.Some? ==> c < |g.value|
    requires p.Some? ==> c < |p.value|
    requires w.Some? ==> c < |w.value|
    ensures notes == Mark(g, c, true, HighestSalary) + Mark(g, c, false, LowestSalary) +
      Mark(p, c, true, HighestIpk) + Mark(w, c, false, FastestWait)
  {
    notes := [];
    EqualsExtreme(g, c);
    if g.Some? && g.value[c] == MaxOf(g.value) {
      notes := notes + [HighestSalary];
    }
    assert notes == Mark(g, c, true, HighestSalary);
    if g.Some? && g.value[c] == MinOf(g.value) {
      notes := notes + [LowestSalary];
    }
    ghost var salary := notes;
    assert salary == Mark(g, c, true, HighestSalary) + Mark(g, c, false, LowestSalary);
    EqualsExtreme(p, c);
    if p.Some? && p.value[c] == MaxOf(p.value) {
      notes := notes + [HighestIpk];
    }
    assert notes == salary + Mark(p, c, true, HighestIpk);
    EqualsExtreme(w, c);
    if w.Some? && w.value[c] == MinOf(w.value) {
      notes := notes + [FastestWait];
    }
    assert notes == salary + Mark(p, c, true, HighestIpk) + Mark(w, c, false, FastestWait);
  }

  /** Equal to the maximum iff not below any other; likewise for the minimum. */
  lemma EqualsExtreme(v: Option<seq<real>>, c: nat)
    requires v.Some? ==> c < |v.value|
    ensures v.Some? ==> (v.value[c] == MaxOf(v.value) <==> Highest(v.value, c))
    ensures v.Some? ==> (v.value[c] == MinOf(v.value) <==> Lowest(v.value, c))
  {
    if v.Some? {
      var s := v.value;
      var hi, lo := MaxOf(s), MinOf(s);
      if Highest(s, c) {
        var d :| 0 <= d < |s| && s[d] == hi;
      }
      if Lowest(s, c) {
        var d :| 0 <= d < |s| && s[d] == lo;
      }
    }
  }

  /** Lines 61-91: the notes of every cluster of the summary, in its order. */
  method AllNotes(chosen: seq<string>, summary: seq<seq<real>>) returns (all: seq<seq<Note>>)
    requires Shaped(chosen, summary)
    ensures |all| == |summary| && forall c :: 0 <= c < |summary| ==> all[c] == Expected(chosen, summary, c)
  {
    all := [];
    for c := 0 to |summary|
      invariant |all| == c && forall d :: 0 <= d < c ==> all[d] == Expected(chosen, summary, d)
    {
      var notes := ClusterNotes(chosen, summary, c);
      all := all + [notes];
    }
  }

  /** When every cluster has the same shown salary, every cluster gets both
      salary notes. */
  lemma TiedSalaries(chosen: seq<string>, summary: seq<seq<real>>, c: nat)
    requires Shaped(chosen, summary) && c < |summary| && Gaji in chosen
    requires var g := Column(chosen, summary, Gaji).value;
      forall d :: 0 <= d < |g| ==> g[d] == g[0]
    ensures HighestSalary in Expected(chosen, summary, c)
    ensures LowestSalary in Expected(chosen, summary, c)
  {
    ExpectedMembers(chosen, summary, c);
  }

  /** A non-empty column has a highest and a lowest cluster. */
  lemma Extremes(v: seq<real>) returns (hi: nat, lo: nat)
    requires v != []
    ensures hi < |v| && Highest(v, hi) && lo < |v| && Lowest(v, lo)
  {
    hi :| 0 <= hi < |v| && v[hi] == MaxOf(v);
    lo :| 0 <= lo < |v| && v[lo] == MinOf(v);
    EqualsExtreme(Some(v), hi);
    EqualsExtreme(Some(v), lo);
  }

  /** Some cluster gets each salary note iff salary was chosen. */
  lemma SalaryNotesExist(chosen: seq<string>, summary: seq<seq<real>>)
    requires Shaped(chosen, summary) && summary != []
    ensures Gaji in chosen <==> exists c :: 0 <= c < |summary| && HighestSalary in Expected(chosen, summary, c)
    ensures Gaji in chosen <==> exists c :: 0 <= c < |summary| && LowestSalary in Expected(chosen, summary, c)
  {
    var g := Column(chosen, summary, Gaji);
    forall c | 0 <= c < |summary|
      ensures HighestSalary in Expected(chosen, summary, c) ==> Gaji in chosen
      ensures LowestSalary in Expected(chosen, summary, c) ==> Gaji in chosen
    {
      ExpectedMembers(chosen, summary, c);
    }
    if Gaji in chosen {
      var hi, lo := Extremes(g.value);
      ExpectedMembers(chosen, summary, hi);
      ExpectedMembers(chosen, summary, lo);
      assert HighestSalary in Expected(chosen, summary, hi);
      assert LowestSalary in Expected(chosen, summary, lo);
    }
  }

  /** Some cluster gets the IPK note iff IPK was chosen, and the wait note iff
      the wait was chosen. */
  lemma OtherNotesExist(chosen: seq<string>, summary: seq<seq<real>>)
    requires Shaped(chosen, summary) && summary != []
    ensures Ipk in chosen <==> exists c :: 0 <= c < |summary| && HighestIpk in Expected(chosen, summary, c)
    ensures MasaTunggu in chosen <==> exists c :: 0 <= c < |summary| && FastestWait in Expected(chosen, summary, c)
  {
    var p := Column(chosen, summary, Ipk);
    var w := Column(chosen, summary, MasaTunggu);
    forall c | 0 <= c < |summary|
      ensures HighestIpk in Expected(chosen, summary, c) ==> Ipk in chosen
      ensures FastestWait in Expected(chosen, summary, c) ==> MasaTunggu in chosen
    {
      ExpectedMembers(chosen, summary, c);
    }
    if Ipk in chosen {
      var hi, _ := Extremes(p.value);
      ExpectedMembers(chosen, summary, hi);
      assert HighestIpk in Expected(chosen, summary, hi);
    }
    if MasaTunggu in chosen {
      var _, lo := Extremes(w.value);
      ExpectedMembers(chosen, summary, lo);
      assert FastestWait in Expected(chosen, summary, lo);
    }
  }

  function Rank(n: Note): nat {
    match n
    case HighestSalary => 0
    case LowestSalary => 1
    case HighestIpk => 2
    case FastestWait => 3
  }

  /** The notes come in the fixed order, each at most once. */
  lemma NotesOrdered(chosen: seq<string>, summary: seq<seq<real>>, c: nat)
    requires Shaped(chosen, summary) && c < |summary|
    ensures var e := Expected(chosen, summary, c);
      forall i, j :: 0 <= i < j < |e| ==> Rank(e[i]) < Rank(e[j])
  {
  }

  /** The wait note compares integers: mean waits of 2.4 and 1.6 months both
      show as 2, so both clusters are the fastest. */
  lemma WaitRoundingTies()
    ensures Shown(MasaTunggu, 2.4) == Shown(MasaTunggu, 1.6) == 2.0
  {
    assert Round2(2.4) == 2.4 by {
      RoundHalfEvenUnique(2.4 * 100.0, 240);
    }
    assert Round2(1.6) == 1.6 by {
      RoundHalfEvenUnique(1.6 * 100.0, 160);
    }
    RoundHalfEvenUnique(2.4, 2);
    RoundHalfEvenUnique(1.6, 2);
  }

  // ---------------------------------------------------------------------------
  // The page
  // ---------------------------------------------------------------------------

  /** What the page ends with: the "no data" warning, the "no numeric column"
      note, the "not enough rows" warning, the error scikit-learn raises for a
      table with no feature, or the clustered rows with the notes per cluster. */
  datatype Outcome =
    | NoData
    | NoCandidates
    | TooFewRows
    | NoFeatures
    | Clustered(rows: Frame, notes: seq<seq<Note>>)

  /** Lines 16-91 for a slider value `k`, the chosen columns (a selection of the
      candidates), the k-means labels of the eligible rows and the raw means of
      the summary. */
  method ClusterPage(df: Frame, k: nat, chosen: seq<string>, labels: seq<nat>, summary: seq<seq<real>>)
    returns (o: Outcome)
    requires WellFormed(df) && 2 <= k <= 8
    requires forall c :: c in chosen ==> c in CandidateOrder && c in df.names
    requires |labels| == Eligible(df, chosen).Height() && forall i :: 0 <= i < |labels| ==> labels[i] < k
    requires Shaped(chosen, summary)
    ensures o == NoData <==> Empty(df)
    ensures o == NoCandidates <==> !Empty(df) && CandidateCols(df) == []
    ensures o == TooFewRows <==>
      !Empty(df) && CandidateCols(df) != [] && Eligible(df, chosen).Height() < k
    ensures o == NoFeatures <==>
      !Empty(df) && CandidateCols(df) != [] && Eligible(df, chosen).Height() >= k && chosen == []
    ensures o.Clustered? ==>
      o.rows == SetColumn(Eligible(df, chosen), ClusterLabel, LabelCells(labels), Number) &&
      |o.notes| == |summary| &&
      forall c :: 0 <= c < |summary| ==> o.notes[c] == Expected(chosen, summary, c)
  {
    if df.Height() == 0 || |df.names| == 0 {
      return NoData;
    }
    var candidates := CandidateCols(df);
    if candidates == [] {
      return NoCandidates;
    }
    var rows := Eligible(df, chosen);
    if rows.Height() < k {
      return TooFewRows;
    }
    if chosen == [] {
      return NoFeatures;
    }
    rows := SetColumn(rows, ClusterLabel, LabelCells(labels), Number);
    var notes := AllNotes(chosen, summary);
    o := Clustered(rows, notes);
  }

  /** When the page clusters, every eligible row carries exactly one label, a
      whole number in `[0, k)`, and keeps its other columns. */
  lemma ClusteredRows(df: Frame, k: nat, chosen: seq<string>, labels: seq<nat>)
    requires WellFormed(df) && forall c :: c in chosen ==> c in df.names
    requires |labels| == Eligible(df, chosen).Height() && forall i :: 0 <= i < |labels| ==> labels[i] < k
    ensures var e := Eligible(df, chosen);
      var r := SetColumn(e, ClusterLabel, LabelCells(labels), Number);
      r.index == e.index &&
      (forall i :: 0 <= i < r.Height() ==>
        var x := ColumnOf(r, ClusterLabel).value[i];
        x.Num? && x.x == x.x.Floor as real && 0 <= x.x.Floor < k) &&
      (forall n :: n != ClusterLabel && n in df.names ==> ColumnOf(r, n) == ColumnOf(e, n))
  {
    var e := Eligible(df, chosen);
    var r := SetColumn(e, ClusterLabel, LabelCells(labels), Number);
    forall i | 0 <= i < r.Height()
      ensures var x := ColumnOf(r, ClusterLabel).value[i];
        x.Num? && x.x == x.x.Floor as real && 0 <= x.x.Floor < k
    {
      assert ColumnOf(r, ClusterLabel).value[i] == Num(labels[i] as real);
      assert (labels[i] as real).Floor == labels[i];
    }
  }
}
