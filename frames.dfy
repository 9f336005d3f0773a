/** The table the dashboard works on: a pandas DataFrame held column by column,
    as pandas itself holds it. A label is looked up as pandas does for a unique
    label: the first column carrying it. */
module Frames {
  import opened Wrappers

  // The column labels the dashboard relies on.
  const Tahun: string := "Tahun Angkatan"
  const Program: string := "Program Studi"
  const Konsentrasi: string := "Konsentrasi"
  const Lokasi: string := "Lokasi Geografis"
  const Bidang: string := "Bidang Industri"
  const Gaji: string := "Gaji"
  const Ipk: string := "IPK"
  const MasaTunggu: string := "Masa Tunggu Kerja"
  const Relevansi: string := "Relevansi Kurikulum"

  /** One value: missing (NaN or None), text, or a number. */
  datatype Cell = Null | Str(s: string) | Num(x: real)

  /** The dtype of a column, as `select_dtypes` sees it: `object` or numeric.
      It belongs to the column, not to the rows: selecting rows keeps it. */
  datatype Kind = Object | Number

  /** Column labels in order, one sequence of cells per label, the row labels
      (the index) and one dtype per column: a table read from a file is
      labelled 0, 1, 2, ... and a row selection keeps the labels of the rows it
      keeps. */
  datatype Frame = Frame(names: seq<string>, cols: seq<seq<Cell>>, index: seq<nat>, kinds: seq<Kind>) {
    function Height(): nat { |index| }
  }

  predicate WellFormed(df: Frame) {
    |df.cols| == |df.names| && |df.kinds| == |df.names| &&
    forall j :: 0 <= j < |df.cols| ==> |df.cols[j]| == |df.index|
  }

  /** The position of the first `n` in `names`. */
  function IndexOf(names: seq<string>, n: string): (r: Option<nat>)
    ensures r.None? <==> n !in names
    ensures r.Some? ==> r.value < |names| && names[r.value] == n && n !in names[..r.value]
  {
    if names == [] then None
    else if names[0] == n then Some(0)
    else
      match IndexOf(names[1..], n)
      case None => None
      case Some(j) =>
        assert names[..j + 1] == [names[0]] + names[1..][..j];
        Some(j + 1)
  }

  /** `DataFrame.empty`: no rows, or no columns. */
  predicate Empty(df: Frame) {
    df.Height() == 0 || |df.names| == 0
  }

  /** `df[name]` for a label present in the frame: the first column with it. */
  function ColumnOf(df: Frame, name: string): (c: Option<seq<Cell>>)
    requires WellFormed(df)
    ensures c.None? <==> name !in df.names
    ensures c.Some? ==> |c.value| == |df.index|
  {
    match IndexOf(df.names, name)
    case Some(j) => Some(df.cols[j])
    case None => None
  }

  /** `df[name] = col` for a label already present at position `j`, the new
      column having dtype `kind`: every other column, its dtype, and the row
      count are untouched. */
  function UpdateColumn(df: Frame, j: nat, col: seq<Cell>, kind: Kind): (r: Frame)
    requires WellFormed(df) && j < |df.names| && |col| == |df.index|
    ensures WellFormed(r) && r.names == df.names && r.index == df.index
    ensures r.cols[j] == col && r.kinds[j] == kind
    ensures forall k :: 0 <= k < |df.cols| && k != j ==> r.cols[k] == df.cols[k] && r.kinds[k] == df.kinds[k]
  {
    Frame(df.names, df.cols[j := col], df.index, df.kinds[j := kind])
  }

  /** Some value of the column is text. */
  predicate HasText(col: seq<Cell>) {
    exists i :: 0 <= i < |col| && col[i].Str?
  }

  /** `df[name] = col` for a label not yet present: a new last column of
      dtype `kind`. */
  function AddColumn(df: Frame, name: string, col: seq<Cell>, kind: Kind): (r: Frame)
    requires WellFormed(df) && |col| == |df.index|
    ensures WellFormed(r) && r.names == df.names + [name] && r.index == df.index
    ensures r.cols == df.cols + [col] && r.kinds == df.kinds + [kind]
  {
    Frame(df.names + [name], df.cols + [col], df.index, df.kinds + [kind])
  }

  /** The elements of `xs` where the mask `m` holds, in order. */
  function Keep<T>(xs: seq<T>, m: seq<bool>): (r: seq<T>)
    requires |m| == |xs|
    ensures |r| <= |xs|
  {
    if xs == [] then []
    else Keep(xs[..|xs| - 1], m[..|m| - 1]) + (if m[|m| - 1] then [xs[|xs| - 1]] else [])
  }

  /** `df[mask]`: the rows where the mask holds, with their labels, in order. */
  function Where(df: Frame, m: seq<bool>): (r: Frame)
    requires WellFormed(df) && |m| == |df.index|
    ensures WellFormed(r) && r.names == df.names && r.index == Keep(df.index, m) && r.kinds == df.kinds
    ensures forall j :: 0 <= j < |df.cols| ==> r.cols[j] == Keep(df.cols[j], m)
  {
    var cols := seq(|df.cols|, j requires 0 <= j < |df.cols| => Keep(df.cols[j], m));
    assert forall j :: 0 <= j < |cols| ==> |cols[j]| == |Keep(df.index, m)| by {
      forall j | 0 <= j < |cols|
        ensures |cols[j]| == |Keep(df.index, m)|
      {
        KeepLength(df.cols[j], df.index, m);
      }
    }
    Frame(df.names, cols, Keep(df.index, m), df.kinds)
  }

  /** Every numeric column holds numbers and missing values only. */
  predicate KindsAgree(df: Frame)
    requires WellFormed(df)
  {
    forall j :: 0 <= j < |df.cols| && df.kinds[j] == Number ==> !HasText(df.cols[j])
  }

  /** Selecting rows keeps every column's dtype, and a numeric column stays
      free of text. */
  lemma WhereKindsAgree(df: Frame, m: seq<bool>)
    requires WellFormed(df) && |m| == |df.index| && KindsAgree(df)
    ensures Where(df, m).kinds == df.kinds && KindsAgree(Where(df, m))
  {
    var r := Where(df, m);
    forall j, x | 0 <= j < |r.cols| && r.kinds[j] == Number && 0 <= x < |r.cols[j]|
      ensures !r.cols[j][x].Str?
    {
      var s := KeptSource(df.cols[j], m, x);
    }
  }

  /** How many elements a mask keeps does not depend on what it is applied to. */
  lemma {:induction false} KeepLength<T, U>(xs: seq<T>, ys: seq<U>, m: seq<bool>)
    requires |m| == |xs| == |ys|
    ensures |Keep(xs, m)| == |Keep(ys, m)|
  {
    if xs != [] {
      KeepLength(xs[..|xs| - 1], ys[..|ys| - 1], m[..|m| - 1]);
    }
  }

  /** A mask that holds everywhere keeps everything. */
  lemma {:induction false} KeepAll<T>(xs: seq<T>, m: seq<bool>)
    requires |m| == |xs| && forall i :: 0 <= i < |m| ==> m[i]
    ensures Keep(xs, m) == xs
  {
    if xs != [] {
      KeepAll(xs[..|xs| - 1], m[..|m| - 1]);
    }
  }

  /** What a mask keeps is what it holds at, and nothing else. */
  lemma {:induction false} KeepMember<T>(xs: seq<T>, m: seq<bool>, x: T)
    requires |m| == |xs|
    ensures x in Keep(xs, m) <==> exists i :: 0 <= i < |xs| && m[i] && xs[i] == x
  {
    if xs != [] {
      var n := |xs| - 1;
      KeepMember(xs[..n], m[..n], x);
      if x in Keep(xs, m) && x !in Keep(xs[..n], m[..n]) {
        assert m[n] && xs[n] == x;
      }
      if exists i :: 0 <= i < |xs| && m[i] && xs[i] == x {
        var i :| 0 <= i < |xs| && m[i] && xs[i] == x;
        if i < n {
          assert xs[..n][i] == x && m[..n][i];
        }
      }
    }
  }

  function And(a: seq<bool>, b: seq<bool>): (r: seq<bool>)
    requires |a| == |b|
    ensures |r| == |a| && forall i :: 0 <= i < |a| ==> r[i] == (a[i] && b[i])
  {
    seq(|a|, i requires 0 <= i < |a| => a[i] && b[i])
  }

  /** Selecting with `m1` and then with a mask over what is left is selecting
      once with both masks. */
  lemma {:induction false} KeepKeep<T>(xs: seq<T>, m1: seq<bool>, m2: seq<bool>)
    requires |m1| == |xs| && |m2| == |xs|
    ensures |Keep(m2, m1)| == |Keep(xs, m1)|
    ensures Keep(Keep(xs, m1), Keep(m2, m1)) == Keep(xs, And(m1, m2))
  {
    KeepLength(m2, xs, m1);
    if xs != [] {
      var n := |xs| - 1;
      KeepKeep(xs[..n], m1[..n], m2[..n]);
      KeepLength(m2[..n], xs[..n], m1[..n]);
      assert And(m1, m2)[..n] == And(m1[..n], m2[..n]);
      var a := Keep(xs[..n], m1[..n]);
      var b := Keep(m2[..n], m1[..n]);
      if m1[n] {
        assert Keep(xs, m1) == a + [xs[n]];
        assert Keep(m2, m1) == b + [m2[n]];
        assert (a + [xs[n]])[..|a|] == a;
        assert (b + [m2[n]])[..|b|] == b;
        assert Keep(a + [xs[n]], b + [m2[n]]) == Keep(a, b) + (if m2[n] then [xs[n]] else []);
      } else {
        assert Keep(xs, m1) == a && Keep(m2, m1) == b;
      }
      assert Keep(xs, And(m1, m2)) == Keep(xs[..n], And(m1, m2)[..n]) + (if m1[n] && m2[n] then [xs[n]] else []);
    }
  }

  /** A row selection followed by another is one selection with both masks. */
  lemma WhereWhere(df: Frame, m1: seq<bool>, m2: seq<bool>)
    requires WellFormed(df) && |m1| == |df.index| && |m2| == |df.index|
    ensures |Keep(m2, m1)| == |Where(df, m1).index|
    ensures Where(Where(df, m1), Keep(m2, m1)) == Where(df, And(m1, m2))
  {
    KeepKeep(df.index, m1, m2);
    var l := Where(Where(df, m1), Keep(m2, m1));
    var r := Where(df, And(m1, m2));
    forall j | 0 <= j < |df.cols|
      ensures l.cols[j] == r.cols[j]
    {
      KeepKeep(df.cols[j], m1, m2);
    }
  }

  lemma WhereAll(df: Frame, m: seq<bool>)
    requires WellFormed(df) && |m| == |df.index| && forall i :: 0 <= i < |m| ==> m[i]
    ensures Where(df, m) == df
  {
    KeepAll(df.index, m);
    forall j | 0 <= j < |df.cols|
      ensures Where(df, m).cols[j] == df.cols[j]
    {
      KeepAll(df.cols[j], m);
    }
  }

  /** How many entries of a mask hold. */
  function Trues(m: seq<bool>): (n: nat)
    ensures n <= |m|
  {
    if m == [] then 0 else Trues(m[..|m| - 1]) + (if m[|m| - 1] then 1 else 0)
  }

  /** A kept element sits in the result after the kept elements before it. */
  lemma {:induction false} KeepAt<T>(xs: seq<T>, m: seq<bool>, s: nat)
    requires |m| == |xs| && s < |xs| && m[s]
    ensures Trues(m[..s]) < |Keep(xs, m)| && Keep(xs, m)[Trues(m[..s])] == xs[s]
  {
    var n := |xs| - 1;
    KeepTrues(xs, m);
    if s < n {
      KeepAt(xs[..n], m[..n], s);
      assert m[..n][..s] == m[..s];
    } else {
      assert m[..n] == m[..s];
      KeepTrues(xs[..n], m[..n]);
    }
  }

  /** Keeping from one more element of a prefix appends it when it is kept. */
  lemma KeepPrefixStep<T>(xs: seq<T>, m: seq<bool>, k: nat)
    requires |m| == |xs| && k < |xs|
    ensures Keep(xs[..k + 1], m[..k + 1]) == Keep(xs[..k], m[..k]) + (if m[k] then [xs[k]] else [])
  {
    assert xs[..k + 1][..k] == xs[..k];
    assert m[..k + 1][..k] == m[..k];
  }

  lemma {:induction false} KeepTrues<T>(xs: seq<T>, m: seq<bool>)
    requires |m| == |xs|
    ensures |Keep(xs, m)| == Trues(m)
  {
    if xs != [] {
      KeepTrues(xs[..|xs| - 1], m[..|m| - 1]);
    }
  }

  /** Kept elements keep their relative order. */
  lemma {:induction false} TruesGrow(m: seq<bool>, s: nat, t: nat)
    requires s < t <= |m| && m[s]
    ensures Trues(m[..s]) < Trues(m[..t])
  {
    if t == s + 1 {
      assert m[..t][..s] == m[..s];
    } else {
      TruesGrow(m, s, t - 1);
      assert m[..t][..t - 1] == m[..t - 1];
    }
  }

  /** Every position of the result comes from a kept position of the input. */
  lemma {:induction false} KeepFrom<T>(xs: seq<T>, m: seq<bool>, x: nat)
    requires |m| == |xs| && x < |Keep(xs, m)|
    ensures exists s :: 0 <= s < |xs| && m[s] && Trues(m[..s]) == x && Keep(xs, m)[x] == xs[s]
  {
    var n := |xs| - 1;
    KeepTrues(xs[..n], m[..n]);
    if x < |Keep(xs[..n], m[..n])| {
      KeepFrom(xs[..n], m[..n], x);
      var s :| 0 <= s < n && m[..n][s] && Trues(m[..n][..s]) == x && Keep(xs[..n], m[..n])[x] == xs[..n][s];
      assert m[..n][..s] == m[..s];
    } else {
      assert m[n] && Trues(m[..n]) == x;
    }
  }

  /** The kept position a result element comes from. */
  lemma KeptSource<T>(xs: seq<T>, m: seq<bool>, x: nat) returns (s: nat)
    requires |m| == |xs| && x < |Keep(xs, m)|
    ensures s < |xs| && m[s] && Trues(m[..s]) == x && Keep(xs, m)[x] == xs[s]
  {
    KeepFrom(xs, m, x);
    s :| 0 <= s < |xs| && m[s] && Trues(m[..s]) == x && Keep(xs, m)[x] == xs[s];
  }
}
