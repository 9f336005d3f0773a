/** The global filters of the dashboard (utils.py `init_filters` and
    `apply_filters`): a session holding four selections and a flag, defaults
    set once to the sorted distinct values of their columns, and a filter that
    keeps the rows whose value lies in every non-empty selection. The sidebar
    widgets are not modelled; what they write back is the `Write` method. */
module Filters {
  import opened Wrappers
  import opened Frames

  // ---------------------------------------------------------------------------
  // The order `sorted` puts values in
  // ---------------------------------------------------------------------------

  /** Python's string order: by character code, a proper prefix first. */
  predicate StrLess(s: string, t: string) {
    t != [] && (s == [] || s[0] < t[0] || (s[0] == t[0] && StrLess(s[1..], t[1..])))
  }

  /** Numbers by value and texts by `StrLess`. `sorted` never sees a missing
      value (the lists are taken after `dropna`) and never a mix of numbers and
      texts (a loaded column holds one or the other); both are placed first so
      that the order is total. */
  predicate CellLess(a: Cell, b: Cell) {
    match (a, b)
    case (Num(x), Num(y)) => x < y
    case (Str(s), Str(t)) => StrLess(s, t)
    case (Null, Null) => false
    case (Null, _) => true
    case (Num(_), Str(_)) => true
    case _ => false
  }

  lemma {:induction false} StrLessIrreflexive(s: string)
    ensures !StrLess(s, s)
  {
    if s != [] {
      StrLessIrreflexive(s[1..]);
    }
  }

  lemma {:induction false} StrLessTransitive(s: string, t: string, u: string)
    requires StrLess(s, t) && StrLess(t, u)
    ensures StrLess(s, u)
  {
    if s != [] && s[0] == t[0] && t[0] == u[0] {
      StrLessTransitive(s[1..], t[1..], u[1..]);
    }
  }

  lemma {:induction false} StrLessTotal(s: string, t: string)
    ensures s == t || StrLess(s, t) || StrLess(t, s)
  {
    if s != [] && t != [] && s[0] == t[0] {
      StrLessTotal(s[1..], t[1..]);
      if s[1..] == t[1..] {
        assert s == [s[0]] + s[1..] && t == [t[0]] + t[1..];
      }
    }
  }

  /** `CellLess` is a strict total order. */
  lemma CellLessOrder(a: Cell, b: Cell, c: Cell)
    ensures !CellLess(a, a)
    ensures CellLess(a, b) && CellLess(b, c) ==> CellLess(a, c)
    ensures a == b || CellLess(a, b) || CellLess(b, a)
  {
    if a.Str? {
      StrLessIrreflexive(a.s);
    }
    if a.Str? && b.Str? && c.Str? && CellLess(a, b) && CellLess(b, c) {
      StrLessTransitive(a.s, b.s, c.s);
    }
    if a.Str? && b.Str? {
      StrLessTotal(a.s, b.s);
    }
  }

  predicate StrictlySorted(s: seq<Cell>) {
    forall i, j :: 0 <= i < j < |s| ==> CellLess(s[i], s[j])
  }

  // ---------------------------------------------------------------------------
  // Sorted distinct values: sorted(col.dropna().unique())
  // ---------------------------------------------------------------------------

  /** Puts `x` into a strictly sorted list, unless it is there already. */
  function Insert(x: Cell, s: seq<Cell>): (r: seq<Cell>)
    requires StrictlySorted(s)
    ensures StrictlySorted(r)
    ensures forall y :: y in r <==> y == x || y in s
  {
    if s == [] then [x]
    else if x == s[0] then s
    else if CellLess(x, s[0]) then
      InsertFront(x, s);
      [x] + s
    else
      var t := Insert(x, s[1..]);
      CellLessOrder(s[0], x, x);
      assert forall k :: 0 <= k < |t| ==> CellLess(s[0], t[k]) by {
        forall k | 0 <= k < |t|
          ensures CellLess(s[0], t[k])
        {
          if t[k] != x {
            assert t[k] in s[1..];
          }
        }
      }
      [s[0]] + t
  }

  lemma InsertFront(x: Cell, s: seq<Cell>)
    requires StrictlySorted(s) && s != [] && CellLess(x, s[0])
    ensures StrictlySorted([x] + s)
  {
    forall j | 0 <= j < |s|
      ensures CellLess(x, s[j])
    {
      if j > 0 {
        CellLessOrder(x, s[0], s[j]);
      }
    }
  }

  /** The distinct non-missing values of a column, in increasing order. */
  function SortedDistinct(col: seq<Cell>): (r: seq<Cell>)
    ensures StrictlySorted(r)
    ensures forall x :: x in r <==> x in col && !x.Null?
  {
    if col == [] then []
    else
      var n := |col| - 1;
      var r := SortedDistinct(col[..n]);
      assert col == col[..n] + [col[n]];
      if col[n].Null? then r else Insert(col[n], r)
  }

  /** The options offered for a filter column, and its first-time default: its
      sorted distinct values, or none when the column is missing. */
  function Options(df: Frame, name: string): (r: seq<Cell>)
    requires WellFormed(df)
    ensures StrictlySorted(r)
    ensures name !in df.names ==> r == []
    ensures name in df.names ==> forall x :: x in r <==> x in ColumnOf(df, name).value && !x.Null?
  {
    match ColumnOf(df, name)
    case Some(col) => SortedDistinct(col)
    case None => []
  }

  // ---------------------------------------------------------------------------
  // Applying the filters
  // ---------------------------------------------------------------------------

  /** One filter: its column and the selection stored for it (`None` when the
      session has no such key). */
  datatype Criterion = Criterion(column: string, selection: Option<seq<Cell>>)

  /** A filter restricts only with a non-empty selection on a column present. */
  predicate Active(df: Frame, c: Criterion) {
    c.selection.Some? && c.selection.value != [] && c.column in df.names
  }

  /** `col.isin(sel)`. */
  function IsIn(col: seq<Cell>, sel: seq<Cell>): (r: seq<bool>)
    ensures |r| == |col| && forall i :: 0 <= i < |col| ==> r[i] == (col[i] in sel)
  {
    seq(|col|, i requires 0 <= i < |col| => col[i] in sel)
  }

  function AllTrue(n: nat): (r: seq<bool>)
    ensures |r| == n && forall i :: 0 <= i < n ==> r[i]
  {
    seq(n, i => true)
  }

  /** The rows one filter lets through. */
  function CriterionMask(df: Frame, c: Criterion): (m: seq<bool>)
    requires WellFormed(df)
    ensures |m| == |df.index|
  {
    if Active(df, c) then IsIn(ColumnOf(df, c.column).value, c.selection.value)
    else AllTrue(|df.index|)
  }

  /** The rows all the filters let through. */
  function PassMask(df: Frame, cs: seq<Criterion>): (m: seq<bool>)
    requires WellFormed(df)
    ensures |m| == |df.index|
  {
    if cs == [] then AllTrue(|df.index|)
    else And(PassMask(df, cs[..|cs| - 1]), CriterionMask(df, cs[|cs| - 1]))
  }

  /** What `apply_filters` returns for the criteria in the order it tests them. */
  function ApplyFilters(df: Frame, cs: seq<Criterion>): (r: Frame)
    requires WellFormed(df)
    ensures WellFormed(r) && r.names == df.names
  {
    Where(df, PassMask(df, cs))
  }

  /** Row `i` passes filter `c`: the filter is inactive or selects the row's value. */
  predicate Holds(df: Frame, c: Criterion, i: nat)
    requires WellFormed(df) && i < |df.index|
  {
    Active(df, c) ==> ColumnOf(df, c.column).value[i] in c.selection.value
  }

  /** A row passes all filters iff each active filter holds its value. */
  lemma PassMaskSpec(df: Frame, cs: seq<Criterion>, i: nat)
    requires WellFormed(df) && i < |df.index|
    ensures PassMask(df, cs)[i] <==> forall k :: 0 <= k < |cs| ==> Holds(df, cs[k], i)
  {
    if PassMask(df, cs)[i] {
      PassMaskSound(df, cs, i);
    }
    if forall k :: 0 <= k < |cs| ==> Holds(df, cs[k], i) {
      PassMaskComplete(df, cs, i);
    }
  }

  lemma {:induction false} PassMaskSound(df: Frame, cs: seq<Criterion>, i: nat)
    requires WellFormed(df) && i < |df.index| && PassMask(df, cs)[i]
    ensures forall k :: 0 <= k < |cs| ==> Holds(df, cs[k], i)
  {
    if cs != [] {
      var n := |cs| - 1;
      var pre := cs[..n];
      assert PassMask(df, pre)[i] && CriterionMask(df, cs[n])[i];
      PassMaskSound(df, pre, i);
      CriterionMaskAt(df, cs[n], i);
      HoldsExtend(df, pre, cs[n], i);
      assert cs == pre + [cs[n]];
    }
  }

  lemma HoldsExtend(df: Frame, pre: seq<Criterion>, c: Criterion, i: nat)
    requires WellFormed(df) && i < |df.index|
    requires forall k :: 0 <= k < |pre| ==> Holds(df, pre[k], i)
    requires Holds(df, c, i)
    ensures forall k :: 0 <= k < |pre| + 1 ==> Holds(df, (pre + [c])[k], i)
  {
    forall k | 0 <= k < |pre| + 1
      ensures Holds(df, (pre + [c])[k], i)
    {
      if k < |pre| {
        assert (pre + [c])[k] == pre[k];
      }
    }
  }

  lemma {:induction false} PassMaskComplete(df: Frame, cs: seq<Criterion>, i: nat)
    requires WellFormed(df) && i < |df.index|
    requires forall k :: 0 <= k < |cs| ==> Holds(df, cs[k], i)
    ensures PassMask(df, cs)[i]
  {
    if cs != [] {
      var n := |cs| - 1;
      var pre := cs[..n];
      forall k | 0 <= k < n
        ensures Holds(df, pre[k], i)
      {
        assert pre[k] == cs[k];
      }
      PassMaskComplete(df, pre, i);
      CriterionMaskAt(df, cs[n], i);
      assert PassMask(df, cs)[i] == (PassMask(df, pre)[i] && CriterionMask(df, cs[n])[i]);
    }
  }

  lemma CriterionMaskAt(df: Frame, c: Criterion, i: nat)
    requires WellFormed(df) && i < |df.index|
    ensures CriterionMask(df, c)[i] <==> Holds(df, c, i)
  {
  }

  /** `isin` on a selected frame is the selection of `isin` on the frame. */
  lemma IsInKeep(col: seq<Cell>, sel: seq<Cell>, m: seq<bool>)
    requires |m| == |col|
    ensures |Keep(IsIn(col, sel), m)| == |Keep(col, m)|
    ensures IsIn(Keep(col, m), sel) == Keep(IsIn(col, sel), m)
    decreases |col|
  {
    KeepLength(IsIn(col, sel), col, m);
    if col != [] {
      var n := |col| - 1;
      IsInKeep(col[..n], sel, m[..n]);
      assert IsIn(col, sel)[..n] == IsIn(col[..n], sel);
      var k := Keep(col[..n], m[..n]);
      if m[n] {
        assert IsIn(k + [col[n]], sel) == IsIn(k, sel) + [col[n] in sel];
      }
    }
  }

  /** One more filter, applied to what the earlier ones let through, gives what
      all of them let through. */
  lemma FilterStep(df: Frame, pre: seq<Criterion>, c: Criterion)
    requires WellFormed(df)
    ensures Active(ApplyFilters(df, pre), c) == Active(df, c)
    ensures !Active(df, c) ==> ApplyFilters(df, pre + [c]) == ApplyFilters(df, pre)
    ensures Active(df, c) ==>
      var d := ApplyFilters(df, pre);
      ApplyFilters(df, pre + [c]) == Where(d, IsIn(ColumnOf(d, c.column).value, c.selection.value))
  {
    var m := PassMask(df, pre);
    var d := ApplyFilters(df, pre);
    var cs := pre + [c];
    assert cs[..|cs| - 1] == pre;
    if Active(df, c) {
      var col := ColumnOf(df, c.column).value;
      var sel := c.selection.value;
      assert ColumnOf(d, c.column).value == Keep(col, m);
      IsInKeep(col, sel, m);
      WhereWhere(df, m, IsIn(col, sel));
    } else {
      assert And(m, AllTrue(|df.index|)) == m;
    }
  }

  /** One block of `apply_filters`: with a non-empty selection and the column
      present, keep the rows whose value is selected; otherwise keep all. */
  method FilterBy(d: Frame, c: Criterion) returns (d2: Frame)
    requires WellFormed(d)
    ensures d2 == if Active(d, c) then Where(d, IsIn(ColumnOf(d, c.column).value, c.selection.value)) else d
  {
    d2 := d;
    if c.selection.Some? && c.selection.value != [] {
      match IndexOf(d.names, c.column)
      case Some(j) =>
        d2 := Where(d, IsIn(d.cols[j], c.selection.value));
      case None =>
    }
  }

  // ---------------------------------------------------------------------------
  // What filtering guarantees
  // ---------------------------------------------------------------------------

  /** Every row returned holds, in each column with an active filter, a value
      of that filter's selection. */
  lemma FilterSound(df: Frame, cs: seq<Criterion>, k: nat, t: nat)
    requires WellFormed(df) && k < |cs| && Active(df, cs[k])
    requires t < |ApplyFilters(df, cs).index|
    ensures ColumnOf(ApplyFilters(df, cs), cs[k].column).value[t] in cs[k].selection.value
  {
    var m := PassMask(df, cs);
    var col := ColumnOf(df, cs[k].column).value;
    var sel := cs[k].selection.value;
    IsInKeep(col, sel, m);
    KeepLength(IsIn(col, sel), df.index, m);
    var kept := Keep(IsIn(col, sel), m);
    KeepMember(IsIn(col, sel), m, false);
    forall i | 0 <= i < |m| && m[i]
      ensures IsIn(col, sel)[i]
    {
      PassMaskSpec(df, cs, i);
      assert Holds(df, cs[k], i);
    }
    assert kept[t] in kept;
  }

  /** A row of the input is returned iff it passes every active filter; rows
      keep their labels and their order. */
  lemma FilterComplete(df: Frame, cs: seq<Criterion>, i: nat)
    requires WellFormed(df) && i < |df.index|
    requires forall a, b :: 0 <= a < |df.index| && 0 <= b < |df.index| && df.index[a] == df.index[b] ==> a == b
    ensures ApplyFilters(df, cs).index == Keep(df.index, PassMask(df, cs))
    ensures df.index[i] in ApplyFilters(df, cs).index <==> forall k :: 0 <= k < |cs| ==> Holds(df, cs[k], i)
  {
    var m := PassMask(df, cs);
    PassMaskSpec(df, cs, i);
    KeepMember(df.index, m, df.index[i]);
    if df.index[i] in Keep(df.index, m) {
      var j :| 0 <= j < |df.index| && m[j] && df.index[j] == df.index[i];
      assert j == i;
    }
  }

  /** With no filter active the frame comes back unchanged. */
  lemma FilterInactive(df: Frame, cs: seq<Criterion>)
    requires WellFormed(df) && forall k :: 0 <= k < |cs| ==> !Active(df, cs[k])
    ensures ApplyFilters(df, cs) == df
  {
    forall i | 0 <= i < |df.index|
      ensures PassMask(df, cs)[i]
    {
      PassMaskSpec(df, cs, i);
    }
    WhereAll(df, PassMask(df, cs));
  }

  /** Filtering what was filtered with the same selections changes nothing. */
  lemma FilterIdempotent(df: Frame, cs: seq<Criterion>)
    requires WellFormed(df)
    ensures ApplyFilters(ApplyFilters(df, cs), cs) == ApplyFilters(df, cs)
  {
    var m := PassMask(df, cs);
    var d := ApplyFilters(df, cs);
    forall t | 0 <= t < |d.index|
      ensures PassMask(d, cs)[t]
    {
      PassMaskSpec(d, cs, t);
      forall k | 0 <= k < |cs|
        ensures Holds(d, cs[k], t)
      {
        if Active(d, cs[k]) {
          FilterSound(df, cs, k, t);
        }
      }
    }
    WhereAll(d, PassMask(d, cs));
  }

  // ---------------------------------------------------------------------------
  // The defaults
  // ---------------------------------------------------------------------------

  /** The filter columns, in the order `apply_filters` tests them. */
  const FilterColumns: seq<string> := [Tahun, Program, Konsentrasi, Lokasi]

  /** The selections right after the first `init_filters`: every option of
      every filter column. */
  function DefaultCriteria(df: Frame): (cs: seq<Criterion>)
    requires WellFormed(df)
    ensures |cs| == |FilterColumns|
    ensures forall k :: 0 <= k < |cs| ==> cs[k] == Criterion(FilterColumns[k], Some(Options(df, FilterColumns[k])))
  {
    seq(|FilterColumns|, k requires 0 <= k < |FilterColumns| =>
      Criterion(FilterColumns[k], Some(Options(df, FilterColumns[k]))))
  }

  /** The default criteria written out, one per filter column. */
  lemma DefaultCriteriaList(df: Frame)
    requires WellFormed(df)
    ensures DefaultCriteria(df) ==
      [Criterion(Tahun, Some(Options(df, Tahun))), Criterion(Program, Some(Options(df, Program))),
       Criterion(Konsentrasi, Some(Options(df, Konsentrasi))), Criterion(Lokasi, Some(Options(df, Lokasi)))]
  {
    var cs := DefaultCriteria(df);
    assert cs[0] == Criterion(Tahun, Some(Options(df, Tahun)));
    assert cs[1] == Criterion(Program, Some(Options(df, Program)));
    assert cs[2] == Criterion(Konsentrasi, Some(Options(df, Konsentrasi)));
    assert cs[3] == Criterion(Lokasi, Some(Options(df, Lokasi)));
  }

  /** A column with at least one value that is not missing. */
  predicate HasValue(col: seq<Cell>) {
    exists i :: 0 <= i < |col| && !col[i].Null?
  }

  /** Row `i` has a value in column `name`, or the column is absent or has no
      value at all. */
  predicate KeptByDefault(df: Frame, name: string, i: nat)
    requires WellFormed(df) && i < |df.index|
  {
    name in df.names && HasValue(ColumnOf(df, name).value) ==> !ColumnOf(df, name).value[i].Null?
  }

  lemma DefaultTerm(df: Frame, name: string, i: nat)
    requires WellFormed(df) && i < |df.index|
    ensures Holds(df, Criterion(name, Some(Options(df, name))), i) <==> KeptByDefault(df, name, i)
  {
    var opts := Options(df, name);
    if name in df.names {
      var col := ColumnOf(df, name).value;
      if HasValue(col) {
        var t :| 0 <= t < |col| && !col[t].Null?;
        assert col[t] in opts;
      }
      if opts != [] {
        assert opts[0] in col;
        var t :| 0 <= t < |col| && col[t] == opts[0];
        assert !col[t].Null?;
      }
      assert col[i] in opts <==> !col[i].Null?;
    }
  }

  /** Under the defaults a row is dropped iff it has a missing value in a filter
      column that has some value: `isin` over the options never matches a
      missing value. Every other row is kept. */
  lemma DefaultsDropMissing(df: Frame, i: nat)
    requires WellFormed(df) && i < |df.index|
    ensures PassMask(df, DefaultCriteria(df))[i] <==>
      forall k :: 0 <= k < |FilterColumns| ==> KeptByDefault(df, FilterColumns[k], i)
  {
    var cs := DefaultCriteria(df);
    PassMaskSpec(df, cs, i);
    forall k | 0 <= k < |FilterColumns|
      ensures Holds(df, cs[k], i) <==> KeptByDefault(df, FilterColumns[k], i)
    {
      DefaultTerm(df, FilterColumns[k], i);
    }
  }

  // ---------------------------------------------------------------------------
  // The session
  // ---------------------------------------------------------------------------

  /** Which stored selection a sidebar widget writes. */
  datatype Key = TahunKey | ProgramKey | KonsentrasiKey | LokasiKey

  /** The part of `st.session_state` the filters use: the flag and the four
      selections (`None` while the key is absent). */
  class FilterSession {
    var initialized: bool
    var tahun: Option<seq<Cell>>
    var program: Option<seq<Cell>>
    var konsentrasi: Option<seq<Cell>>
    var lokasi: Option<seq<Cell>>

    /** A fresh session: no flag, no selections. */
    constructor()
      ensures !initialized && tahun.None? && program.None? && konsentrasi.None? && lokasi.None?
    {
      initialized := false;
      tahun, program, konsentrasi, lokasi := None, None, None, None;
    }

    /** The criteria `apply_filters` reads, in its order. */
    function Criteria(): (cs: seq<Criterion>)
      reads this
      ensures |cs| == |FilterColumns|
      ensures forall k :: 0 <= k < |cs| ==> cs[k].column == FilterColumns[k]
    {
      [Criterion(Tahun, tahun), Criterion(Program, program),
       Criterion(Konsentrasi, konsentrasi), Criterion(Lokasi, lokasi)]
    }

    /** The first call sets the flag and every selection to all the options of
        its column; a later call changes nothing. */
    method InitFilters(df: Frame)
      requires WellFormed(df)
      modifies this
      ensures initialized
      ensures old(initialized) ==> Criteria() == old(Criteria())
      ensures !old(initialized) ==> Criteria() == DefaultCriteria(df)
    {
      if !initialized {
        initialized := true;
        var years := Options(df, Tahun);
        var kons := Options(df, Konsentrasi);
        var lok := Options(df, Lokasi);
        var prog := Options(df, Program);
        tahun := Some(years);
        konsentrasi := Some(kons);
        lokasi := Some(lok);
        program := Some(prog);
        DefaultCriteriaList(df);
      }
    }

    /** A sidebar widget stores the user's selection under its key; nothing
        else changes. */
    method Write(key: Key, values: seq<Cell>)
      modifies this
      ensures initialized == old(initialized)
      ensures tahun == (if key.TahunKey? then Some(values) else old(tahun))
      ensures program == (if key.ProgramKey? then Some(values) else old(program))
      ensures konsentrasi == (if key.KonsentrasiKey? then Some(values) else old(konsentrasi))
      ensures lokasi == (if key.LokasiKey? then Some(values) else old(lokasi))
    {
      match key
      case TahunKey => tahun := Some(values);
      case ProgramKey => program := Some(values);
      case KonsentrasiKey => konsentrasi := Some(values);
      case LokasiKey => lokasi := Some(values);
    }

    /** `apply_filters`: start from a copy and, for each filter in turn, keep
        only the rows whose value is selected when the selection is non-empty
        and the column present. The session and the input are not changed. */
    method Apply(df: Frame) returns (df2: Frame)
      requires WellFormed(df)
      ensures df2 == ApplyFilters(df, Criteria())
    {
      var cs := Criteria();
      df2 := df;
      WhereAll(df, PassMask(df, []));
      for k := 0 to |cs|
        invariant df2 == ApplyFilters(df, cs[..k])
      {
        var c := cs[k];
        FilterStep(df, cs[..k], c);
        assert cs[..k + 1] == cs[..k] + [c];
        df2 := FilterBy(df2, c);
      }
      assert cs[..|cs|] == cs;
    }
  }
}
