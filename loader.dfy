/** Loading the tracer-study table (utils.py `load_data`): column labels are
    stripped and renamed through a fixed synonym table, four text columns are
    normalised, the location column is title-cased and mapped to canonical
    province names, and five numeric columns are locale-cleaned and parsed, a
    failed parse giving a missing value. Reading the CSV file is not modelled:
    the method starts from the table as read. */
module Loader {
  import opened Wrappers
  import opened Text
  import opened Numbers
  import opened Frames

  /** The synonym table: label as found in the file -> label the dashboard uses. */
  const RenameMap: map<string, string> := map[
    "tahun_angkatan" := "Tahun Angkatan",
    "tahun" := "Tahun Angkatan",
    "prodi" := "Program Studi",
    "program_studi" := "Program Studi",
    "konsentrasi_keahlian" := "Konsentrasi",
    "lokasi" := "Lokasi Geografis",
    "provinsi" := "Lokasi Geografis",
    "salary" := "Gaji",
    "gaji_bulanan" := "Gaji",
    "masa_tunggu" := "Masa Tunggu Kerja",
    "masa_tunggu_kerja_bulan" := "Masa Tunggu Kerja",
    "relevansi" := "Relevansi Kurikulum",
    "bidang" := "Bidang Industri"
  ]

  /** The province table, matched against whole, already title-cased values. */
  const ProvinceMap: map<string, string> := map[
    "Dki Jakarta" := "DKI Jakarta",
    "Jakarta" := "DKI Jakarta",
    "Jawa barat" := "Jawa Barat",
    "Jawa timur" := "Jawa Timur",
    "Jawa tengah" := "Jawa Tengah",
    "Yogyakarta" := "DI Yogyakarta",
    "Daerah Istimewa Yogyakarta" := "DI Yogyakarta",
    "Aceh darussalam" := "Aceh",
    "Kepulauan riau" := "Kepulauan Riau",
    "Bangka belitung" := "Kep. Bangka Belitung",
    "Kepulauan Bangka Belitung" := "Kep. Bangka Belitung",
    "Papua barat" := "Papua Barat",
    "Papua selatan" := "Papua Selatan",
    "Papua tengah" := "Papua Tengah",
    "Papua pegunungan" := "Papua Pegunungan"
  ]

  /** The text columns, in the order the loader normalises them. */
  const TextColumns: seq<string> := [Program, Konsentrasi, Lokasi, Bidang]

  /** The numeric columns, in the order the loader converts them. */
  const NumericColumns: seq<string> := [Gaji, Ipk, MasaTunggu, Relevansi, Tahun]

  // ---------------------------------------------------------------------------
  // Labels
  // ---------------------------------------------------------------------------

  function Rename(n: string): string {
    if n in RenameMap then RenameMap[n] else n
  }

  /** The label a column ends up with: stripped, then renamed if it is a synonym. */
  function CleanName(n: string): string {
    Rename(Strip(n))
  }

  function CleanNames(names: seq<string>): seq<string> {
    seq(|names|, j requires 0 <= j < |names| => CleanName(names[j]))
  }

  /** pandas reads `df[label]` as the first column with that label. */
  predicate IsFirst(names: seq<string>, j: nat)
    requires j < |names|
  {
    names[j] !in names[..j]
  }

  // ---------------------------------------------------------------------------
  // Cells
  // ---------------------------------------------------------------------------

  /** Strip and collapse, and for the location column title-case as well. */
  function NormalizeLabel(s: string, title: bool): string {
    if title then Title(NormalizeText(s)) else NormalizeText(s)
  }

  /** A text-column cell after `astype(str)` and the normalisation: a missing
      value prints as "nan" and is normalised as that text. */
  function TextCell(c: Cell, title: bool): (r: Cell)
    ensures c.Num? ==> r == c
    ensures !c.Num? ==> r.Str?
  {
    match c
    case Str(s) => Str(NormalizeLabel(s, title))
    case Null => Str(NormalizeLabel("nan", title))
    case Num(_) => c
  }

  /** `Series.replace(mapping_prov)`: a value equal to a key is replaced. */
  function CanonicalProvince(s: string): (r: string)
    ensures s in ProvinceMap ==> r in ProvinceMap.Values
    ensures s !in ProvinceMap ==> r == s
  {
    if s in ProvinceMap then ProvinceMap[s] else s
  }

  function ProvinceCell(c: Cell): Cell {
    match c
    case Str(s) => Str(CanonicalProvince(s))
    case _ => c
  }

  /** A numeric-column cell of a text-holding column: cleaned, then parsed; a
      parse failure is a missing value. A missing value prints as "nan", which
      parses to a missing value again. */
  function NumberCell(c: Cell): (r: Cell)
    ensures !r.Str?
    ensures !c.Str? ==> r == c
  {
    match c
    case Str(s) =>
      (match ParseDecimal(LocaleClean(s))
       case Some(v) => Num(v)
       case None => Null)
    case _ => c
  }

  /** The new cells of a text column. */
  function TextCells(col: seq<Cell>, title: bool): (r: seq<Cell>)
    ensures |r| == |col| && forall i :: 0 <= i < |col| ==> r[i] == TextCell(col[i], title)
  {
    seq(|col|, i requires 0 <= i < |col| => TextCell(col[i], title))
  }

  /** The new cells of the location column under the province table. */
  function ProvinceCells(col: seq<Cell>): (r: seq<Cell>)
    ensures |r| == |col| && forall i :: 0 <= i < |col| ==> r[i] == ProvinceCell(col[i])
  {
    seq(|col|, i requires 0 <= i < |col| => ProvinceCell(col[i]))
  }

  /** The new cells of a numeric column that holds text. */
  function NumberCells(col: seq<Cell>): (r: seq<Cell>)
    ensures |r| == |col| && forall i :: 0 <= i < |col| ==> r[i] == NumberCell(col[i])
  {
    seq(|col|, i requires 0 <= i < |col| => NumberCell(col[i]))
  }

  // ---------------------------------------------------------------------------
  // Columns
  // ---------------------------------------------------------------------------

  /** What the loader does to a column, decided by its label: the location
      column (the third text column, title-cased and mapped), another text
      column, a numeric column, or none of these. */
  datatype Role = Location | TextRole(pos: nat) | NumericRole(pos: nat) | Plain

  function RoleOf(n: string): (r: Role)
    ensures r.Location? <==> n == Lokasi
    ensures r.TextRole? ==> r.pos < |TextColumns| && TextColumns[r.pos] == n
    ensures r.NumericRole? ==> r.pos < |NumericColumns| && NumericColumns[r.pos] == n
    ensures r.Plain? ==> n !in TextColumns && n !in NumericColumns
  {
    if n == Lokasi then Location
    else match IndexOf(TextColumns, n)
      case Some(p) => TextRole(p)
      case None =>
        match IndexOf(NumericColumns, n)
        case Some(p) => NumericRole(p)
        case None => Plain
  }

  /** The position of the location column among the text columns. */
  const LocationPos: nat := 2

  /** The dtype `read_csv` gives a column: `object` when some value is text,
      numeric otherwise (a column with no value at all reads as float). */
  function ReadKind(col: seq<Cell>): (k: Kind)
    ensures k.Object? <==> HasText(col)
  {
    if HasText(col) then Object else Number
  }

  /** The loaded column `j` (labels already cleaned), given the column as read.
      Only the first column with a given label is rewritten. A numeric column is
      cleaned and parsed only when it was read with dtype `object`. */
  function LoadedColumn(names: seq<string>, j: nat, col: seq<Cell>): seq<Cell>
    requires j < |names|
  {
    if !IsFirst(names, j) then col
    else match RoleOf(names[j])
      case Location => ProvinceCells(TextCells(col, true))
      case TextRole(_) => TextCells(col, false)
      case NumericRole(_) => if ReadKind(col).Object? then NumberCells(col) else col
      case Plain => col
  }

  /** The dtype of loaded column `j`: `astype(str)` makes a text column
      `object`, `to_numeric` makes a numeric column numeric, and every other
      column keeps the dtype it was read with. */
  function LoadedKind(names: seq<string>, j: nat, col: seq<Cell>): Kind
    requires j < |names|
  {
    if !IsFirst(names, j) then ReadKind(col)
    else match RoleOf(names[j])
      case Location => Object
      case TextRole(_) => Object
      case NumericRole(_) => Number
      case Plain => ReadKind(col)
  }

  /** The whole loaded table. */
  function Loaded(raw: Frame): (df: Frame)
    requires WellFormed(raw)
    ensures WellFormed(df) && |df.names| == |raw.names| && df.index == raw.index
  {
    var names := CleanNames(raw.names);
    Frame(names, seq(|names|, j requires 0 <= j < |names| => LoadedColumn(names, j, raw.cols[j])), raw.index,
      seq(|names|, j requires 0 <= j < |names| => LoadedKind(names, j, raw.cols[j])))
  }

  /** Column `j` part-way through loading: after the first `textDone` text
      columns, the province mapping if `provinceDone`, and the first
      `numericDone` numeric columns. */
  function StagedColumn(names: seq<string>, j: nat, col: seq<Cell>,
                        textDone: nat, provinceDone: bool, numericDone: nat): seq<Cell>
    requires j < |names|
  {
    if !IsFirst(names, j) then col
    else match RoleOf(names[j])
      case Location =>
        var t := if LocationPos < textDone then TextCells(col, true) else col;
        if provinceDone then ProvinceCells(t) else t
      case TextRole(p) => if p < textDone then TextCells(col, false) else col
      case NumericRole(p) => if p < numericDone && ReadKind(col).Object? then NumberCells(col) else col
      case Plain => col
  }

  /** The dtype of column `j` part-way through loading. */
  function StagedKind(names: seq<string>, j: nat, col: seq<Cell>, textDone: nat, numericDone: nat): Kind
    requires j < |names|
  {
    if !IsFirst(names, j) then ReadKind(col)
    else match RoleOf(names[j])
      case Location => if LocationPos < textDone then Object else ReadKind(col)
      case TextRole(p) => if p < textDone then Object else ReadKind(col)
      case NumericRole(p) => if p < numericDone then Number else ReadKind(col)
      case Plain => ReadKind(col)
  }

  predicate Staged(raw: Frame, df: Frame, textDone: nat, provinceDone: bool, numericDone: nat)
    requires WellFormed(raw)
  {
    WellFormed(df) && df.names == CleanNames(raw.names) && df.index == raw.index &&
    (forall j :: 0 <= j < |df.names| ==>
      df.cols[j] == StagedColumn(df.names, j, raw.cols[j], textDone, provinceDone, numericDone)) &&
    forall j :: 0 <= j < |df.names| ==>
      df.kinds[j] == StagedKind(df.names, j, raw.cols[j], textDone, numericDone)
  }

  /** The label step of `load_data`: strip every label, then rename only when
      some label is a key of the synonym table. */
  method CleanLabels(labels: seq<string>) returns (names: seq<string>)
    ensures names == CleanNames(labels)
  {
    names := seq(|labels|, j requires 0 <= j < |labels| => Strip(labels[j]));
    if exists j :: 0 <= j < |names| && names[j] in RenameMap {
      names := seq(|names|, j requires 0 <= j < |names| => Rename(names[j]));
    } else {
      assert forall j :: 0 <= j < |names| ==> Rename(names[j]) == names[j];
    }
  }

  /** `load_data` after `read_csv`: labels, then the text loop, the province
      mapping and the numeric loop, each reassigning one column at a time. */
  method LoadData(raw: Frame) returns (df: Frame)
    requires WellFormed(raw)
    ensures df == Loaded(raw)
  {
    var names := CleanLabels(raw.names);
    df := Frame(names, raw.cols, raw.index, seq(|names|, j requires 0 <= j < |names| => ReadKind(raw.cols[j])));
    StagedStart(raw, df);
    df := NormalizeTextColumns(raw, df);
    df := MapProvinces(raw, df);
    df := ConvertNumericColumns(raw, df);
    StagedIsLoaded(raw, df);
  }

  /** The loop over the four text columns: each one present is turned into
      text, stripped and collapsed, and the location column title-cased. */
  method NormalizeTextColumns(ghost raw: Frame, df0: Frame) returns (df: Frame)
    requires WellFormed(raw) && Staged(raw, df0, 0, false, 0)
    ensures Staged(raw, df, |TextColumns|, false, 0)
  {
    df := df0;
    for k := 0 to |TextColumns|
      invariant Staged(raw, df, k, false, 0)
    {
      var name := TextColumns[k];
      match IndexOf(df.names, name)
      case Some(j0) =>
        TextStep(raw, df, k, j0);
        df := UpdateColumn(df, j0, TextCells(df.cols[j0], name == Lokasi), Object);
      case None =>
        TextStepAbsent(raw, df, k);
    }
  }

  /** The province table applied to the location column, when there is one. */
  method MapProvinces(ghost raw: Frame, df0: Frame) returns (df: Frame)
    requires WellFormed(raw) && Staged(raw, df0, |TextColumns|, false, 0)
    ensures Staged(raw, df, |TextColumns|, true, 0)
  {
    df := df0;
    match IndexOf(df.names, Lokasi)
    case Some(j0) =>
      ProvinceStep(raw, df, j0);
      df := UpdateColumn(df, j0, ProvinceCells(df.cols[j0]), df.kinds[j0]);
    case None =>
      ProvinceStepAbsent(raw, df);
  }

  /** The loop over the five numeric columns: each one present that was read
      as `object` is locale-cleaned, and then each one present is parsed and
      becomes numeric. */
  method ConvertNumericColumns(ghost raw: Frame, df0: Frame) returns (df: Frame)
    requires WellFormed(raw) && Staged(raw, df0, |TextColumns|, true, 0)
    ensures Staged(raw, df, |TextColumns|, true, |NumericColumns|)
  {
    df := df0;
    for k := 0 to |NumericColumns|
      invariant Staged(raw, df, |TextColumns|, true, k)
    {
      var name := NumericColumns[k];
      match IndexOf(df.names, name)
      case Some(j0) =>
        NumericStep(raw, df, k, j0);
        var col := df.cols[j0];
        if df.kinds[j0] == Object {
          col := NumberCells(col);
        }
        df := UpdateColumn(df, j0, col, Number);
      case None =>
        NumericStepAbsent(raw, df, k);
    }
  }

  // ---------------------------------------------------------------------------
  // The steps of LoadData
  // ---------------------------------------------------------------------------

  lemma RoleOfTextColumn(k: nat)
    requires k < |TextColumns|
    ensures RoleOf(TextColumns[k]) == if k == LocationPos then Location else TextRole(k)
  {
    assert TextColumns[k] !in TextColumns[..k];
  }

  lemma RoleOfNumericColumn(k: nat)
    requires k < |NumericColumns|
    ensures RoleOf(NumericColumns[k]) == NumericRole(k)
  {
    assert NumericColumns[k] !in NumericColumns[..k];
    assert NumericColumns[k] !in TextColumns;
  }

  /** Two columns that are each the first with their label and share a label are
      the same column. */
  lemma FirstUnique(names: seq<string>, j: nat, j0: nat)
    requires j < |names| && j0 < |names|
    ensures IsFirst(names, j) && IsFirst(names, j0) && names[j] == names[j0] ==> j == j0
  {
    if j < j0 {
      assert names[..j0][j] == names[j];
    } else if j0 < j {
      assert names[..j][j0] == names[j0];
    }
  }

  /** The text step for column `k` leaves every other column alone. */
  lemma TextStepOther(names: seq<string>, j: nat, col: seq<Cell>, k: nat)
    requires j < |names| && k < |TextColumns|
    requires names[j] != TextColumns[k] || !IsFirst(names, j)
    ensures StagedColumn(names, j, col, k + 1, false, 0) == StagedColumn(names, j, col, k, false, 0)
    ensures StagedKind(names, j, col, k + 1, 0) == StagedKind(names, j, col, k, 0)
  {
    assert TextColumns[LocationPos] == Lokasi;
  }

  /** The text step for column `k` normalises that column. */
  lemma TextStepHere(names: seq<string>, j: nat, col: seq<Cell>, k: nat)
    requires j < |names| && k < |TextColumns|
    requires names[j] == TextColumns[k] && IsFirst(names, j)
    ensures StagedColumn(names, j, col, k, false, 0) == col
    ensures StagedColumn(names, j, col, k + 1, false, 0) == TextCells(col, TextColumns[k] == Lokasi)
    ensures StagedKind(names, j, col, k + 1, 0) == Object
  {
    RoleOfTextColumn(k);
  }

  lemma TextStepAbsent(raw: Frame, df: Frame, k: nat)
    requires WellFormed(raw) && k < |TextColumns|
    requires Staged(raw, df, k, false, 0)
    requires TextColumns[k] !in df.names
    ensures Staged(raw, df, k + 1, false, 0)
  {
    forall j | 0 <= j < |df.names|
      ensures df.cols[j] == StagedColumn(df.names, j, raw.cols[j], k + 1, false, 0)
      ensures df.kinds[j] == StagedKind(df.names, j, raw.cols[j], k + 1, 0)
    {
      TextStepOther(df.names, j, raw.cols[j], k);
    }
  }

  /** One column of the text step: the rewritten column `j0` or any other. */
  lemma TextStepAt(raw: Frame, df: Frame, k: nat, j0: nat, j: nat)
    requires WellFormed(raw) && k < |TextColumns|
    requires Staged(raw, df, k, false, 0)
    requires IndexOf(df.names, TextColumns[k]) == Some(j0)
    requires j < |df.names|
    ensures var r := UpdateColumn(df, j0, TextCells(df.cols[j0], TextColumns[k] == Lokasi), Object);
      r.cols[j] == StagedColumn(r.names, j, raw.cols[j], k + 1, false, 0) &&
      r.kinds[j] == StagedKind(r.names, j, raw.cols[j], k + 1, 0)
  {
    var r := UpdateColumn(df, j0, TextCells(df.cols[j0], TextColumns[k] == Lokasi), Object);
    assert r.names == df.names;
    if j == j0 {
      assert df.cols[j] == StagedColumn(df.names, j, raw.cols[j], k, false, 0);
      TextStepHere(r.names, j, raw.cols[j], k);
    } else {
      assert r.cols[j] == df.cols[j] && r.kinds[j] == df.kinds[j];
      FirstUnique(r.names, j, j0);
      TextStepOther(r.names, j, raw.cols[j], k);
    }
  }

  lemma TextStep(raw: Frame, df: Frame, k: nat, j0: nat)
    requires WellFormed(raw) && k < |TextColumns|
    requires Staged(raw, df, k, false, 0)
    requires IndexOf(df.names, TextColumns[k]) == Some(j0)
    ensures Staged(raw, UpdateColumn(df, j0, TextCells(df.cols[j0], TextColumns[k] == Lokasi), Object), k + 1, false, 0)
  {
    var r := UpdateColumn(df, j0, TextCells(df.cols[j0], TextColumns[k] == Lokasi), Object);
    forall j | 0 <= j < |r.names|
      ensures r.cols[j] == StagedColumn(r.names, j, raw.cols[j], k + 1, false, 0)
      ensures r.kinds[j] == StagedKind(r.names, j, raw.cols[j], k + 1, 0)
    {
      TextStepAt(raw, df, k, j0, j);
    }
  }

  /** The province step, with the location column found at `j0` or absent
      (`j0` past the end), maps that column and leaves every other alone. */
  lemma ProvinceStepColumn(names: seq<string>, j: nat, col: seq<Cell>, j0: nat)
    requires j < |names|
    requires j0 < |names| ==> names[j0] == Lokasi && IsFirst(names, j0)
    requires j0 >= |names| ==> Lokasi !in names
    ensures StagedColumn(names, j, col, |TextColumns|, true, 0) ==
      if j == j0 then ProvinceCells(StagedColumn(names, j, col, |TextColumns|, false, 0))
      else StagedColumn(names, j, col, |TextColumns|, false, 0)
  {
    if j0 < |names| {
      FirstUnique(names, j, j0);
    }
  }

  lemma ProvinceStep(raw: Frame, df: Frame, j0: nat)
    requires WellFormed(raw)
    requires Staged(raw, df, |TextColumns|, false, 0)
    requires IndexOf(df.names, Lokasi) == Some(j0)
    ensures Staged(raw, UpdateColumn(df, j0, ProvinceCells(df.cols[j0]), df.kinds[j0]), |TextColumns|, true, 0)
  {
    var r := UpdateColumn(df, j0, ProvinceCells(df.cols[j0]), df.kinds[j0]);
    forall j | 0 <= j < |r.names|
      ensures r.cols[j] == StagedColumn(r.names, j, raw.cols[j], |TextColumns|, true, 0)
      ensures r.kinds[j] == StagedKind(r.names, j, raw.cols[j], |TextColumns|, 0)
    {
      ProvinceStepColumn(r.names, j, raw.cols[j], j0);
    }
  }

  lemma ProvinceStepAbsent(raw: Frame, df: Frame)
    requires WellFormed(raw)
    requires Staged(raw, df, |TextColumns|, false, 0)
    requires Lokasi !in df.names
    ensures Staged(raw, df, |TextColumns|, true, 0)
  {
    forall j | 0 <= j < |df.names|
      ensures df.cols[j] == StagedColumn(df.names, j, raw.cols[j], |TextColumns|, true, 0)
    {
      ProvinceStepColumn(df.names, j, raw.cols[j], |df.names|);
    }
  }

  /** The numeric step for column `k`, found at `j0` or absent (`j0` past the
      end): that column is still as read, and it alone may change. */
  lemma NumericStepColumn(names: seq<string>, j: nat, col: seq<Cell>, k: nat, j0: nat)
    requires j < |names| && k < |NumericColumns|
    requires j0 < |names| ==> names[j0] == NumericColumns[k] && IsFirst(names, j0)
    requires j0 >= |names| ==> NumericColumns[k] !in names
    ensures j == j0 ==> StagedColumn(names, j, col, |TextColumns|, true, k) == col
    ensures j == j0 ==>
      StagedColumn(names, j, col, |TextColumns|, true, k + 1) == (if ReadKind(col).Object? then NumberCells(col) else col)
    ensures j != j0 ==>
      StagedColumn(names, j, col, |TextColumns|, true, k + 1) == StagedColumn(names, j, col, |TextColumns|, true, k)
    ensures j == j0 ==> StagedKind(names, j, col, |TextColumns|, k) == ReadKind(col)
    ensures j == j0 ==> StagedKind(names, j, col, |TextColumns|, k + 1) == Number
    ensures j != j0 ==> StagedKind(names, j, col, |TextColumns|, k + 1) == StagedKind(names, j, col, |TextColumns|, k)
  {
    RoleOfNumericColumn(k);
    if j0 < |names| {
      FirstUnique(names, j, j0);
    }
  }

  lemma NumericStepAbsent(raw: Frame, df: Frame, k: nat)
    requires WellFormed(raw) && k < |NumericColumns|
    requires Staged(raw, df, |TextColumns|, true, k)
    requires NumericColumns[k] !in df.names
    ensures Staged(raw, df, |TextColumns|, true, k + 1)
  {
    forall j | 0 <= j < |df.names|
      ensures df.cols[j] == StagedColumn(df.names, j, raw.cols[j], |TextColumns|, true, k + 1)
      ensures df.kinds[j] == StagedKind(df.names, j, raw.cols[j], |TextColumns|, k + 1)
    {
      NumericStepColumn(df.names, j, raw.cols[j], k, |df.names|);
    }
  }

  /** A numeric column is still as read when its turn comes, so the dtype test
      sees the dtype read from the file. */
  lemma NumericStep(raw: Frame, df: Frame, k: nat, j0: nat)
    requires WellFormed(raw) && k < |NumericColumns|
    requires Staged(raw, df, |TextColumns|, true, k)
    requires IndexOf(df.names, NumericColumns[k]) == Some(j0)
    ensures df.cols[j0] == raw.cols[j0] && df.kinds[j0] == ReadKind(raw.cols[j0])
    ensures var col := if df.kinds[j0] == Object then NumberCells(df.cols[j0]) else df.cols[j0];
      |col| == |df.index| && Staged(raw, UpdateColumn(df, j0, col, Number), |TextColumns|, true, k + 1)
  {
    NumericStepColumn(df.names, j0, raw.cols[j0], k, j0);
    var col := if df.kinds[j0] == Object then NumberCells(df.cols[j0]) else df.cols[j0];
    var r := UpdateColumn(df, j0, col, Number);
    forall j | 0 <= j < |df.names|
      ensures r.cols[j] == StagedColumn(df.names, j, raw.cols[j], |TextColumns|, true, k + 1)
      ensures r.kinds[j] == StagedKind(df.names, j, raw.cols[j], |TextColumns|, k + 1)
    {
      NumericStepColumn(df.names, j, raw.cols[j], k, j0);
    }
  }

  /** Nothing is rewritten before the loops run. */
  lemma StagedStart(raw: Frame, df: Frame)
    requires WellFormed(raw)
    requires df.names == CleanNames(raw.names) && df.cols == raw.cols && df.index == raw.index
    requires df.kinds == seq(|df.names|, j requires 0 <= j < |df.names| => ReadKind(raw.cols[j]))
    ensures Staged(raw, df, 0, false, 0)
  {
    forall j | 0 <= j < |df.names|
      ensures df.cols[j] == StagedColumn(df.names, j, raw.cols[j], 0, false, 0)
      ensures df.kinds[j] == StagedKind(df.names, j, raw.cols[j], 0, 0)
    {
      StagedColumnStart(df.names, j, raw.cols[j]);
    }
  }

  lemma StagedIsLoaded(raw: Frame, df: Frame)
    requires WellFormed(raw)
    requires Staged(raw, df, |TextColumns|, true, |NumericColumns|)
    ensures df == Loaded(raw)
  {
    var l := Loaded(raw);
    forall j | 0 <= j < |df.names|
      ensures df.cols[j] == l.cols[j] && df.kinds[j] == l.kinds[j]
    {
      StagedColumnEnd(df.names, j, raw.cols[j]);
    }
  }

  lemma StagedColumnStart(names: seq<string>, j: nat, col: seq<Cell>)
    requires j < |names|
    ensures StagedColumn(names, j, col, 0, false, 0) == col
    ensures StagedKind(names, j, col, 0, 0) == ReadKind(col)
  {
  }

  lemma StagedColumnEnd(names: seq<string>, j: nat, col: seq<Cell>)
    requires j < |names|
    ensures StagedColumn(names, j, col, |TextColumns|, true, |NumericColumns|) == LoadedColumn(names, j, col)
    ensures StagedKind(names, j, col, |TextColumns|, |NumericColumns|) == LoadedKind(names, j, col)
  {
  }

  // ---------------------------------------------------------------------------
  // What loading guarantees
  // ---------------------------------------------------------------------------

  /** Every label is stripped; a label renamed is one whose stripped form is a
      key of the synonym table, and every other label keeps its stripped form. */
  lemma CleanNameSpec(n: string)
    ensures NoEdgeSpace(CleanName(n))
    ensures Strip(n) in RenameMap ==> CleanName(n) == RenameMap[Strip(n)]
    ensures Strip(n) !in RenameMap ==> CleanName(n) == Strip(n)
  {
    RenameTargetsTrimmed();
  }

  lemma RenameTargetsTrimmed()
    ensures forall k :: k in RenameMap ==> NoEdgeSpace(RenameMap[k])
  {
  }

  /** The labels keep their number and positions, and each is the cleaned label
      read at that position. */
  lemma LoadedNames(raw: Frame)
    requires WellFormed(raw)
    ensures |Loaded(raw).names| == |raw.names|
    ensures forall j :: 0 <= j < |raw.names| ==>
      Loaded(raw).names[j] == CleanName(raw.names[j]) && NoEdgeSpace(Loaded(raw).names[j])
  {
    forall j | 0 <= j < |raw.names|
      ensures NoEdgeSpace(CleanName(raw.names[j]))
    {
      CleanNameSpec(raw.names[j]);
    }
  }

  /** A text cell after loading: text, normalised, with the same non-whitespace
      characters as before, and loading it again changes nothing. A missing value
      becomes the text "nan". */
  lemma TextCellSpec(c: Cell)
    ensures c.Num? ==> TextCell(c, false) == c
    ensures !c.Num? ==> TextCell(c, false).Str? && IsNormalized(TextCell(c, false).s)
    ensures c.Str? ==> Squeeze(TextCell(c, false).s) == Squeeze(c.s)
    ensures c.Null? ==> TextCell(c, false) == Str("nan")
    ensures TextCell(TextCell(c, false), false) == TextCell(c, false)
  {
    match c
    case Str(s) => NormalizeTextSpec(s);
    case Null =>
      NanNormalized();
    case Num(_) =>
  }

  /** Title case keeps a normalised value normalised: it changes letters only. */
  lemma TitleNormalized(s: string)
    requires IsNormalized(s)
    ensures IsNormalized(Title(s))
  {
    TitleSpec(s);
    var t := Title(s);
    forall i | 0 <= i < |s|
      ensures IsSpace(t[i]) == IsSpace(s[i]) && (IsSpace(s[i]) ==> t[i] == s[i])
    {
    }
    forall i | 0 < i < |t|
      ensures NotBothSpace(t, i)
    {
      assert NotBothSpace(s, i);
    }
  }

  /** The text of the location column before the province table: normalised,
      then title-cased. */
  function LocationText(s: string): (r: string)
    ensures IsNormalized(r) && IsTitled(r)
  {
    NormalizeTextSpec(s);
    TitleNormalized(NormalizeText(s));
    TitleSpec(NormalizeText(s));
    NormalizeLabel(s, true)
  }

  /** A loaded location value is a canonical province name from the table, or a
      title-cased normalised value that is no key of the table. */
  lemma LocationCellSpec(c: Cell)
    ensures c.Num? ==> ProvinceCell(TextCell(c, true)) == c
    ensures !c.Num? ==>
      (ProvinceCell(TextCell(c, true)).Str? &&
       var v := ProvinceCell(TextCell(c, true)).s;
       v in ProvinceMap.Values || (v !in ProvinceMap && IsNormalized(v) && IsTitled(v)))
  {
    match c
    case Null => MissingLocation(); NanKept();
    case Str(s) => LocationTextSpec(s);
    case Num(_) =>
  }

  /** The location column's text step followed by the province table. */
  lemma LocationTextSpec(s: string)
    ensures TextCell(Str(s), true) == Str(LocationText(s))
    ensures var v := CanonicalProvince(LocationText(s));
      v in ProvinceMap.Values || (v !in ProvinceMap && IsNormalized(v) && IsTitled(v))
  {
    CanonicalOfLocation(LocationText(s));
  }

  /** The province table sends a normalised, title-cased value to a canonical
      name, or leaves it as it is when it is no key. */
  lemma CanonicalOfLocation(t: string)
    requires IsNormalized(t) && IsTitled(t)
    ensures var v := CanonicalProvince(t);
      v in ProvinceMap.Values || (v !in ProvinceMap && IsNormalized(v) && IsTitled(v))
  {
    if t in ProvinceMap {
      assert ProvinceMap[t] in ProvinceMap.Values;
    }
  }

  /** A key of the province table can be matched by some location value iff it
      is already title-cased: keys such as "Jawa barat" never match. */
  lemma KeyMatchable(k: string)
    requires IsNormalized(k)
    ensures (exists s :: LocationText(s) == k) <==> IsTitled(k)
  {
    if IsTitled(k) {
      StripNoEdge(k);
      CollapseSingleSpaced(k);
      TitledFixed(k);
      assert LocationText(k) == k;
    }
  }

  lemma JawaBaratNeverMatches(s: string)
    ensures LocationText(s) != "Jawa barat"
  {
    var k := "Jawa barat";
    assert k[5] != TitleAt(k, 5);
  }

  /** A missing location value becomes the text "Nan", which the province table
      leaves alone. */
  lemma MissingLocation()
    ensures ProvinceCell(TextCell(Null, true)) == Str("Nan")
  {
    NanNormalized();
    TitleNan();
    NanIsNoProvince();
    assert TextCell(Null, true) == Str("Nan");
  }

  lemma NanNormalized()
    ensures NormalizeText("nan") == "nan"
  {
    var s := "nan";
    assert forall i :: 0 <= i < |s| ==> s[i] in {'n', 'a'};
    NoSpaceNormalized(s);
  }

  lemma TitleNan()
    ensures Title("nan") == "Nan"
  {
    TitleFromAt("nan", false, 0);
    TitleFromAt("nan", false, 1);
    TitleFromAt("nan", false, 2);
  }

  /** "Nan" is normalised, title-cased and no key of the province table. */
  lemma NanKept()
    ensures "Nan" !in ProvinceMap && IsNormalized("Nan") && IsTitled("Nan")
  {
    TitleNan();
    NanNormalized();
    TitleNormalized("nan");
    TitleSpec(NormalizeText("nan"));
    NanIsNoProvince();
  }

  lemma NanIsNoProvince()
    ensures "Nan" !in ProvinceMap
  {
  }

  /** A numeric cell after loading is never text; a missing value or a number
      is kept, and a text that does not parse becomes missing. */
  lemma NumberCellSpec(c: Cell)
    ensures !NumberCell(c).Str?
    ensures !c.Str? ==> NumberCell(c) == c
    ensures c.Str? ==> (NumberCell(c).Null? <==> ParseDecimal(LocaleClean(c.s)).None?)
    ensures c.Str? && ParseDecimal(LocaleClean(c.s)).Some? ==>
      NumberCell(c) == Num(ParseDecimal(LocaleClean(c.s)).value)
  {
  }

  /** A loaded numeric column holds no text; one that held none is unchanged. */
  lemma NumericColumnSpec(names: seq<string>, j: nat, col: seq<Cell>)
    requires j < |names| && IsFirst(names, j) && RoleOf(names[j]).NumericRole?
    ensures !HasText(LoadedColumn(names, j, col))
    ensures !HasText(col) ==> LoadedColumn(names, j, col) == col
  {
    var r := LoadedColumn(names, j, col);
    forall i | 0 <= i < |r|
      ensures !r[i].Str?
    {
      if HasText(col) {
        NumberCellSpec(col[i]);
      }
    }
  }

  /** After loading, the text columns are `object`, the numeric columns are
      numeric, and no numeric column holds text. */
  lemma LoadedKinds(raw: Frame)
    requires WellFormed(raw)
    ensures var df := Loaded(raw);
      KindsAgree(df) &&
      forall j :: 0 <= j < |df.names| && IsFirst(df.names, j) ==>
        (df.names[j] in TextColumns ==> df.kinds[j] == Object) &&
        (df.names[j] in NumericColumns ==> df.kinds[j] == Number)
  {
    var df := Loaded(raw);
    forall j | 0 <= j < |df.names|
      ensures df.kinds[j] == Number ==> !HasText(df.cols[j])
      ensures IsFirst(df.names, j) && df.names[j] in TextColumns ==> df.kinds[j] == Object
      ensures IsFirst(df.names, j) && df.names[j] in NumericColumns ==> df.kinds[j] == Number
    {
      LoadedKindColumn(df.names, j, raw.cols[j]);
    }
  }

  lemma LoadedKindColumn(names: seq<string>, j: nat, col: seq<Cell>)
    requires j < |names|
    ensures LoadedKind(names, j, col) == Number ==> !HasText(LoadedColumn(names, j, col))
    ensures IsFirst(names, j) && names[j] in TextColumns ==> LoadedKind(names, j, col) == Object
    ensures IsFirst(names, j) && names[j] in NumericColumns ==> LoadedKind(names, j, col) == Number
  {
    if IsFirst(names, j) && RoleOf(names[j]).NumericRole? {
      NumericColumnSpec(names, j, col);
    }
  }

  /** Only the first column carrying one of the nine known labels is rewritten. */
  lemma UntouchedColumns(names: seq<string>, j: nat, col: seq<Cell>)
    requires j < |names| && (!IsFirst(names, j) || (names[j] !in TextColumns && names[j] !in NumericColumns))
    ensures LoadedColumn(names, j, col) == col
  {
  }
}
