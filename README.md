# Tracer-study dashboard: the deterministic core

The dashboard reads a tracer study of electrical-engineering alumni, lets the
user filter it by entry year, study programme, concentration and province, and
writes short automatic insights next to its charts. This project models the
logic that sits between the table and the charts, and proves what that logic
promises:

- **Loading** (`utils.py` `load_data`, module `Loader`, with `Text` and
  `Numbers`). Column labels are stripped and renamed through a synonym table.
  Four text columns are stripped and their whitespace runs collapsed. The
  location column is also title-cased and mapped through a province table.
  Five numeric columns are locale-cleaned when they hold text (every `.`
  deleted, then every `,` turned into `.`) and parsed; a failed parse gives a
  missing value. `LoadData` is a method whose three loops reassign one column
  at a time; it is proved equal to `Loaded`, a column-by-column definition.
- **Filters** (`init_filters`, `apply_filters`, module `Filters`). The session
  is the class `FilterSession`, with four optional selections and the
  "initialised" flag. A first initialisation stores the sorted, distinct,
  non-missing values of each column. `Apply` runs the four guarded steps as a
  loop over the criteria and is proved equal to `ApplyFilters`: the rows that
  pass every active criterion, in order, with their labels.
- **Home page** (`app.py`, modules `Overview`, `Counts` and `Correlation`):
  - the skew note on rounded statistics;
  - the dominance warning over the first three text columns;
  - the top province;
  - the strong-correlation scan, a nested loop (`ScanStrong`);
  - the `seen`-set report, a second loop (`Report`);
  - the second province normalisation before the map.
- **Correlation page** (`pages/5_Korelasi.py`, module `Korelasi`):
  - the section guard;
  - the same scan and report;
  - the scatter note;
  - the skew note with `+ 1e-9` and no zero guard.
- **EDA page** (`pages/6_EDA.py`, module `Eda`):
  - quartiles by linear interpolation over the sorted numbers, the IQR fences
    and the outlier rows;
  - the skew note without a guard;
  - the dominance warning that also needs more than five categories;
  - the strict correlation list that keeps both orientations.
- **Cluster page** (`pages/4_Klaster.py`, module `Klaster`):
  - the candidate columns;
  - the rows with no missing value in the chosen columns;
  - the `len < k` guard;
  - the `Cluster` column;
  - the per-cluster notes, computed by methods that append in a loop.
- **Feedback page** (`pages/3_Sentimen.py`, module `Sentimen`): the keyword
  rule `quick_sent` and the Sentiment column it adds when the table has none.

A cell is `Null`, `Str(s)` or `Num(x)` with `x` a `real`. A table (`Frame`)
holds its column labels, its columns and its row labels. Library statistics
(means, medians, Pearson correlations, k-means labels, the per-cluster means)
are parameters of the rules that read them.

## Model

| member | source | states |
|---|---|---|
| Text.Lower | pages/3_Sentimen.py:22 | `str.lower` on ASCII: same length, each character lower-cased, other characters unchanged |
| Text.ToLower | pages/3_Sentimen.py:22 | one character lower-cased: a letter becomes the lower-case of the same letter, any other character is unchanged |
| Text.LowerIdempotent | pages/3_Sentimen.py:22 | lower-casing twice is lower-casing once |
| Text.Strip | utils.py:46 | `str.strip`: the result has no whitespace at either end |
| Text.TrimStart | utils.py:46 | the leading whitespace removed: a suffix of the input, starting with no whitespace, with only whitespace cut off |
| Text.TrimEnd | utils.py:46 | the trailing whitespace removed: a prefix of the input, ending with no whitespace, with only whitespace cut off |
| Text.SqueezeStrip | utils.py:46 | stripping removes whitespace only: the non-whitespace characters are kept in order |
| Text.Collapse | utils.py:47 | `\s+` -> `" "`: empty iff the input is, keeps whether each end is whitespace, and no two whitespace characters are adjacent |
| Text.TrimStartAppend | utils.py:46 | text appended after a part holding a non-whitespace character is kept whole by trimming the start |
| Text.TrimStartSpaces | utils.py:46-47 | a whitespace run before text that starts with no whitespace is trimmed away entirely |
| Text.CollapseAppend | utils.py:47 | collapsing splits at a point not preceded by whitespace: the two parts collapse independently |
| Text.CollapseRun | utils.py:47 | a whitespace run between non-whitespace neighbours becomes exactly one plain space |
| Text.SqueezeCollapse | utils.py:47 | collapsing keeps every non-whitespace character, in order |
| Text.CollapseSingleSpaced | utils.py:47 | a text with no two adjacent whitespace characters is left unchanged |
| Text.NormalizeTextSpec | utils.py:43-48 | a normalised text has no edge whitespace and no whitespace run, keeps the non-whitespace characters, and normalising again changes nothing |
| Text.TitleSpec | utils.py:51 | `str.title`: same length; a letter is upper-case iff no letter precedes it; the result is title-cased; title-casing again changes nothing |
| Text.Title | utils.py:51 | `str.title` keeps the length |
| Text.TitledFixed | app.py:62 | title-casing a title-cased text changes nothing |
| Numbers.DeleteChar | utils.py:88 | `replace(".", "")`: no `.` is left, and the length drops by the number of `.` |
| Numbers.CountReplace | utils.py:89 | replacing one character by another leaves none of the first, adds their number to the second's count, and keeps every other count |
| Numbers.CountDelete | utils.py:88 | deleting a character leaves every other character's count as it was |
| Numbers.LocaleCleanSpec | utils.py:85-90 | after locale cleaning: no `,`; length is input length minus the `.` count; the `.` count is the former `,` count; other characters counted as before |
| Numbers.LocaleClean | utils.py:85-90 | cleaning shortens the text by exactly its number of `.` |
| Numbers.ParseShowNat | utils.py:91 | `to_numeric` reads a digit string as its value |
| Numbers.ParseDecimal | utils.py:91 | `to_numeric` on a text: a negative value only from a leading `-`, and a leading `-` never gives a positive value |
| Numbers.ParseWholeAndFraction | utils.py:91 | `to_numeric` reads `whole.frac` as the decimal it writes |
| Numbers.ParseCleanedAmount | utils.py:85-91 | an amount with `.` grouping and a `,` decimal part is read as the intended decimal |
| Numbers.DotReadAsGrouping | utils.py:88-91 | the text "1.5" is read as 15: the `.` is taken for a grouping dot |
| Numbers.NotANumber | utils.py:91 | "n/a" and "" do not parse, so they become missing values |
| Numbers.RoundHalfEven | app.py:145-148 | Python `round`: within 0.5 of the input, and an exact half goes to the even integer |
| Numbers.RoundHalfEvenUnique | app.py:145-148 | any integer meeting those two conditions is `round`'s result |
| Numbers.Round2 | app.py:140-143 | `round(x, 2)` is within 0.005 of `x` |
| Numbers.NumpyRatioAboveSpec | pages/6_EDA.py:85 | `num / den > limit` in float64, without division: over a positive `den` iff `num > limit * den`, never over a negative one, over zero iff `num > 0` |
| Frames.UpdateColumn | utils.py:43-48 | `df[col] = ...` on an existing label replaces that column only |
| Frames.AddColumn | pages/3_Sentimen.py:30 | `df[name] = ...` on a new label appends a last column, rows unchanged |
| Frames.Where | utils.py:138 | `df[mask]`: every column and the row labels restricted to the rows where the mask holds, in order |
| Frames.KeepMember | utils.py:138 | a value is selected iff it sits at a position where the mask holds |
| Frames.WhereWhere | utils.py:136-153 | two successive selections are one selection with both masks |
| Frames.KeepKeep | utils.py:136-153 | a selection over a selection is one selection with the conjunction of the masks |
| Frames.WhereAll | utils.py:134-153 | a mask that holds everywhere leaves the table unchanged |
| Frames.KeepTrues | utils.py:138 | a selection keeps as many rows as the mask holds at |
| Frames.KeepAt | utils.py:138 | a kept row sits at the position given by the number of kept rows before it |
| Frames.WhereKindsAgree | utils.py:138 | `df[mask]` keeps every column's dtype, and a numeric column still holds no text |
| Loader.CleanLabels | utils.py:12-33 | the label loop gives each label stripped, then renamed when it is a key of the synonym table |
| Loader.CleanNameSpec | utils.py:12-33 | a label ends with no edge whitespace; a stripped key is replaced by its target, any other label keeps its stripped text |
| Loader.RenameTargetsTrimmed | utils.py:15-30 | no target of the synonym table has edge whitespace |
| Loader.LoadedNames | utils.py:12-33 | loading keeps every column at its position under its cleaned label, and no label keeps edge whitespace |
| Loader.RoleOf | utils.py:36-81 | a label is the location column, one of the other text columns, one of the numeric columns, or none of them |
| Loader.ReadKind | utils.py:9 | `read_csv` gives a column `object` dtype iff some value in it is text |
| Loader.TextCell | utils.py:43-51 | a number is kept; any other cell becomes text |
| Loader.CanonicalProvince | utils.py:55-72 | `replace(mapping_prov)`: a key becomes one of the canonical names, any other text is kept |
| Loader.NumberCell | utils.py:85-91 | a numeric-column cell never stays text, and a cell that was not text is kept |
| Loader.LoadData | utils.py:8-93 | the loaded table equals `Loaded`: labels cleaned, each listed column rewritten by its role, every other column and every row label unchanged |
| Loader.Loaded | utils.py:8-93 | the loaded table keeps the number of columns and the row labels |
| Loader.LoadedKinds | utils.py:9-91 | after loading a numeric-dtype column holds no text, every present text column is `object` and every present numeric column is numeric |
| Loader.TextCells | utils.py:43-51 | a text column is rewritten cell by cell, each cell on its own |
| Loader.ProvinceCells | utils.py:72 | `replace(mapping_prov)` rewrites the location column cell by cell |
| Loader.NumberCells | utils.py:85-91 | a numeric column is cleaned and parsed cell by cell |
| Loader.StagedStart | utils.py:12-33 | after the labels are cleaned and before any column is rewritten, no loop has run |
| Loader.TextStep | utils.py:42-51 | rewriting the next present text column advances the text loop by one |
| Loader.TextStepAbsent | utils.py:42 | a text column that is not present is skipped |
| Loader.ProvinceStep | utils.py:54-72 | mapping the present location column completes the province step |
| Loader.ProvinceStepAbsent | utils.py:54 | without a location column the province step changes nothing |
| Loader.NumericStep | utils.py:82-91 | the next present numeric column is still as read; it is cleaned and parsed when it holds text and left alone otherwise |
| Loader.NumericStepAbsent | utils.py:82 | a numeric column that is not present is skipped |
| Loader.StagedColumnEnd | utils.py:36-91 | once all loops are done each column is its loaded column |
| Loader.NormalizeTextColumns | utils.py:36-51 | after the text loop every present text column is normalised (the location column title-cased too) and nothing else changed |
| Loader.MapProvinces | utils.py:54-72 | after the mapping only the location column changed, each value replaced by its table entry when it is a key |
| Loader.ConvertNumericColumns | utils.py:75-91 | after the numeric loop every present numeric column holding text is cleaned and parsed, and the others are unchanged |
| Loader.StagedIsLoaded | utils.py:36-91 | once all three loops are done the table is the loaded table |
| Loader.TextCellSpec | utils.py:43-48 | a number is untouched; other cells become normalised text; a missing value becomes "nan"; text keeps its non-whitespace characters; a second pass changes nothing |
| Loader.LocationText | utils.py:43-51 | a location text comes out normalised and title-cased |
| Loader.LocationCellSpec | utils.py:43-72 | a loaded location is a number left as it was, or text that is a canonical province name, or normalised title-cased text that is not a key of the table |
| Loader.LocationTextSpec | utils.py:43-72 | a location text is normalised and title-cased, and mapping it gives a canonical name or a normalised title-cased non-key |
| Loader.CanonicalOfLocation | utils.py:55-72 | mapping a normalised title-cased text gives a canonical name, or the text itself when it is not a key |
| Loader.KeyMatchable | utils.py:51-72 | a normalised key of the province table can be met iff it is title-cased |
| Loader.JawaBaratNeverMatches | utils.py:58 | no location ever reaches the key "Jawa barat" |
| Loader.MissingLocation | utils.py:43-51 | a missing location becomes the text "Nan" |
| Loader.NanIsNoProvince | utils.py:55-72 | "Nan" is not a key of the province table, so it stays "Nan" |
| Loader.NanKept | utils.py:55-72 | "Nan" is not a key, and is normalised and title-cased, so it is kept as a location |
| Loader.NumberCellSpec | utils.py:85-91 | a numeric-column cell never stays text; a non-text cell is kept; text becomes missing iff its cleaned form does not parse, and otherwise the parsed value |
| Loader.NumericColumnSpec | utils.py:82-91 | a loaded numeric column holds no text, and one that held none is unchanged (no cleaning) |
| Loader.UntouchedColumns | utils.py:36-91 | a column that is not listed, or repeats an earlier label, is unchanged |
| Filters.CellLessOrder | utils.py:101 | the order `sorted` uses on cells is irreflexive, transitive and total |
| Filters.SortedDistinct | utils.py:101 | `sorted(dropna().unique())`: strictly increasing, holding exactly the non-missing values of the column |
| Filters.Insert | utils.py:101 | inserting into a strictly sorted list keeps it strictly sorted and adds exactly that value |
| Filters.Options | utils.py:101-104 | the options of a missing column are empty; otherwise they are sorted, distinct and exactly the column's non-missing values |
| Filters.DefaultCriteria | utils.py:101-110 | the four defaults, in the order year, programme, concentration, location, each selecting its column's options |
| Filters.DefaultCriteriaList | utils.py:101-110 | the defaults written out: year, programme, concentration and location, each with its options |
| Filters.IsIn | utils.py:138 | `isin`: a row is marked iff its value is in the selection |
| Filters.PassMaskSpec | utils.py:135-153 | a row passes iff every criterion holds on it (a criterion without selection, with an empty one or on a missing column always holds) |
| Filters.PassMaskSound | utils.py:135-153 | a row that passes satisfies every criterion |
| Filters.PassMaskComplete | utils.py:135-153 | a row satisfying every criterion passes |
| Filters.CriterionMaskAt | utils.py:136-138 | one criterion's mask holds at a row iff the criterion holds on it |
| Filters.IsInKeep | utils.py:136-153 | testing membership after a selection is selecting the membership tests |
| Filters.ApplyFilters | utils.py:131-155 | filtering keeps the column labels and gives a well-formed table |
| Filters.FilterStep | utils.py:136-153 | one more criterion either selects, among the rows left, those whose value is in its selection, or changes nothing when it is inactive |
| Filters.FilterBy | utils.py:136-138 | one guarded filter step as a method, equal to that selection |
| Filters.FilterSound | utils.py:135-153 | every row left has, for each active criterion, a value in its selection |
| Filters.FilterComplete | utils.py:133-155 | the rows left are the passing rows in their original order, and a row is left iff every criterion holds on it |
| Filters.FilterInactive | utils.py:134-153 | with no active criterion the table comes back unchanged |
| Filters.FilterIdempotent | utils.py:131-155 | filtering the filtered table again changes nothing |
| Filters.DefaultTerm | utils.py:101-138 | the default criterion of a column keeps a row iff the column is missing, has no value at all, or the row's value is present |
| Filters.DefaultsDropMissing | utils.py:101-153 | with the defaults a row passes iff it is kept by each of the four default criteria, so a row missing a filtered value is dropped |
| Filters.FilterSession.constructor | utils.py:97 | a new session is not initialised and holds no selection |
| Filters.FilterSession.Criteria | utils.py:135-150 | the session's four criteria, on the year, programme, concentration and location columns |
| Filters.FilterSession.InitFilters | utils.py:97-110 | the first call stores the defaults of the table; a later call leaves the selections as they were |
| Filters.FilterSession.Write | utils.py:116-129 | a widget write sets one selection and leaves the others and the flag alone |
| Filters.FilterSession.Apply | utils.py:131-155 | applying the session's filters gives `ApplyFilters` of its criteria |
| Counts.CountPositive | app.py:162 | a value occurs in the column iff its count is positive |
| Counts.Count | app.py:162 | a value's count never exceeds the column's length |
| Counts.Total | app.py:165 | `freq.sum()`: the number of non-missing values, at most the column's length |
| Counts.CountTwoBound | app.py:165 | two different categories together count no more than the non-missing values |
| Counts.TotalZero | app.py:163 | `freq` is empty iff every value is missing |
| Counts.CountBound | app.py:165 | a category's count never exceeds the number of non-missing values |
| Counts.TotalCoversCategories | pages/6_EDA.py:95 | the non-missing values number at least one category's count plus one for each other category |
| Counts.Top | app.py:162-164 | `value_counts().index[0]`: none iff the column has no value, otherwise a value with the largest count |
| Counts.TopCountsAgree | app.py:164 | any two values with the largest count have the same count, so `top_val` does not depend on tie order |
| Counts.TopShare | app.py:165 | the share of the top category lies in (0, 1] |
| Counts.ShareOnCounts | app.py:165-166 | the share is above 0.6 iff five times the top count exceeds three times the total |
| Counts.RatioAboveSixTenths | app.py:165-166 | `c / t > 0.6` iff `5 c > 3 t`, for a positive total |
| Counts.DominantIsTop | app.py:164-166 | a category above 60% is the one listed first, and the warning is given |
| Counts.AppDominanceSpec | app.py:162-169 | the warning is given iff some category holds more than 60% of the non-missing values |
| Counts.AppDominance | app.py:162-169 | no verdict iff the column has no value; otherwise the warning iff five times the top count exceeds three times the total |
| Counts.EdaDominance | pages/6_EDA.py:95 | the warning iff the column has a value, more than five categories, and five times the top count exceeds three times the total |
| Counts.EdaDominanceStricter | pages/6_EDA.py:95 | whenever the EDA page warns, the home page warns too, and the column holds at least 13 values |
| Counts.TextPositions | app.py:133 | `select_dtypes(exclude=number)`: exactly the columns of `object` dtype, in table order, each once |
| Counts.ExaminedColumns | app.py:133-161 | `cat_cols[:3]`: at most three `object` columns are examined, and an `object` column is skipped only when three earlier ones were examined |
| Counts.TextPositionsOfKinds | app.py:133 | which columns are `object` depends on the dtypes only, not on the rows |
| Counts.ExaminedAfterFilter | app.py:133 | the filtered table has the same `object` columns as the loaded one, whatever the filter |
| Counts.AppCategorical | app.py:159-170 | at most three lines, each for an `object` column, naming a value with the largest count and that count; exactly one line per examined column that holds a value, each stating its label, top category, count and 60% warning |
| Counts.NoValueNoLine | app.py:159-163 | an `object` column with only missing values is examined yet gives no line |
| Counts.LinesSpec | app.py:159-170 | soundness: each insight line names a column of the list, a top value with its count, and a warning iff that count is above 60% of the column's values |
| Counts.Valued | app.py:162-163 | the examined columns whose `freq` is not empty: drawn from the list, each holding a value, and every such column of the list is among them |
| Counts.ValuedOrdered | app.py:161 | over increasing column positions the valued columns come in increasing order |
| Counts.LinesExact | app.py:161-170 | completeness: exactly one line per listed column that holds a value, in list order, each naming its label, a top category, its count and the 60% warning |
| Counts.LinesComplete | app.py:161-170 | a listed column that holds a value gets its line |
| Counts.LinesShape | app.py:161-170 | line `i` is the line of the `i`-th listed column that holds a value, and there are as many lines as such columns |
| Counts.LineForMeans | app.py:162-169 | a column's line names its label, a top category and its count, and warns iff that count is above 60% of the values |
| Counts.ValuedLinesComplete | app.py:161-169 | over an increasing list, lines meaning the valued columns cover every listed column that holds a value, in list order |
| Counts.AppCategoricalComplete | app.py:161-169 | every one of the first three `object` columns that holds a value gets its line, and the lines follow the column order |
| Counts.TopProvinceSpec | app.py:119-121 | the top province has the largest count and the reported number is that count; it exists whenever the location column has a row and every value is text |
| Counts.TopProvince | app.py:119-121 | none iff the location column is absent or has no value; otherwise a value with the largest count, reported with that count |
| Correlation.GridAt | app.py:176-179 | the scan visits the pair `(i, j)` at position `i * n + j`, and marks it iff the labels differ and `abs(r) >= 0.5` |
| Correlation.Grid | app.py:176-177 | the scan visits `n * n` pairs |
| Correlation.Hits | app.py:178 | one strength test per visited pair |
| Correlation.ScanStep | app.py:177-179 | one inner step appends the pair `(i, j)` iff the labels differ and `abs(r) >= 0.5` |
| Correlation.ScanRow | app.py:177-179 | the inner loop appends, in column order, the strong pairs of row `i` |
| Correlation.ScanStrong | app.py:174-179 | the nested loop builds exactly `StrongPairs`, the marked grid pairs in row-major order |
| Correlation.StrongPairs | app.py:176-179 | as many candidates as strong marks on the grid, at most `n * n` |
| Correlation.StrongPairsMembers | app.py:176-179 | a pair is a candidate iff it comes from two different labels with `abs(r) >= 0.5` |
| Correlation.StrongPairsSound | app.py:176-179 | every collected pair comes from two different labels with a strong value |
| Correlation.StrongPairsComplete | app.py:176-179 | every strong pair of different labels is collected |
| Correlation.GridDistinct | app.py:176-177 | with distinct labels two different visits see different ordered pairs |
| Correlation.NoDiagonal | app.py:178 | no candidate pairs a column with itself |
| Correlation.PairsDistinct | app.py:176-179 | with distinct labels no ordered pair appears twice among the candidates |
| Correlation.BothOrientations | app.py:176-179 | with a symmetric matrix a strong pair `i < j` appears in both orientations, `(a, b)` first |
| Correlation.Arah | app.py:185 | the direction is "positif" iff `r > 0` |
| Correlation.Lines | app.py:185-186 | one written line per candidate, in order, carrying its value and direction |
| Correlation.FirstMet | app.py:182-184 | candidate `k` passes the `seen` test iff no earlier candidate reverses it |
| Correlation.SeenStep | app.py:187 | after candidate `k`, `seen` has gained exactly that ordered pair |
| Correlation.SeenReverse | app.py:182-187 | when candidate `k` is reached, its reverse is in `seen` iff an earlier candidate reversed it |
| Correlation.Report | app.py:182-187 | the report loop writes exactly the candidates that no earlier candidate reverses, in order |
| Correlation.WrittenIff | app.py:184 | a candidate's line is written iff no earlier candidate reverses it |
| Correlation.WrittenOnce | app.py:182-187 | no written line repeats an earlier line or its reverse |
| Correlation.FirstOrientation | app.py:182-187 | of a pair and its reverse met later, the first is written and the second never is |
| Correlation.WrittenAreCandidates | app.py:176-186 | every written line is a candidate, with "positif" iff `r > 0` |
| Correlation.StrongInsight | app.py:173-187 | the insight lines are the report of the scan |
| Correlation.ReportedOnce | app.py:173-187 | with a symmetric matrix and distinct labels each strong unordered pair is written once, in the orientation met first |
| Correlation.EdaListBothWays | pages/6_EDA.py:115 | every strict candidate is a candidate, and with a symmetric matrix each strict candidate's reverse is one too |
| Overview.Rounded | app.py:139-148 | "ipk" in any case is within 0.005 of its value; every column is within 0.5 |
| Overview.RoundedHundredths | app.py:139-148 | every rounded statistic is a whole number of hundredths |
| Overview.ShiftedMedianNonZero | app.py:150 | a non-zero rounded median stays non-zero after adding `1e-9`, so the division is defined |
| Overview.SkewTest | app.py:150 | on hundredths the guarded test fires iff the median is positive and five times the gap exceeds `median + 1e-9` |
| Overview.AppSkewSpec | app.py:150-153 | the note fires iff the rounded median is positive and five times the gap exceeds `median + 1e-9`; a zero or negative median never fires |
| Overview.AppSkew | app.py:150-153 | the note fires only over a non-zero rounded median and a rounded mean that differs from it |
| Overview.AppNumericNote | app.py:136-153 | `int(round(nan))` fails iff the column is not "ipk" and has no number; otherwise the note fires iff the column has a number and the skew test holds |
| Overview.SkewReferenceCases | app.py:145-153 | whole-number mean 100 over median 50 is a skew, 100 over 98 is not |
| Overview.RoundingHidesSkew | app.py:145-150 | mean 0.6 and median 0.4 are 50% apart, yet no note fires, because the median rounds to 0 |
| Overview.CanonicalValues | utils.py:55-71 | the province table's values are the twelve canonical names |
| Overview.YogyakartaLost | app.py:62-82 | a loaded "DI Yogyakarta" is title-cased again to "Di Yogyakarta", which is not a key, so the map gets a non-canonical name |
| Overview.YogyakartaTitle | app.py:62 | "DI Yogyakarta" title-cases to "Di Yogyakarta" |
| Overview.YogyakartaNoKey | app.py:65-81 | "Di Yogyakarta" is not a key of the table |
| Overview.JakartaKept | app.py:62-82 | "DKI Jakarta" becomes "Dki Jakarta" and is mapped back to itself |
| Overview.JakartaTitle | app.py:62 | "DKI Jakarta" title-cases to "Dki Jakarta" |
| Overview.JakartaKey | app.py:66 | "Dki Jakarta" maps to "DKI Jakarta" |
| Overview.UnmappedStable | app.py:62-82 | a normalised title-cased name that is not a key passes unchanged |
| Overview.MapLoadedValue | app.py:62-82 | on a loaded location: "DI Yogyakarta" is lost, "DKI Jakarta" kept, and any other non-canonical value kept |
| Overview.MapYogyakarta | app.py:62-82 | the home page turns "DI Yogyakarta" into "Di Yogyakarta" |
| Overview.MapJakarta | app.py:62-82 | the home page keeps "DKI Jakarta" |
| Overview.MapUnmapped | app.py:62-82 | a loaded value that is not canonical passes unchanged |
| Overview.MapProvinceOfLoaded | app.py:58-82 | the same, for any location cell after loading |
| Overview.MapProvince | app.py:62-82 | the map gets a canonical name, or the stripped title-cased text when it is not a key |
| Korelasi.NumericPositions | pages/5_Korelasi.py:21 | `select_dtypes(number)`: exactly the columns of numeric dtype, in table order, each once |
| Korelasi.NumericNames | pages/5_Korelasi.py:21 | the labels of the numeric-dtype columns, in table order |
| Korelasi.NumericPositionsOfKinds | pages/5_Korelasi.py:21 | which columns are numeric depends on the dtypes only, not on the rows |
| Korelasi.NumericNamesAfterFilter | pages/5_Korelasi.py:21 | the filtered table has the same numeric columns as the loaded one, whatever the filter |
| Korelasi.CorrelationSection | pages/5_Korelasi.py:17-52 | "no data" iff the table is empty; "too few columns" iff not empty with fewer than two numeric columns; otherwise the report of the scan |
| Korelasi.SectionLines | pages/5_Korelasi.py:37-50 | each line pairs two different numeric columns, with `abs(r) >= 0.5` and "positif" iff `r > 0` |
| Korelasi.ArahOf | pages/5_Korelasi.py:68-69 | "positif" iff `r` exists and is positive; a NaN `r` gives "negatif" |
| Korelasi.Scatter | pages/5_Korelasi.py:61-70 | a scatter note exists iff both variables are chosen and they differ, and it carries `corr.loc[x, y]` and its direction |
| Korelasi.ScatterMatchesList | pages/5_Korelasi.py:40-70 | for a strong pair the scatter note agrees with the candidate's value and direction |
| Korelasi.DefaultScatter | pages/5_Korelasi.py:58-61 | with the default choice (first and second column) the scatter note is given |
| Korelasi.KorelasiSkewSpec | pages/5_Korelasi.py:83-88 | over `median + 1e-9 > 0` the note fires iff five times the gap exceeds it; below zero never; at zero iff mean and median differ |
| Korelasi.KorelasiSkew | pages/5_Korelasi.py:83-88 | the note fires only when mean and median differ |
| Korelasi.ZeroMedianFires | pages/5_Korelasi.py:85 | a zero median is not excluded: the note fires iff five times the mean is more than `1e-9` from zero |
| Korelasi.UnguardedAgainstApp | pages/5_Korelasi.py:85 | mean 1 over median 0 is a skew here and not on the home page |
| Eda.Insert | pages/6_EDA.py:101 | inserting into a sorted sequence keeps it sorted and adds exactly that element |
| Eda.Sort | pages/6_EDA.py:101-102 | the values sorted: sorted, and a permutation of the input |
| Eda.SortedFixed | pages/6_EDA.py:101 | sorting a sorted sequence changes nothing |
| Eda.Present | pages/6_EDA.py:101 | `quantile` skips missing values: at most the column's length, and a value occurs iff the column holds it as a number |
| Eda.PresentCounts | pages/6_EDA.py:101-102 | each number occurs as often as the column holds it, so the quartiles see the column's multiplicities |
| Eda.Position | pages/6_EDA.py:101-102 | the position `(n - 1) * q` split into a valid index and a remainder below one |
| Eda.PositionMonotone | pages/6_EDA.py:101-102 | a larger `q` gives a later position |
| Eda.Interpolate | pages/6_EDA.py:101-102 | the interpolated value lies between the two neighbours and within the range of the values |
| Eda.Lerp | pages/6_EDA.py:101-102 | linear interpolation between two ordered values stays between them |
| Eda.LerpMonotone | pages/6_EDA.py:101-102 | a larger fraction gives a larger interpolated value |
| Eda.InterpolateMonotone | pages/6_EDA.py:101-102 | a later position in a sorted sequence gives a value no smaller |
| Eda.Quantile | pages/6_EDA.py:101-102 | a quantile exists iff there is a number, and lies between the smallest and largest |
| Eda.QuantileMonotone | pages/6_EDA.py:101-103 | a larger `q` never gives a smaller quantile, so Q1 <= Q3 |
| Eda.FencesOf | pages/6_EDA.py:101-105 | the fences are Q1 - 1.5 IQR and Q3 + 1.5 IQR over the quartiles, and enclose them; none without a number |
| Eda.OutlierMask | pages/6_EDA.py:106 | a row is marked iff its value is a number strictly outside the fences |
| Eda.OutliersSpec | pages/6_EDA.py:106-107 | the outliers are the marked rows in order, as many as the mask marks, at most the table's rows, and (when the fences exist) each a number strictly below the lower or above the upper fence |
| Eda.Outliers | pages/6_EDA.py:106 | `df[mask]`: the same columns and dtypes, no more rows than the table |
| Eda.FencesNotOutliers | pages/6_EDA.py:106 | a value on a fence or between the quartiles is not an outlier |
| Eda.NoNumbersNoOutliers | pages/6_EDA.py:101-107 | a column without numbers has no outlier (NaN fences compare false) |
| Eda.WorkedExample | pages/6_EDA.py:101-107 | for 1, 2, 3, 4, 5, 100: Q1 = 2.25, Q3 = 4.75, fences -1.5 and 8.5, and only 100 is an outlier |
| Eda.ExampleFences | pages/6_EDA.py:101-105 | for 1, 2, 3, 4, 5, 100 the fences are -1.5 and 8.5 around quartiles 2.25 and 4.75 |
| Eda.ExampleQuartile | pages/6_EDA.py:101-102 | a quartile of six sorted values is the interpolation at its computed position |
| Eda.ExampleMask | pages/6_EDA.py:106 | with those fences only the sixth value, 100, is an outlier |
| Eda.FencesFrom | pages/6_EDA.py:101-105 | known quartiles determine the fences |
| Eda.EdaSkewSpec | pages/6_EDA.py:83-88 | a positive median fires iff five times the gap exceeds it; a negative one never; a zero one iff the mean is not zero |
| Eda.EdaSkew | pages/6_EDA.py:83-88 | the note fires only when mean and median differ |
| Eda.TinyMeanDisagrees | pages/6_EDA.py:85 | mean 1e-10 over median 0 is a skew here and not on the correlation page |
| Eda.CategoryInsight | pages/6_EDA.py:92-96 | no line iff the column has no value (where `freq.iloc[0]` fails); otherwise the first category has the largest count, shown with its count, and the warning is given iff there are more than five categories and one holds more than 60% |
| Eda.StrictLinesBothWays | pages/6_EDA.py:114-120 | with a symmetric matrix every listed pair is listed reversed too, with `abs(r) > 0.5` and "positif" iff `r > 0` |
| Eda.StrictLines | pages/6_EDA.py:115-120 | one line per strict candidate, in order, with the same two columns and coefficient, and "positif" iff `r > 0` |
| Klaster.CandidateCols | pages/4_Klaster.py:20-23 | the candidate columns are the listed ones present in the table, in the list's order |
| Klaster.CompleteMask | pages/4_Klaster.py:34 | a row is marked iff no chosen column is missing in it |
| Klaster.EligibleSpec | pages/4_Klaster.py:34 | the eligible rows are the marked rows in order, none with a missing chosen value, all rows when nothing is chosen |
| Klaster.Eligible | pages/4_Klaster.py:34 | `dropna(subset=...)`: the same columns and dtypes, no more rows than the table |
| Klaster.SetColumn | pages/4_Klaster.py:43 | `df["Cluster"] = ...`: that column holds the labels and every other column is unchanged |
| Klaster.LabelCells | pages/4_Klaster.py:43 | one numeric cell per label, equal to it |
| Klaster.ClusteredRows | pages/4_Klaster.py:41-43 | every eligible row gets one whole label in `[0, k)`, and no other column changes |
| Klaster.Shown | pages/4_Klaster.py:47-54 | the summary as the notes read it: rounded to two decimals, and the wait column to a whole number |
| Klaster.MaxOf | pages/4_Klaster.py:82 | `max()` is one of the values and no value exceeds it |
| Klaster.MinOf | pages/4_Klaster.py:84 | `min()` is one of the values and no value is below it |
| Klaster.Column | pages/4_Klaster.py:62-64 | `summary[name]` exists iff the column was chosen, with one value per cluster |
| Klaster.Extremes | pages/4_Klaster.py:82-88 | a non-empty column has a cluster that is highest and one that is lowest |
| Klaster.EqualsExtreme | pages/4_Klaster.py:82-89 | equal to the maximum iff no cluster is higher; equal to the minimum iff none is lower |
| Klaster.ExpectedMembers | pages/4_Klaster.py:81-89 | a cluster gets each note iff its column was chosen and no cluster's summary value is higher (highest salary, IPK) or lower (lowest salary, wait) |
| Klaster.NotesFrom | pages/4_Klaster.py:81-89 | the appending steps give the four notes' rules in order |
| Klaster.ClusterNotes | pages/4_Klaster.py:62-91 | the notes of one cluster are its expected notes |
| Klaster.AllNotes | pages/4_Klaster.py:61-91 | the loop over clusters gives each cluster its expected notes |
| Klaster.TiedSalaries | pages/4_Klaster.py:82-85 | when all salary means are equal every cluster gets both salary notes |
| Klaster.SalaryNotesExist | pages/4_Klaster.py:62-85 | some cluster gets each salary note iff the salary column was chosen |
| Klaster.OtherNotesExist | pages/4_Klaster.py:63-89 | some cluster gets the IPK note iff IPK was chosen, and the wait note iff the wait column was chosen |
| Klaster.NotesOrdered | pages/4_Klaster.py:81-91 | the notes come in the order highest salary, lowest salary, IPK, wait, each at most once |
| Klaster.WaitRoundingTies | pages/4_Klaster.py:53-54 | mean waits 2.4 and 1.6 both show as 2, so they tie |
| Klaster.ClusterPage | pages/4_Klaster.py:16-91 | the page's outcome is "no data", "no candidates", "too few rows" (`len < k`) or "no features" exactly under their conditions; otherwise the labelled rows and each cluster's notes |
| Sentimen.AnyIn | pages/3_Sentimen.py:23 | `any(w in s for w in words)`: true iff some word occurs in the text |
| Sentimen.QuickSent | pages/3_Sentimen.py:21-28 | "Positive" iff a positive keyword occurs in the lower-cased text, otherwise "Neutral" |
| Sentimen.QuickSentCell | pages/3_Sentimen.py:21-30 | a text cell is judged by its text; a missing or numeric cell is "Neutral" |
| Sentimen.MissingIsNeutral | pages/3_Sentimen.py:22-29 | the texts of a missing value, "nan" and "none", are "Neutral" |
| Sentimen.PositiveStable | pages/3_Sentimen.py:23-28 | text added before or after a "Positive" feedback keeps it "Positive" |
| Sentimen.ContainsExtended | pages/3_Sentimen.py:22-23 | a keyword found in a text is still found after text is added around it |
| Sentimen.CaseInsensitive | pages/3_Sentimen.py:22 | texts equal up to case get the same label |
| Sentimen.NegationIgnored | pages/3_Sentimen.py:23-26 | "Kurang bagus" is "Positive": the rule does not see negation |
| Sentimen.Scored | pages/3_Sentimen.py:30 | one label per feedback cell, in row order |
| Sentimen.FallbackAsWritten | pages/3_Sentimen.py:29-30 | without feedback, a row gets "Neutral" iff its label is below the row count, and a missing value otherwise |
| Sentimen.Fallback | pages/3_Sentimen.py:29 | every row "Neutral" |
| Sentimen.AddSentimentAsWritten | pages/3_Sentimen.py:20-30 | an existing Sentiment column is kept and nothing changes; otherwise one last column is added and the others are kept |
| Sentimen.AddSentiment | pages/3_Sentimen.py:20-30 | the same step with the fallback labelling every row |
| Sentimen.AddSentimentSpec | pages/3_Sentimen.py:20-30 | every added label is "Positive" or "Neutral", and "Positive" iff there is feedback and its text holds a positive keyword |
| Sentimen.EveryRowCounted | pages/3_Sentimen.py:30-32 | `value_counts()` of the added column counts every row |
| Sentimen.NoNullTotal | pages/3_Sentimen.py:32 | `value_counts` counts every row of a column without missing values |
| Sentimen.AsWrittenAgrees | pages/3_Sentimen.py:29-30 | the step as written agrees with the corrected one iff the table has a Sentiment column, has feedback, or all its row labels are below its height |
| Sentimen.FallbackMisaligned | pages/3_Sentimen.py:29-32 | a one-row table whose row kept label 1 gets a missing label as written, counted by nobody, and "Neutral" when corrected |

## Left out

- Reading the CSV file, the Streamlit cache, page configuration, every widget and chart, metrics, markdown, and the remote GeoJSON map are not modelled. The sidebar widgets appear only as `FilterSession.Write`.
- Means, medians, minima, maxima, Pearson correlations, standard scaling, k-means and the per-cluster means are computed by libraries. They are parameters of the rules here: `real` values, a correlation `Matrix`, a label per eligible row, a summary row per cluster.
- The skew rules divide by what the code divides by: `median + 1e-9` on the home page and the correlation page, and `median` on the EDA page. The median is not taken in absolute value, so a negative median never gives a skew note (`Overview.AppSkewSpec`, `Korelasi.KorelasiSkewSpec`, `Eda.EdaSkewSpec`).
- Overview.Rounded: takes the statistics as `real` values, so it has no NaN. A column without a number, including every column of an empty filtered table, is handled by `Overview.AppNumericNote`: `int(round(nan))` raises `ValueError` (app.py:145) for a column other than "ipk", and "ipk" gets no skew note.
- Floating point is not modelled: values are exact `real`s. A NaN correlation is `None`, a missing cell is `Null`. Division by zero follows float64 (`inf` or `nan`) in `NumpyRatioAbove`.
- Casing and whitespace cover ASCII only: the letters A-Z and a-z, and as whitespace the characters 9-13 (tab, newline, vertical tab, form feed, carriage return), 28-31 (the four separators) and 32 (space). `str.title` is modelled as "upper-case after a non-letter".
- Numbers.ParseDecimal reads an optional leading `-` or `+` followed by digits with at most one `.`. Exponents, "inf" and surrounding whitespace, which `to_numeric` would accept, are read as failures.
- Column dtypes are two kinds, `object` and numeric (`Frames.Kind`). `read_csv` is taken to give a column `object` dtype iff one of its values is text, so a column with no value at all is numeric. Loading then makes the text columns `object` and the numeric columns numeric, and a selection of rows keeps every dtype.
- Loader.NumberCell: a number inside an `object` numeric column is kept as it is, where pandas would turn it into text and clean it ("1.5" would become 15). `read_csv` never gives such a column: an `object` column it reads holds only text and missing values.
- The decimal text of a number (a `Num` cell in a text column or a feedback column) is not produced. A number in a text column is left as it is, and a numeric feedback is taken to hold no keyword.
- Loader.LoadData: a label that occurs twice makes `df[col]` a block of columns in pandas; the model rewrites only the first column with that label.
- Correlation.ScanStrong, Korelasi.CorrelationSection: stated for numeric columns with distinct labels. With a repeated label `corr.loc[i, j]` is a block, not a number.
- Filters.FilterComplete: stated for tables whose row labels are distinct, as those of a table read from the CSV file are.
- The `apply_filters` steps are four `if`-blocks in the source. Here they are a loop over four criteria, in the same order and with the same guards.
- `sorted` on a column mixing numbers and text raises in Python. The model orders every number before every text instead.
- The order of ties in `value_counts` is pandas' own. The model takes the first row met with the largest count, and proves that any choice has the same count (`Counts.TopCountsAgree`).
- The home page's average-salary and top-industry lines (app.py:108-117) and its metrics are library means or the same top-category rule, and are not modelled separately.
- `Counts.TopProvinceSpec` does not model the error `idxmax` raises on a location column whose every value is missing; the model gives no top province there.
- pages/1_Karir_Gaji.py and pages/2_Statistik.py are group-by means, top-10 counts, cross-tables and scipy tests. They are not part of this model.
- The random sample of feedback rows (pages/3_Sentimen.py:41) and the charts of the feedback page are not modelled.
- The EDA insight blocks read variables that are unbound when the filtered table is empty. That crash is not modelled: the rules take their column as given.
- Overview.YogyakartaLost, Overview.JakartaKept: the effect of the home page's second title-casing is proved for these two canonical names and for every name that is not a key (`Overview.MapLoadedValue`), not for the other ten canonical names one by one.
- Klaster.ClusterPage: "no features" stands for the error scikit-learn raises when no column is chosen. Its text is not modelled.

## Findings

| source | as written | input that shows it | evidently intended | confidence | as-written member | corrected member |
|---|---|---|---|---|---|---|
| pages/3_Sentimen.py:29-30 | without a feedback column the fallback series is labelled 0 .. n-1 and assigned to the filtered table by label, so a row whose label is n or more gets a missing Sentiment | a filtered table of one row with label 1, no feedback column and no Sentiment column: its Sentiment is missing and the bar chart counts no row | every row labelled "Neutral", so the chart counts every row | not executed | Sentimen.AddSentimentAsWritten (shown by Sentimen.FallbackMisaligned) | Sentimen.AddSentiment (proved by Sentimen.EveryRowCounted) |
