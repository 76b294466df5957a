# Golf launch monitor dashboard: the cleaning and gapping pipeline

`app.py` is a Streamlit page that reads a launch monitor's CSV export of
golf shots and shows a dispersion plot, a gapping chart and a shot table.
Between reading the file and drawing the charts it runs a short pipeline
on the pandas frame `df`:

1. strip leading and trailing whitespace from every column name (line 13);
2. drop every row whose `Club` is missing or exactly `"Average"` (line 16);
3. coerce six metric columns to numbers, turning what does not parse into
   missing values (lines 19-21);
4. offer every distinct club, in order of first appearance, as the club
   filter's options and default, and keep only the rows of the selected
   clubs (lines 25, 28);
5. compute, for the gapping chart, one mean carry per club, sorted by that
   mean (line 48).

This project models that pipeline in Dafny and proves what each step
promises.

- `wrappers.dfy` — `Option` and `Result`.
- `strip.dfy` (module `Strip`) — Python's `str.strip()`, whitespace being
  exactly the characters `str.isspace` accepts.
- `cells.dfy` (module `Cells`) — a cell is `Missing`, `Num(real)` or
  `Text(string)`; `ToNumeric` is `pd.to_numeric(..., errors="coerce")` on
  one cell, with a plain decimal grammar (`ParseNum`).
- `tables.dfy` (module `Tables`) — a frame is its column names and its rows;
  each row keeps the index label pandas gave it (0, 1, 2, ... from
  `read_csv`), which boolean-mask selection keeps. `ColumnIndex` is the
  lookup `df[name]` (first column of that name, `KeyError` when absent);
  `Where` is mask selection `df[mask]`.
- `cleaning.dfy` (module `Cleaning`) — steps 1-3. The script's `df` is the
  class `DataFrame`; the two steps that rewrite it in place are its methods
  `StripColumnNames` and `CoerceNumeric` (a loop over the metric columns),
  each specified by a function on `Table` values (`StripColumns`,
  `CoerceColumns`). When a metric column is absent, the loop raises at the
  first absent one in list order, after converting every column listed
  before it (`CoerceColumnsStopsAtMissing`).
- `clubs.dfy` (module `Clubs`) — step 4: `Distinct` (`Series.unique()`) and
  `SelectClubs` (`isin`).
- `gapping.dfy` (module `Gapping`) — step 5: per-club means and their sort.
  A club whose carries are all missing has a NaN mean in pandas, which
  `sort_values` puts last; here that mean is `None`, ordered after every
  number.
- `dashboard.dfy` (module `Dashboard`) — the whole page as a function,
  `Render`, of the loaded frame and of what the club multiselect returns
  (`AllClubs` for its default, or the picked clubs); `RunDashboard` runs the
  same steps on a `DataFrame` the way the script does and is proved equal to
  `Render`.

The only error the script can meet in these steps is `KeyError`: `Club`
or one of the six metric columns is absent after the names are stripped.
The model returns `Err(KeyError(name))` for it, naming the column pandas
would name: `Club` when it is absent, since line 16 runs first, and
otherwise the first of the six metric columns, in list order, that is
absent (`Dashboard.CleanReportsFirstMissing`).

## Model

| member | source | states |
|---|---|---|
| `Strip.StripStart` | app.py:13 | the result is a suffix of the name, what was cut off is all whitespace, and the result does not start with whitespace |
| `Strip.StripEnd` | app.py:13 | the result is a prefix of the name, what was cut off is all whitespace, and the result does not end with whitespace |
| `Strip.StripName` | app.py:13 | the stripped name is a contiguous slice of the name, everything before and after it is whitespace, and neither of its ends is whitespace |
| `Strip.StripNameCharacterised` | app.py:13 | whenever a name is whitespace + a trimmed middle + whitespace, stripping returns exactly that middle: no other character is changed or removed |
| `Strip.StripNameIdempotent` | app.py:13 | stripping an already stripped name changes nothing |
| `Strip.StripColumns` | app.py:13 | the stripped header has exactly as many names as the original; `StripColumnsElementwise` gives each one |
| `Strip.StripColumnsElementwise` | app.py:13 | stripping the column names keeps their number and strips each name in its own position |
| `Cleaning.DataFrame.StripColumnNames` | app.py:13 | the frame keeps the same number of columns, column k becomes the stripped old name k, and the rows are untouched |
| `Tables.FromRecords` | app.py:10 | the frame `read_csv` hands over: one row per record in file order, labelled 0, 1, 2, ..., every row as wide as the header |
| `Tables.ColumnIndex` | app.py:16 | the lookup `df[name]` fails exactly when no column has that name; otherwise it finds the first column with that name |
| `Tables.Where` | app.py:16 | mask selection keeps a row if and only if it is in the frame and its cell satisfies the mask, and keeps the rows in their original order |
| `Tables.RowsDeterminedByMembers` | app.py:16 | two row sequences in increasing index order holding the same rows are equal, so the membership and order `Where` promises fix its result |
| `Cleaning.IsShot` | app.py:16 | a row is kept exactly when its club is a number, or a string other than exactly `"Average"`; a missing club is never kept |
| `Cleaning.DropSummaryRows` | app.py:16 | fails with `KeyError("Club")` exactly when there is no `Club` column; otherwise keeps every row whose club is present and not exactly `"Average"` and no other row, in order, with the columns unchanged |
| `Cleaning.SentinelMatchIsExact` | app.py:16 | `"average"`, `" Average"`, `"Average "` and `"Deviation"` are kept as shots; only a missing club and exactly `"Average"` are dropped |
| `Cells.ParseNum` | app.py:21 | a string that parses contains at least one digit |
| `Cells.ParseNumSign` | app.py:21 | a parsed number is negative only when the string starts with `-` |
| `Cells.ToNumeric` | app.py:21 | coercing a cell never fails and never leaves a string; numbers and missing values pass through; a string becomes a number exactly when it parses, and then it becomes the number it parses to |
| `Cells.ToNumericIdempotent` | app.py:21 | coercing a coerced cell changes nothing |
| `Cells.ParseIntString` | app.py:21 | every integer written in decimal, with or without a minus sign, is coerced to that number |
| `Cells.DecimalValue` | app.py:21 | the value of a decimal `w.f` has whole part `w`: it lies in `[w, w + 1)` |
| `Cells.ParseDecimalString` | app.py:21 | every decimal with a fractional part, `w.f` with `w` written without leading zeros and `f` any digits, parses and is coerced to `w` plus the fraction digits over their power of ten |
| `Cells.ParseSignedDecimal` | app.py:21 | `-w.f` is coerced to the negation of that value and `+w.f` to the value itself |
| `Cells.DirectionalTokenBecomesMissing` | app.py:21 | a launch-monitor direction token such as `"L4.5"` or `"R12"` is not a number and becomes missing |
| `Cleaning.CoerceColumn` | app.py:21 | one pass of the loop: every cell of column `j` becomes its coerced value, every other cell, the columns, the row count and every row's index stay, and the frame stays well formed |
| `Cleaning.FirstMissing` | app.py:19-21 | the name the loop raises on: none exactly when every listed column is present, otherwise a listed name the frame lacks |
| `Cleaning.FirstMissingIsFirstAbsent` | app.py:19-21 | `FirstMissing` returns a name exactly when that name is listed, absent, and every name listed before it is present |
| `Cleaning.CoerceColumns` | app.py:19-21 | the loop keeps the frame well formed, its columns, its row count and every row's index; the column it raises on is exactly `FirstMissing` of the listed names, so it raises exactly when some listed column is absent |
| `Cleaning.CoerceColumnsStopsAtMissing` | app.py:19-21 | when the k-th listed column is the first absent one, the loop returns the frame with the first k listed columns converted and raises on the k-th |
| `Cleaning.CoerceColumnsCells` | app.py:19-21 | when every listed column exists, each cell of a converted column becomes its coerced value and every other cell is unchanged |
| `Cleaning.CoerceColumnsNoText` | app.py:19-21 | a frame whose listed columns already hold only numbers and missing values is left unchanged |
| `Cleaning.CoerceColumnsIdempotent` | app.py:19-21 | after the loop the converted columns hold only numbers and missing values, and running the loop again leaves the frame unchanged |
| `Cleaning.DataFrame.CoerceNumeric` | app.py:20-21 | the in-place loop leaves the frame as the fold `CoerceColumns` describes and returns the column that raised `KeyError`, if any |
| `Clubs.ClubOptions` | app.py:25 | the options are the values of the club column, every one of them, each once, in order of first appearance |
| `Clubs.Distinct` | app.py:25 | the options contain every value of the column and nothing else, each exactly once, in order of first appearance |
| `Clubs.SelectClubs` | app.py:28 | the filtered frame holds exactly the rows whose club is in the selection, in their original order |
| `Clubs.DefaultSelectionKeepsAll` | app.py:25-28 | with the default selection (every distinct club) the filter returns the frame unchanged |
| `Gapping.Mean` | app.py:48 | the mean of no carries is NaN (`None`); otherwise the mean times the number of carries is their sum |
| `Gapping.GroupMeans` | app.py:48 | one entry per distinct club, in order of first appearance, each holding the mean of that club's non-missing carries |
| `Gapping.Insert` | app.py:48 | inserting one bar into bars sorted by mean carry gives sorted bars with exactly one more entry, that bar, and keeps clubs distinct when the new club is new |
| `Gapping.SortByMean` | app.py:48 | the sorted bars are a permutation of the input bars, in non-decreasing order of mean carry with NaN means last |
| `Gapping.AverageCarry` | app.py:48 | one bar per distinct club of the filtered frame and no other, each club once, each bar's value the mean of that club's non-missing carries (none when there are none), in non-decreasing order of mean |
| `Gapping.MeanWithinCarries` | app.py:48 | a club's mean carry lies between its shortest and its longest carry |
| `Dashboard.Clean` | app.py:13-21 | the cleaning steps fail exactly when the stripped names lack `Club` or one of the six metric columns, and then name a missing one; otherwise the frame is well formed with the stripped column names |
| `Dashboard.CleanReportsFirstMissing` | app.py:16-21 | when cleaning fails, the error names `Club` if the stripped names lack it, and otherwise the first metric column, in list order, that they lack |
| `Dashboard.CleanKeepsIndexAndClub` | app.py:19-21 | coercion changes cells only: row for row, the index and the club are those of the frame after the summary rows were dropped |
| `Dashboard.CleanKeepsExactlyShots` | app.py:16-21 | every cleaned row is a real shot, and the cleaned rows are exactly the loaded rows whose club is present and not `"Average"` |
| `Dashboard.CleanMetricsAreNumeric` | app.py:19-21 | in the cleaned frame the six metric columns hold only numbers and missing values |
| `Dashboard.Render` | app.py:9-48 | the page fails exactly when cleaning fails, with cleaning's `KeyError` |
| `Dashboard.PageGuarantees` | app.py:25-48 | the options list every club once in order of first appearance; the table holds exactly the selected cleaned rows in order, all of them by default; the chart has one bar per club in the table with that club's mean carry, in non-decreasing order |
| `Dashboard.RunDashboard` | app.py:9-48 | running the script's steps on the mutable frame yields exactly the page `Render` describes |

## Left out

- Page configuration, the sidebar header, the title and subheaders, the
  Plotly scatter and bar charts and `st.dataframe` (app.py:6, 24, 31-44,
  47, 49-61): rendering only. The multiselect widget is left out; its value
  is the parameter `Selection`.
- Reading `golfdata.csv` (app.py:9-10): file I/O. `Render` accepts any
  well-formed frame; `Tables.FromRecords` shows that the frame `read_csv`
  produces is one. Empty fields and NA tokens are taken to be missing
  values already.
- `Cells.ParseNum`: the string grammar of `pd.to_numeric` is reduced to an
  optional sign and a decimal with at least one digit; exponents,
  surrounding whitespace, `"inf"`, `"nan"` and other spellings pandas
  accepts are not modelled, because that grammar belongs to the library.
- Floating point: numbers are `real`, so rounding in the mean is not
  modelled; NaN appears only as a missing cell or a `None` mean.
- Duplicate column names after stripping (say `"Club"` and `" Club"`):
  pandas then returns a sub-frame for `df[name]`; the model looks up the
  first column of that name.
- `Gapping.AverageCarry`: does not fix the order of clubs whose means are
  equal, because `groupby` orders groups by club and `sort_values` defaults
  to an unstable sort; only the non-decreasing order and the set of bars
  are promised (the model itself lists ties in order of first appearance).
- `Gapping.AverageCarry`: requires the carry column to hold no strings,
  since pandas raises on the mean of strings; after coercion this always
  holds.
- `Gapping.AverageCarry`: treats a missing club as one more group, whereas
  `groupby` drops missing keys; the cleaned frame has no missing club
  (app.py:16), so the page is unaffected.
- Streamlit's check that picked clubs are among the options: `Selection`
  accepts any list, and `isin` simply ignores clubs that are not present.

## Behaviour of app.py worth noting

- Column names are only stripped; no other renaming happens.
- Only rows whose club is missing or exactly `"Average"` are dropped; rows
  labelled `"Deviation"`, or `"average"` in another case, stay as shots
  (`Cleaning.SentinelMatchIsExact`).
- Direction tokens such as `"L4.5"` and `"R12"` are not numbers to
  `to_numeric`, so they become missing values rather than signed offsets
  (`Cells.DirectionalTokenBecomesMissing`).
