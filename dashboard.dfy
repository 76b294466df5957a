/**
 * The dashboard script from top to bottom, without its rendering: load the
 * frame, clean it, offer the clubs, filter by the chosen clubs, and compute
 * the gapping chart. `Render` is the whole page as a function of the frame
 * `read_csv` produced and of what the club multiselect returns;
 * `RunDashboard` runs the same steps on a `DataFrame` the way the script
 * rewrites `df`.
 */
module Dashboard {
  import opened Wrappers
  import opened Cells
  import opened Tables
  import opened Strip
  import opened Cleaning
  import opened Clubs
  import opened Gapping

  const CARRY := "Carry(yd)"

  /** What the club multiselect returns: its default (every club) or the clubs a user picked. */
  datatype Selection = AllClubs | Picked(clubs: seq<Cell>)

  /** The data on the page: the filter's options, the filtered shot table and the gapping chart. */
  datatype Page = Page(options: seq<Cell>, shots: Table, gapping: seq<ClubCarry>)

  /** The column layout the cleaning steps need, after the names are stripped. */
  predicate HasRequiredColumns(columns: seq<string>) {
    CLUB in columns && forall name :: name in NUMERIC_COLUMNS ==> name in columns
  }

  /** Strip the column names, drop the summary rows, coerce the metric columns. */
  function Clean(raw: Table): (r: Result<Table, KeyError>)
    requires WellFormed(raw)
    ensures r.Ok? <==> HasRequiredColumns(StripColumns(raw.columns))
    ensures r.Ok? ==> WellFormed(r.value) && r.value.columns == StripColumns(raw.columns)
    ensures r.Err? ==> r.error.column !in StripColumns(raw.columns)
    ensures r.Err? ==> r.error.column == CLUB || r.error.column in NUMERIC_COLUMNS
  {
    var stripped := Table(StripColumns(raw.columns), raw.rows);
    match DropSummaryRows(stripped)
    case Err(e) => Err(e)
    case Ok(shots) =>
      var c := CoerceColumns(shots, NUMERIC_COLUMNS);
      if c.missing.Some? then Err(KeyError(c.missing.value)) else Ok(c.table)
  }

  /**
   * The error names the column pandas raises on: `Club` when it is missing,
   * otherwise the first metric column, in loop order, that is missing.
   */
  lemma CleanReportsFirstMissing(raw: Table)
    requires WellFormed(raw)
    ensures var columns := StripColumns(raw.columns);
      && (Clean(raw).Err? && CLUB !in columns ==> Clean(raw).error == KeyError(CLUB))
      && (Clean(raw).Err? && CLUB in columns ==>
            Some(Clean(raw).error.column) == FirstMissing(NUMERIC_COLUMNS, columns))
  {
    var columns := StripColumns(raw.columns);
    if CLUB in columns {
      assert ShotRows(raw).columns == columns;
    }
  }

  /** A converted column is never the club column: their names differ. */
  lemma ClubIsNotConverted(columns: seq<string>)
    requires CLUB in columns
    ensures ColumnIndex(columns, CLUB).value !in Targets(columns, NUMERIC_COLUMNS)
  {
  }

  /** The frame after the summary rows are dropped, before coercion. */
  function ShotRows(raw: Table): (shots: Table)
    requires WellFormed(raw) && CLUB in StripColumns(raw.columns)
    ensures WellFormed(shots) && shots.columns == StripColumns(raw.columns)
  {
    DropSummaryRows(Table(StripColumns(raw.columns), raw.rows)).value
  }

  /** A clean frame is the coerced frame of shot rows. */
  lemma CleanIsCoercedShots(raw: Table)
    requires WellFormed(raw) && Clean(raw).Ok?
    ensures CLUB in StripColumns(raw.columns)
    ensures Clean(raw).value == CoerceColumns(ShotRows(raw), NUMERIC_COLUMNS).table
  {
  }

  /** Coercion changes cells only: row for row, the index and the club stay. */
  lemma CleanKeepsIndexAndClub(raw: Table)
    requires WellFormed(raw) && Clean(raw).Ok?
    ensures var t, shots := Clean(raw).value, ShotRows(raw);
      var club := ColumnIndex(t.columns, CLUB).value;
      && |t.rows| == |shots.rows|
      && forall i :: 0 <= i < |t.rows| ==>
           t.rows[i].index == shots.rows[i].index && t.rows[i].cells[club] == shots.rows[i].cells[club]
  {
    var t, shots := Clean(raw).value, ShotRows(raw);
    CleanIsCoercedShots(raw);
    assert t.columns == shots.columns;
    CoercionKeepsClub(shots);
  }

  lemma CoercionKeepsClub(shots: Table)
    requires WellFormed(shots) && HasRequiredColumns(shots.columns)
    ensures var t := CoerceColumns(shots, NUMERIC_COLUMNS).table;
      var club := ColumnIndex(shots.columns, CLUB).value;
      && |t.rows| == |shots.rows|
      && forall i :: 0 <= i < |t.rows| ==>
           t.rows[i].index == shots.rows[i].index && t.rows[i].cells[club] == shots.rows[i].cells[club]
  {
    CoerceColumnsCells(shots, NUMERIC_COLUMNS);
    ClubIsNotConverted(shots.columns);
    RowWidths(shots.rows, |shots.columns|);
  }

  /**
   * The cleaned frame: its rows are exactly the shots of the loaded frame
   * (club present and not exactly "Average"), with their clubs untouched.
   */
  lemma CleanKeepsExactlyShots(raw: Table)
    requires WellFormed(raw) && Clean(raw).Ok?
    ensures var t := Clean(raw).value;
      var club := ColumnIndex(t.columns, CLUB).value;
      && (forall row :: row in t.rows ==> IsShot(row.cells[club]))
      && Indices(t.rows) == (set row | row in raw.rows && IsShot(row.cells[club]) :: row.index)
  {
    var t, shots := Clean(raw).value, ShotRows(raw);
    var club := ColumnIndex(t.columns, CLUB).value;
    CleanKeepsIndexAndClub(raw);
    assert t.columns == shots.columns;
    CoercedRowsAreShots(shots.rows, t.rows, club);
    var stripped := Table(StripColumns(raw.columns), raw.rows);
    assert shots == DropSummaryRows(stripped).value;
    assert club == ColumnIndex(stripped.columns, CLUB).value;
    assert forall row :: row in raw.rows ==> club < |row.cells|;
    ShotIndices(raw.rows, shots.rows, club);
  }

  lemma ShotIndices(rows: seq<Row>, shots: seq<Row>, club: nat)
    requires forall row :: row in rows ==> club < |row.cells|
    requires forall row :: row in shots <==> row in rows && IsShot(row.cells[club])
    ensures Indices(shots) == set row | row in rows && IsShot(row.cells[club]) :: row.index
  {
  }

  lemma CoercedRowsAreShots(shots: seq<Row>, rows: seq<Row>, club: nat)
    requires forall row :: row in shots ==> club < |row.cells| && IsShot(row.cells[club])
    requires |rows| == |shots|
    requires forall i :: 0 <= i < |rows| ==>
      club < |rows[i].cells| && rows[i].index == shots[i].index && rows[i].cells[club] == shots[i].cells[club]
    ensures forall row :: row in rows ==> IsShot(row.cells[club])
    ensures Indices(rows) == Indices(shots)
  {
    forall row | row in rows ensures IsShot(row.cells[club]) {
      var i :| 0 <= i < |rows| && rows[i] == row;
      assert shots[i] in shots;
    }
    SameIndices(rows, shots);
  }

  /** In the cleaned frame the six metric columns hold only numbers and missing values. */
  lemma CleanMetricsAreNumeric(raw: Table)
    requires WellFormed(raw) && Clean(raw).Ok?
    ensures var t := Clean(raw).value;
      forall row, name :: row in t.rows && name in NUMERIC_COLUMNS ==>
        !row.cells[ColumnIndex(t.columns, name).value].Text?
  {
    CleanIsCoercedShots(raw);
    var t, shots := Clean(raw).value, ShotRows(raw);
    CoerceColumnsIdempotent(shots, NUMERIC_COLUMNS);
    forall row, name | row in t.rows && name in NUMERIC_COLUMNS
      ensures !row.cells[ColumnIndex(t.columns, name).value].Text?
    {
      var i :| 0 <= i < |t.rows| && t.rows[i] == row;
      assert ColumnIndex(t.columns, name).value in Targets(t.columns, NUMERIC_COLUMNS);
    }
  }

  /** The whole page for the loaded frame and the multiselect's value. */
  function Render(raw: Table, selection: Selection): (r: Result<Page, KeyError>)
    requires WellFormed(raw)
    ensures r.Ok? <==> Clean(raw).Ok?
    ensures r.Err? ==> r == Err(Clean(raw).error)
  {
    match Clean(raw)
    case Err(e) => Err(e)
    case Ok(t) =>
      CleanMetricsAreNumeric(raw);
      var club := ColumnIndex(t.columns, CLUB).value;
      var carry := ColumnIndex(t.columns, CARRY).value;
      var options := ClubOptions(t.rows, club);
      var picked := if selection.AllClubs? then options else selection.clubs;
      var shots := SelectClubs(t.rows, club, picked);
      Ok(Page(options, Table(t.columns, shots), AverageCarry(shots, club, carry)))
  }

  /**
   * What the page promises once the frame is clean: the options list every
   * club once in order of first appearance; the table holds exactly the
   * cleaned rows whose club is selected, in their original order, and all of
   * them by default; the chart has one bar per club in that table, each the
   * mean of the club's non-missing carries, in non-decreasing order.
   */
  lemma PageGuarantees(raw: Table, selection: Selection)
    requires WellFormed(raw) && Render(raw, selection).Ok?
    ensures var t, p := Clean(raw).value, Render(raw, selection).value;
      var club, carry := ColumnIndex(t.columns, CLUB).value, ColumnIndex(t.columns, CARRY).value;
      var picked := if selection.AllClubs? then p.options else selection.clubs;
      && UniqueInOrder(Column(t.rows, club), p.options)
      && p.shots.columns == t.columns
      && (forall row :: row in p.shots.rows <==> row in t.rows && row.cells[club] in picked)
      && IndexIncreasing(p.shots.rows)
      && (selection.AllClubs? ==> p.shots == t)
      && SortedByMean(p.gapping)
      && DistinctClubs(p.gapping)
      && (forall c :: (exists e :: e in p.gapping && e.club == c) <==> c in Column(p.shots.rows, club))
      && (forall e :: e in p.gapping ==> e.meanCarry == Mean(Carries(p.shots.rows, club, carry, e.club)))
  {
    var t := Clean(raw).value;
    var club := ColumnIndex(t.columns, CLUB).value;
    if selection.AllClubs? {
      DefaultSelectionKeepsAll(t.rows, club);
    }
  }

  /**
   * The script itself: `df` is loaded, its column names stripped in place,
   * reassigned to its shot rows, its metric columns rewritten in place, then
   * filtered by the selected clubs and aggregated for the chart.
   */
  method RunDashboard(raw: Table, selection: Selection) returns (r: Result<Page, KeyError>)
    requires WellFormed(raw)
    ensures r == Render(raw, selection)
  {
    var df := new DataFrame(raw);
    df.StripColumnNames();
    assert df.columns == StripColumns(raw.columns);
    var kept := DropSummaryRows(df.View());
    if kept.Err? {
      return Err(kept.error);
    }
    df := new DataFrame(kept.value);
    var missing := df.CoerceNumeric(NUMERIC_COLUMNS);
    if missing.Some? {
      return Err(KeyError(missing.value));
    }
    assert Clean(raw) == Ok(df.View());
    CleanMetricsAreNumeric(raw);
    var club := ColumnIndex(df.columns, CLUB).value;
    var carry := ColumnIndex(df.columns, CARRY).value;
    var options := ClubOptions(df.rows, club);
    var picked := if selection.AllClubs? then options else selection.clubs;
    var shots := SelectClubs(df.rows, club, picked);
    r := Ok(Page(options, Table(df.columns, shots), AverageCarry(shots, club, carry)));
  }
}
