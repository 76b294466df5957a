/**
 * The cleaning steps of the dashboard script, in the order it runs them:
 * strip the column names, drop the summary rows, coerce the six metric
 * columns to numbers. The script's frame `df` is the class `DataFrame`;
 * the steps that rewrite it in place are its methods, and each is
 * specified by a function on `Table` values.
 */
module Cleaning {
  import opened Wrappers
  import opened Cells
  import opened Tables
  import opened Strip

  const CLUB := "Club"

  /** The label the launch monitor gives its per-club average rows. */
  const SUMMARY_LABEL := "Average"

  /** The metric columns converted to numbers, in the order the script converts them. */
  const NUMERIC_COLUMNS: seq<string> :=
    ["Carry(yd)", "Offline(yd)", "Total(yd)", "Ball Speed(mph)", "Launch Angle", "Spin Rate"]

  // ---------------------------------------------------------------------
  // Row rejection (app.py:16): drop rows whose club is missing or exactly "Average".

  /** A real shot: its club is present and is not exactly the summary label. */
  predicate IsShot(club: Cell)
    ensures IsShot(club) <==> club.Num? || (club.Text? && club.s != SUMMARY_LABEL)
  {
    club != Missing && club != Text(SUMMARY_LABEL)
  }

  /**
   * Keeps exactly the rows whose club is a real shot, in their original
   * order; fails like pandas when the frame has no `Club` column.
   */
  function DropSummaryRows(t: Table): (r: Result<Table, KeyError>)
    requires WellFormed(t)
    ensures r.Err? <==> CLUB !in t.columns
    ensures r.Err? ==> r.error == KeyError(CLUB)
    ensures r.Ok? ==> WellFormed(r.value) && r.value.columns == t.columns
    ensures r.Ok? ==> forall row :: row in r.value.rows <==>
                        row in t.rows && IsShot(row.cells[ColumnIndex(t.columns, CLUB).value])
  {
    match ColumnIndex(t.columns, CLUB)
    case None => Err(KeyError(CLUB))
    case Some(j) => Ok(Table(t.columns, Where(t.rows, j, IsShot)))
  }

  /**
   * The sentinel match is exact: other spellings of "Average", and the
   * device's "Deviation" rows, are not summary rows to this rule.
   */
  lemma SentinelMatchIsExact()
    ensures IsShot(Text("average")) && IsShot(Text(" Average")) && IsShot(Text("Average "))
    ensures IsShot(Text("Deviation"))
    ensures !IsShot(Text("Average")) && !IsShot(Missing)
  {
  }

  // ---------------------------------------------------------------------
  // Numeric coercion (app.py:19-21): each listed column in turn is replaced by its coerced values.

  /** One pass of the coercion loop (app.py:21): column `j` replaced by its coerced cells. */
  function CoerceColumn(t: Table, j: nat): (u: Table)
    requires WellFormed(t) && j < |t.columns|
    ensures WellFormed(u) && u.columns == t.columns && |u.rows| == |t.rows|
    ensures forall i :: 0 <= i < |t.rows| ==> u.rows[i].index == t.rows[i].index
    ensures forall i, k :: 0 <= i < |t.rows| && 0 <= k < |t.columns| ==>
              u.rows[i].cells[k] == if k == j then ToNumeric(t.rows[i].cells[k]) else t.rows[i].cells[k]
  {
    RowWidths(t.rows, |t.columns|);
    var rows := seq(|t.rows|, i requires 0 <= i < |t.rows| =>
      t.rows[i].(cells := t.rows[i].cells[j := ToNumeric(t.rows[i].cells[j])]));
    RowWidths(rows, |t.columns|);
    Table(t.columns, rows)
  }

  /**
   * The frame after the coercion loop, and the first listed column the frame
   * lacked, if any: `df[col]` raises `KeyError` there, after the columns
   * before it have already been converted.
   */
  datatype Coercion = Coercion(table: Table, missing: Option<string>)

  /** The columns the loop converts: the first column carrying each listed name. */
  function Targets(columns: seq<string>, names: seq<string>): set<nat> {
    set name | name in names && name in columns :: ColumnIndex(columns, name).value
  }

  /** The first of `names`, in loop order, that `columns` lacks: the name whose lookup raises `KeyError`. */
  function FirstMissing(names: seq<string>, columns: seq<string>): (r: Option<string>)
    ensures r.None? <==> forall name :: name in names ==> name in columns
    ensures r.Some? ==> r.value in names && r.value !in columns
  {
    if names == [] then None
    else if names[0] !in columns then Some(names[0])
    else FirstMissing(names[1..], columns)
  }

  /** `name` is listed at some position and every name listed before it is present. */
  ghost predicate FirstAbsent(names: seq<string>, columns: seq<string>, name: string) {
    exists k :: 0 <= k < |names| && names[k] == name && name !in columns &&
      forall m :: 0 <= m < k ==> names[m] in columns
  }

  /** `FirstMissing` names exactly the first absent name: both directions. */
  lemma {:induction false} FirstMissingIsFirstAbsent(names: seq<string>, columns: seq<string>, name: string)
    ensures FirstMissing(names, columns) == Some(name) <==> FirstAbsent(names, columns, name)
    decreases |names|
  {
    if names != [] {
      FirstMissingIsFirstAbsent(names[1..], columns, name);
      if names[0] !in columns {
        assert FirstAbsent(names, columns, names[0]);
        if FirstAbsent(names, columns, name) {
          var k :| 0 <= k < |names| && names[k] == name && name !in columns &&
            forall m :: 0 <= m < k ==> names[m] in columns;
          assert k == 0;
        }
      } else {
        FirstAbsentShift(names, columns, name);
      }
    }
  }

  lemma FirstAbsentShift(names: seq<string>, columns: seq<string>, name: string)
    requires names != [] && names[0] in columns
    ensures FirstAbsent(names, columns, name) <==> FirstAbsent(names[1..], columns, name)
  {
    if FirstAbsent(names[1..], columns, name) {
      var k :| 0 <= k < |names[1..]| && names[1..][k] == name && name !in columns &&
        forall m :: 0 <= m < k ==> names[1..][m] in columns;
      assert names[k + 1] == name;
      forall m | 0 <= m < k + 1 ensures names[m] in columns {
        if m > 0 {
          assert names[m] == names[1..][m - 1];
        }
      }
    }
    if FirstAbsent(names, columns, name) {
      var k :| 0 <= k < |names| && names[k] == name && name !in columns &&
        forall m :: 0 <= m < k ==> names[m] in columns;
      assert k > 0;
      assert names[1..][k - 1] == name;
      forall m | 0 <= m < k - 1 ensures names[1..][m] in columns {
        assert names[1..][m] == names[m + 1];
      }
    }
  }

  /** The coercion loop as a fold over the listed names. */
  function CoerceColumns(t: Table, names: seq<string>): (c: Coercion)
    requires WellFormed(t)
    ensures WellFormed(c.table) && c.table.columns == t.columns && |c.table.rows| == |t.rows|
    ensures forall i :: 0 <= i < |t.rows| ==> c.table.rows[i].index == t.rows[i].index
    ensures c.missing.None? <==> forall name :: name in names ==> name in t.columns
    ensures c.missing == FirstMissing(names, t.columns)
    decreases |names|
  {
    if names == [] then Coercion(t, None)
    else
      match ColumnIndex(t.columns, names[0])
      case None => Coercion(t, Some(names[0]))
      case Some(j) => CoerceColumns(CoerceColumn(t, j), names[1..])
  }

  /**
   * When `names[k]` is the first listed column the frame lacks, the loop has
   * already converted the columns named before it and raises there.
   */
  lemma {:induction false} CoerceColumnsStopsAtMissing(t: Table, names: seq<string>, k: nat)
    requires WellFormed(t)
    requires k < |names| && names[k] !in t.columns
    requires forall m :: 0 <= m < k ==> names[m] in t.columns
    ensures CoerceColumns(t, names) == Coercion(CoerceColumns(t, names[..k]).table, Some(names[k]))
    decreases k
  {
    if k > 0 {
      var t' := CoerceColumn(t, ColumnIndex(t.columns, names[0]).value);
      assert names[1..][..k - 1] == names[..k][1..];
      assert forall m :: 0 <= m < k - 1 ==> names[1..][m] == names[m + 1];
      CoerceColumnsStopsAtMissing(t', names[1..], k - 1);
    }
  }

  /**
   * What the loop does to each cell when every listed column exists: a cell
   * of a converted column is coerced, every other cell is left as it was.
   */
  lemma {:induction false} CoerceColumnsCells(t: Table, names: seq<string>)
    requires WellFormed(t)
    requires forall name :: name in names ==> name in t.columns
    ensures var u := CoerceColumns(t, names).table;
      forall i, j :: 0 <= i < |t.rows| && 0 <= j < |t.columns| ==>
        u.rows[i].cells[j] ==
          if j in Targets(t.columns, names) then ToNumeric(t.rows[i].cells[j]) else t.rows[i].cells[j]
    decreases |names|
  {
    if names != [] {
      var j0 := ColumnIndex(t.columns, names[0]).value;
      var t' := CoerceColumn(t, j0);
      var u := CoerceColumns(t, names).table;
      assert u == CoerceColumns(t', names[1..]).table;
      CoerceColumnsCells(t', names[1..]);
      TargetsCons(t.columns, names);
      RowWidths(t.rows, |t.columns|);
      forall i, j | 0 <= i < |t.rows| && 0 <= j < |t.columns|
        ensures u.rows[i].cells[j] ==
          if j in Targets(t.columns, names) then ToNumeric(t.rows[i].cells[j]) else t.rows[i].cells[j]
      {
        var c := t.rows[i].cells[j];
        var c' := t'.rows[i].cells[j];
        assert c' == if j == j0 then ToNumeric(c) else c;
        assert u.rows[i].cells[j] == if j in Targets(t.columns, names[1..]) then ToNumeric(c') else c';
        ToNumericIdempotent(c);
      }
    }
  }

  lemma TargetsCons(columns: seq<string>, names: seq<string>)
    requires names != [] && names[0] in columns
    ensures forall j :: j in Targets(columns, names) <==>
              j == ColumnIndex(columns, names[0]).value || j in Targets(columns, names[1..])
  {
  }

  /** The loop leaves a frame alone when its listed columns hold no strings. */
  lemma {:induction false} CoerceColumnsNoText(t: Table, names: seq<string>)
    requires WellFormed(t)
    requires forall name :: name in names ==> name in t.columns
    requires forall i, j :: 0 <= i < |t.rows| && j in Targets(t.columns, names) ==>
               j < |t.rows[i].cells| && !t.rows[i].cells[j].Text?
    ensures CoerceColumns(t, names) == Coercion(t, None)
  {
    var u := CoerceColumns(t, names).table;
    CoerceColumnsCells(t, names);
    RowWidths(t.rows, |t.columns|);
    RowWidths(u.rows, |t.columns|);
    forall i | 0 <= i < |t.rows| ensures u.rows[i] == t.rows[i] {
      forall j | 0 <= j < |t.columns| ensures u.rows[i].cells[j] == t.rows[i].cells[j] {
        if j in Targets(t.columns, names) {
          assert !t.rows[i].cells[j].Text?;
        }
      }
    }
    assert u.rows == t.rows;
  }

  /**
   * Numeric coercion: converted columns hold only numbers and missing
   * values, and running the loop a second time changes nothing.
   */
  lemma CoerceColumnsIdempotent(t: Table, names: seq<string>)
    requires WellFormed(t)
    requires forall name :: name in names ==> name in t.columns
    ensures var u := CoerceColumns(t, names).table;
      && (forall i, j :: 0 <= i < |u.rows| && j in Targets(t.columns, names) ==>
            j < |u.rows[i].cells| && !u.rows[i].cells[j].Text?)
      && CoerceColumns(u, names) == Coercion(u, None)
  {
    var u := CoerceColumns(t, names).table;
    CoerceColumnsCells(t, names);
    RowWidths(u.rows, |t.columns|);
    forall i, j | 0 <= i < |u.rows| && j in Targets(t.columns, names)
      ensures j < |u.rows[i].cells| && !u.rows[i].cells[j].Text?
    {
      var name :| name in names && name in t.columns && ColumnIndex(t.columns, name).value == j;
    }
    CoerceColumnsNoText(u, names);
  }

  // ---------------------------------------------------------------------
  // The script's frame, rewritten in place by the cleaning steps.

  class DataFrame {
    var columns: seq<string>
    var rows: seq<Row>

    function View(): Table
      reads this
    {
      Table(columns, rows)
    }

    constructor (t: Table)
      ensures View() == t
    {
      columns := t.columns;
      rows := t.rows;
    }

    /** Replaces the column names by their stripped forms (app.py:13). */
    method StripColumnNames()
      modifies this
      ensures |columns| == |old(columns)|
      ensures forall k :: 0 <= k < |columns| ==> columns[k] == StripName(old(columns)[k])
      ensures rows == old(rows)
    {
      columns := StripColumns(columns);
    }

    /**
     * The coercion loop (app.py:20-21): each listed column in turn is
     * replaced by its coerced values. Returns the column whose lookup raised `KeyError`, if any; the frame is
     * then left as the loop had rewritten it up to that column.
     */
    method CoerceNumeric(names: seq<string>) returns (missing: Option<string>)
      requires WellFormed(View())
      modifies this
      ensures CoerceColumns(old(View()), names) == Coercion(View(), missing)
    {
      var k := 0;
      while k < |names|
        invariant 0 <= k <= |names|
        invariant WellFormed(View())
        invariant CoerceColumns(old(View()), names) == CoerceColumns(View(), names[k..])
      {
        assert names[k..][0] == names[k] && names[k..][1..] == names[k + 1..];
        match ColumnIndex(columns, names[k]) {
          case None =>
            return Some(names[k]);
          case Some(j) =>
            rows := CoerceColumn(View(), j).rows;
        }
        k := k + 1;
      }
      missing := None;
    }
  }
}
