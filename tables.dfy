/**
 * The in-memory data frame: column names, and rows that keep the index label
 * pandas gave them when the CSV was read (0, 1, 2, ...). Boolean-mask
 * selection `df[mask]` keeps the labels, so "row order is preserved" reads
 * as "labels stay strictly increasing".
 */
module Tables {
  import opened Wrappers
  import opened Cells

  datatype Row = Row(index: nat, cells: seq<Cell>)

  datatype Table = Table(columns: seq<string>, rows: seq<Row>)

  /** `df[name]` on a frame that has no such column raises `KeyError(name)`. */
  datatype KeyError = KeyError(column: string)

  predicate IndexIncreasing(rows: seq<Row>) {
    forall i, j :: 0 <= i < j < |rows| ==> rows[i].index < rows[j].index
  }

  predicate HasWidth(rows: seq<Row>, width: nat) {
    forall r :: r in rows ==> |r.cells| == width
  }

  /** `HasWidth` read row by row. */
  lemma RowWidths(rows: seq<Row>, width: nat)
    ensures HasWidth(rows, width) <==> forall i :: 0 <= i < |rows| ==> |rows[i].cells| == width
  {
  }

  /** The index labels the rows carry. */
  function Indices(rows: seq<Row>): set<nat> {
    set r | r in rows :: r.index
  }

  /** Rows that carry the same labels position by position carry the same set of labels (`Indices`). */
  lemma SameIndices(a: seq<Row>, b: seq<Row>)
    requires |a| == |b| && forall i :: 0 <= i < |a| ==> a[i].index == b[i].index
    ensures Indices(a) == Indices(b)
  {
  }

  /** Every row has one cell per column, and labels are in order. */
  predicate WellFormed(t: Table) {
    HasWidth(t.rows, |t.columns|) && IndexIncreasing(t.rows)
  }

  /** The frame `read_csv` hands over: one row per record, labelled 0, 1, 2, ... */
  function FromRecords(header: seq<string>, records: seq<seq<Cell>>): (t: Table)
    requires forall k :: 0 <= k < |records| ==> |records[k]| == |header|
    ensures WellFormed(t)
    ensures t.columns == header && |t.rows| == |records|
    ensures forall k :: 0 <= k < |records| ==> t.rows[k] == Row(k, records[k])
  {
    Table(header, seq(|records|, k requires 0 <= k < |records| => Row(k, records[k])))
  }

  /** Column lookup `df[name]`: the first column with that name, if any. */
  function ColumnIndex(columns: seq<string>, name: string): (r: Option<nat>)
    ensures r.None? <==> name !in columns
    ensures r.Some? ==> r.value < |columns| && columns[r.value] == name && name !in columns[..r.value]
  {
    if columns == [] then None
    else if columns[0] == name then Some(0)
    else
      match ColumnIndex(columns[1..], name)
      case None => None
      case Some(k) =>
        assert columns[..k + 1] == [columns[0]] + columns[1..][..k];
        Some(k + 1)
  }

  /** The values of column `j`, row by row: `df[name]` as a series. */
  function Column(rows: seq<Row>, j: nat): (s: seq<Cell>)
    requires forall r :: r in rows ==> j < |r.cells|
    ensures |s| == |rows|
  {
    seq(|rows|, i requires 0 <= i < |rows| => rows[i].cells[j])
  }

  /**
   * Boolean-mask selection `df[keep(df[col])]`: the rows whose cell in
   * column `j` satisfies `keep`, in their original order.
   */
  function Where(rows: seq<Row>, j: nat, keep: Cell -> bool): (res: seq<Row>)
    requires forall r :: r in rows ==> j < |r.cells|
    ensures |res| <= |rows|
    ensures forall r :: r in res ==> r in rows && keep(r.cells[j])
    ensures forall r :: r in rows && keep(r.cells[j]) ==> r in res
    ensures IndexIncreasing(rows) ==> IndexIncreasing(res)
  {
    if rows == [] then []
    else
      var rest := Where(rows[1..], j, keep);
      if keep(rows[0].cells[j]) then
        assert IndexIncreasing(rows) ==> forall r :: r in rest ==> rows[0].index < r.index by {
          if IndexIncreasing(rows) {
            forall r | r in rest ensures rows[0].index < r.index {
              TailAfterHead(rows, r);
            }
          }
        }
        [rows[0]] + rest
      else
        rest
  }

  /** A mask that holds on every row selects the whole frame. */
  lemma {:induction false} WhereAll(rows: seq<Row>, j: nat, keep: Cell -> bool)
    requires forall r :: r in rows ==> j < |r.cells| && keep(r.cells[j])
    ensures Where(rows, j, keep) == rows
  {
    if rows != [] {
      WhereAll(rows[1..], j, keep);
    }
  }

  lemma SameMembersBothEmpty(a: seq<Row>, b: seq<Row>)
    requires forall r :: r in a <==> r in b
    ensures a == [] <==> b == []
  {
    if a != [] {
      assert a[0] in a;
    }
    if b != [] {
      assert b[0] in b;
    }
  }

  lemma InTail(s: seq<Row>, r: Row)
    requires r in s && r != s[0]
    ensures r in s[1..]
  {
  }

  /** In increasing order, every row after the first has a larger index. */
  lemma TailAfterHead(a: seq<Row>, r: Row)
    requires IndexIncreasing(a) && a != [] && r in a[1..]
    ensures a[0].index < r.index && r != a[0]
  {
  }

  /**
   * Rows with strictly increasing labels are determined by which rows they
   * hold: the membership and order that `Where` promises fix its result.
   */
  lemma {:induction false} RowsDeterminedByMembers(a: seq<Row>, b: seq<Row>)
    requires IndexIncreasing(a) && IndexIncreasing(b)
    requires forall r :: r in a <==> r in b
    ensures a == b
  {
    SameMembersBothEmpty(a, b);
    if a != [] {
      assert a == [a[0]] + a[1..];
      assert b == [b[0]] + b[1..];
      assert a[0] == b[0] by {
        if a[0] != b[0] {
          assert a[0] in a && b[0] in b;
          InTail(b, a[0]);
          InTail(a, b[0]);
          TailAfterHead(b, a[0]);
          TailAfterHead(a, b[0]);
        }
      }
      forall r ensures r in a[1..] <==> r in b[1..] {
        if r in a[1..] {
          TailAfterHead(a, r);
          assert r in a;
          InTail(b, r);
        }
        if r in b[1..] {
          TailAfterHead(b, r);
          assert r in b;
          InTail(a, r);
        }
      }
      RowsDeterminedByMembers(a[1..], b[1..]);
    }
  }
}
