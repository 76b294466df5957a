/**
 * The club filter of the dashboard: its options are the distinct clubs of
 * the cleaned frame (app.py:25), and the selection keeps the rows whose club
 * was picked (app.py:28).
 */
module Clubs {
  import opened Cells
  import opened Tables

  /** Position of the first occurrence of `x` in `s`. */
  function FirstIndex(s: seq<Cell>, x: Cell): (k: nat)
    requires x in s
    ensures k < |s| && s[k] == x && x !in s[..k]
  {
    if s[0] == x then 0
    else
      var k := 1 + FirstIndex(s[1..], x);
      assert s[..k] == [s[0]] + s[1..][..k - 1];
      k
  }

  /** The first occurrence in a prefix is the first occurrence in the whole sequence. */
  lemma FirstIndexPrefix(s: seq<Cell>, n: nat, x: Cell)
    requires n <= |s| && x in s[..n]
    ensures FirstIndex(s[..n], x) == FirstIndex(s, x)
  {
  }

  /**
   * `r` lists the values of `s`: every one of them, each once, in order of
   * first appearance.
   */
  ghost predicate UniqueInOrder(s: seq<Cell>, r: seq<Cell>) {
    && (forall x :: x in r <==> x in s)
    && (forall i, j :: 0 <= i < j < |r| ==> r[i] != r[j])
    && (forall i, j :: 0 <= i < j < |r| ==> FirstIndex(s, r[i]) < FirstIndex(s, r[j]))
  }

  /** `Series.unique()`: each distinct value once, in order of first appearance. */
  function Distinct(s: seq<Cell>): (r: seq<Cell>)
    ensures UniqueInOrder(s, r)
  {
    if s == [] then []
    else
      var p := Distinct(s[..|s| - 1]);
      UniqueInOrderSnoc(s, p);
      if s[|s| - 1] in p then p else p + [s[|s| - 1]]
  }

  /** Listing one more value: append it if it is new. */
  lemma UniqueInOrderSnoc(s: seq<Cell>, p: seq<Cell>)
    requires s != [] && UniqueInOrder(s[..|s| - 1], p)
    ensures UniqueInOrder(s, if s[|s| - 1] in p then p else p + [s[|s| - 1]])
  {
    var n := |s| - 1;
    assert s == s[..n] + [s[n]];
    forall x | x in p ensures FirstIndex(s, x) < n && FirstIndex(s[..n], x) == FirstIndex(s, x) {
      FirstIndexPrefix(s, n, x);
    }
    assert forall i :: 0 <= i < |p| ==> p[i] in p;
    if s[n] !in p {
      var r := p + [s[n]];
      assert FirstIndex(s, s[n]) == n;
      assert forall i :: 0 <= i < |p| ==> r[i] == p[i];
    }
  }

  /** The options of the club filter: the distinct clubs in order of first appearance (app.py:25). */
  function ClubOptions(rows: seq<Row>, club: nat): (options: seq<Cell>)
    requires forall r :: r in rows ==> club < |r.cells|
    ensures UniqueInOrder(Column(rows, club), options)
  {
    Distinct(Column(rows, club))
  }

  /**
   * Filtering by the picked clubs (app.py:28): exactly the rows whose club
   * is selected, in their original order.
   */
  function SelectClubs(rows: seq<Row>, club: nat, selection: seq<Cell>): (r: seq<Row>)
    requires forall row :: row in rows ==> club < |row.cells|
    ensures forall row :: row in r <==> row in rows && row.cells[club] in selection
    ensures IndexIncreasing(rows) ==> IndexIncreasing(r)
  {
    Where(rows, club, c => c in selection)
  }

  /** With the default selection, every club, the filter returns the frame unchanged. */
  lemma DefaultSelectionKeepsAll(rows: seq<Row>, club: nat)
    requires forall r :: r in rows ==> club < |r.cells|
    ensures SelectClubs(rows, club, ClubOptions(rows, club)) == rows
  {
    var options := ClubOptions(rows, club);
    forall r | r in rows ensures r.cells[club] in options {
      var i :| 0 <= i < |rows| && rows[i] == r;
      assert Column(rows, club)[i] == r.cells[club];
    }
    WhereAll(rows, club, c => c in options);
  }
}
