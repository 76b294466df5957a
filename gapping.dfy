/**
 * The gapping chart's data (app.py:48): the filtered shots grouped by club,
 * one mean carry per club, in ascending order of that mean. A club whose
 * carries are all missing has a NaN mean, which `sort_values` places last;
 * here that mean is `None`.
 */
module Gapping {
  import opened Wrappers
  import opened Cells
  import opened Tables
  import opened Clubs

  /** One bar of the chart. */
  datatype ClubCarry = ClubCarry(club: Cell, meanCarry: Option<real>)

  function Sum(xs: seq<real>): real {
    if xs == [] then 0.0 else xs[0] + Sum(xs[1..])
  }

  /** `Series.mean()` of the non-missing values: NaN (`None`) when there are none. */
  function Mean(xs: seq<real>): (m: Option<real>)
    ensures m.None? <==> xs == []
    ensures m.Some? ==> m.value * |xs| as real == Sum(xs)
  {
    if xs == [] then None else Some(Sum(xs) / |xs| as real)
  }

  /** The non-missing carries of the shots hit with club `c`, in row order. */
  function Carries(rows: seq<Row>, club: nat, carry: nat, c: Cell): seq<real>
    requires forall r :: r in rows ==> club < |r.cells| && carry < |r.cells|
  {
    if rows == [] then []
    else
      var rest := Carries(rows[1..], club, carry, c);
      var cell := rows[0].cells[carry];
      if rows[0].cells[club] == c && cell.Num? then [cell.x] + rest else rest
  }

  /** The clubs of a list of bars, in order. */
  function ClubsOf(bars: seq<ClubCarry>): (clubs: seq<Cell>)
    ensures |clubs| == |bars|
  {
    seq(|bars|, i requires 0 <= i < |bars| => bars[i].club)
  }

  /** Grouping the shots by club and averaging their carries (app.py:48): one entry per club. */
  function GroupMeans(rows: seq<Row>, club: nat, carry: nat): (g: seq<ClubCarry>)
    requires forall r :: r in rows ==> club < |r.cells| && carry < |r.cells|
    ensures ClubsOf(g) == ClubOptions(rows, club)
    ensures forall e :: e in g ==> e.meanCarry == Mean(Carries(rows, club, carry, e.club))
  {
    var clubs := ClubOptions(rows, club);
    var g := seq(|clubs|, i requires 0 <= i < |clubs| => ClubCarry(clubs[i], Mean(Carries(rows, club, carry, clubs[i]))));
    assert ClubsOf(g) == clubs;
    g
  }

  /** Ascending order of mean carry, NaN after every number. */
  predicate MeanLe(a: Option<real>, b: Option<real>) {
    match a
    case None => b.None?
    case Some(x) => b.None? || x <= b.value
  }

  predicate SortedByMean(s: seq<ClubCarry>) {
    forall i, j :: 0 <= i < j < |s| ==> MeanLe(s[i].meanCarry, s[j].meanCarry)
  }

  predicate DistinctClubs(s: seq<ClubCarry>) {
    forall i, j :: 0 <= i < j < |s| ==> s[i].club != s[j].club
  }

  /** Inserts `e` before the first entry it does not sort after. */
  function Insert(e: ClubCarry, s: seq<ClubCarry>): (r: seq<ClubCarry>)
    requires SortedByMean(s)
    ensures SortedByMean(r)
    ensures multiset(r) == multiset(s) + multiset{e}
    ensures forall x :: x in r <==> x == e || x in s
    ensures DistinctClubs(s) && (forall x :: x in s ==> x.club != e.club) ==> DistinctClubs(r)
  {
    if s == [] then [e]
    else if MeanLe(e.meanCarry, s[0].meanCarry) then
      InsertFront(e, s);
      [e] + s
    else
      assert s == [s[0]] + s[1..];
      assert SortedByMean(s[1..]) by {
        forall i, j | 0 <= i < j < |s| - 1 ensures MeanLe(s[1..][i].meanCarry, s[1..][j].meanCarry) {
          assert s[1..][i] == s[i + 1] && s[1..][j] == s[j + 1];
        }
      }
      var rest := Insert(e, s[1..]);
      InsertBehind(e, s, rest);
      [s[0]] + rest
  }

  lemma InsertFront(e: ClubCarry, s: seq<ClubCarry>)
    requires SortedByMean(s) && s != [] && MeanLe(e.meanCarry, s[0].meanCarry)
    ensures SortedByMean([e] + s)
    ensures DistinctClubs(s) && (forall x :: x in s ==> x.club != e.club) ==> DistinctClubs([e] + s)
  {
  }

  lemma InsertBehind(e: ClubCarry, s: seq<ClubCarry>, rest: seq<ClubCarry>)
    requires SortedByMean(s) && s != [] && !MeanLe(e.meanCarry, s[0].meanCarry)
    requires SortedByMean(rest) && forall x :: x in rest <==> x == e || x in s[1..]
    requires DistinctClubs(s[1..]) && (forall x :: x in s[1..] ==> x.club != e.club) ==> DistinctClubs(rest)
    ensures SortedByMean([s[0]] + rest)
    ensures DistinctClubs(s) && (forall x :: x in s ==> x.club != e.club) ==> DistinctClubs([s[0]] + rest)
  {
    var r := [s[0]] + rest;
    assert s == [s[0]] + s[1..];
    forall x | x in rest ensures MeanLe(s[0].meanCarry, x.meanCarry) && (DistinctClubs(s) && e.club != s[0].club ==> x.club != s[0].club) {
      if x != e {
        var k :| 0 <= k < |s[1..]| && s[1..][k] == x;
        assert s[k + 1] == x;
      }
    }
    forall i, j | 0 <= i < j < |r| ensures MeanLe(r[i].meanCarry, r[j].meanCarry) {
      assert r[j] == rest[j - 1] && rest[j - 1] in rest;
      if i > 0 {
        assert r[i] == rest[i - 1];
      }
    }
    if DistinctClubs(s) && (forall x :: x in s ==> x.club != e.club) {
      assert DistinctClubs(s[1..]);
      assert forall x :: x in s[1..] ==> x in s;
      forall i, j | 0 <= i < j < |r| ensures r[i].club != r[j].club {
        assert r[j] == rest[j - 1] && rest[j - 1] in rest;
        if i > 0 {
          assert r[i] == rest[i - 1];
        }
      }
    }
  }

  /** `sort_values`: the same entries, ascending by mean carry. */
  function SortByMean(s: seq<ClubCarry>): (r: seq<ClubCarry>)
    ensures SortedByMean(r)
    ensures multiset(r) == multiset(s)
    ensures forall x :: x in r <==> x in s
    ensures DistinctClubs(s) ==> DistinctClubs(r)
  {
    if s == [] then []
    else
      var rest := SortByMean(s[1..]);
      SortStep(s, rest);
      Insert(s[0], rest)
  }

  lemma SortStep(s: seq<ClubCarry>, rest: seq<ClubCarry>)
    requires s != []
    requires multiset(rest) == multiset(s[1..]) && forall x :: x in rest <==> x in s[1..]
    requires DistinctClubs(s[1..]) ==> DistinctClubs(rest)
    ensures multiset(s) == multiset(rest) + multiset{s[0]}
    ensures forall x :: x in s <==> x == s[0] || x in rest
    ensures DistinctClubs(s) ==> DistinctClubs(rest) && forall x :: x in rest ==> x.club != s[0].club
  {
    assert s == [s[0]] + s[1..];
    if DistinctClubs(s) {
      assert DistinctClubs(s[1..]);
      forall x | x in rest ensures x.club != s[0].club {
        var i :| 0 <= i < |s[1..]| && s[1..][i] == x;
        assert s[i + 1] == x;
      }
    }
  }

  /**
   * The chart's rows: one per distinct club of the filtered frame, each with
   * the mean of that club's non-missing carries, in non-decreasing order of
   * that mean. A carry column still holding strings makes pandas raise, so
   * the caller passes a coerced column.
   */
  function AverageCarry(rows: seq<Row>, club: nat, carry: nat): (r: seq<ClubCarry>)
    requires forall row :: row in rows ==> club < |row.cells| && carry < |row.cells|
    requires forall row :: row in rows ==> !row.cells[carry].Text?
    ensures SortedByMean(r)
    ensures DistinctClubs(r)
    ensures forall c :: (exists e :: e in r && e.club == c) <==> c in Column(rows, club)
    ensures forall e :: e in r ==> e.meanCarry == Mean(Carries(rows, club, carry, e.club))
  {
    var g := GroupMeans(rows, club, carry);
    BarsOfGroups(rows, club, g);
    SortByMean(g)
  }

  /** The groups have one bar per club of the column, each club once. */
  lemma BarsOfGroups(rows: seq<Row>, club: nat, g: seq<ClubCarry>)
    requires forall row :: row in rows ==> club < |row.cells|
    requires ClubsOf(g) == ClubOptions(rows, club)
    ensures DistinctClubs(g)
    ensures forall c :: (exists e :: e in g && e.club == c) <==> c in Column(rows, club)
  {
    var clubs := ClubOptions(rows, club);
    assert forall i :: 0 <= i < |g| ==> g[i].club == clubs[i];
    forall c ensures (exists e :: e in g && e.club == c) <==> c in Column(rows, club) {
      if c in clubs {
        var i :| 0 <= i < |clubs| && clubs[i] == c;
        assert g[i] in g && g[i].club == c;
      }
      if exists e :: e in g && e.club == c {
        var e :| e in g && e.club == c;
        var i :| 0 <= i < |g| && g[i] == e;
        assert clubs[i] == c;
      }
    }
  }

  // ---------------------------------------------------------------------
  // The mean is a mean.

  lemma {:induction false} SumBounds(xs: seq<real>, lo: real, hi: real)
    requires forall k :: 0 <= k < |xs| ==> lo <= xs[k] <= hi
    ensures |xs| as real * lo <= Sum(xs) <= |xs| as real * hi
  {
    if xs != [] {
      SumBounds(xs[1..], lo, hi);
    }
  }

  /** A club's mean carry lies between its shortest and its longest carry. */
  lemma MeanWithinCarries(xs: seq<real>, lo: real, hi: real)
    requires xs != []
    requires forall k :: 0 <= k < |xs| ==> lo <= xs[k] <= hi
    ensures Mean(xs).Some? && lo <= Mean(xs).value <= hi
  {
    var n := |xs| as real;
    SumBounds(xs, lo, hi);
    assert Sum(xs) / n >= lo by {
      assert Sum(xs) >= n * lo;
    }
    assert Sum(xs) / n <= hi by {
      assert Sum(xs) <= n * hi;
    }
  }
}
