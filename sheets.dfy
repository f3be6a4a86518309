/**
 * The files the bid compilers read back (the saved forecast table, the
 * demand forecast) as sheets of rows, and the left join on time that both
 * compilers use to lay a file onto the 48 trading-day periods
 * (FES_MasterScript_PRODUCTION.py, create_aggregation).
 */
module Sheets {
  import opened Numeric
  import opened Columns
  import opened TradingDay
  import opened Text

  /** A column a compiler reads: a forecast column, an extra solar site S3..S25, the demand, or the derived QH MW. */
  datatype Field =
    | Gen(source: Source)
    | ExtraSolar(site: nat)
    | Demand
    | QhMw

  /** "Meteo S{i} (MW)": sites 1 and 2 are forecast columns, the others extra sites. */
  function SolarField(i: nat): Field
  {
    if i == 1 then Gen(MeteoS1) else if i == 2 then Gen(MeteoS2) else ExtraSolar(i)
  }

  lemma SolarFieldInjective(i: nat, j: nat)
    requires SolarField(i) == SolarField(j)
    ensures i == j
  {
  }

  /** A row of a sheet: its time and its non-missing cells (a missing cell is NaN). */
  datatype Row = Row(time: int, cells: map<Field, real>)

  /** A sheet read from a file: its header and its rows in file order. */
  datatype Sheet = Sheet(columns: set<Field>, rows: seq<Row>)

  /** A cell after fillna(0.0): a missing value reads as 0. */
  function Cell(r: Row, c: Field): real
  {
    if c in r.cells then r.cells[c] else 0.0
  }

  predicate DistinctTimes(rows: seq<Row>) {
    forall i, j :: 0 <= i < j < |rows| ==> rows[i].time != rows[j].time
  }

  /** The rows with time t, in file order. */
  function Matching(rows: seq<Row>, t: int): (ms: seq<Row>)
    ensures |ms| <= |rows|
  {
    if rows == [] then []
    else Matching(rows[..|rows| - 1], t) + if rows[|rows| - 1].time == t then [rows[|rows| - 1]] else []
  }

  /** Exactly the rows with time t are matched, and in file order. */
  lemma {:induction false} MatchingMembers(rows: seq<Row>, t: int)
    ensures forall r :: r in Matching(rows, t) <==> r in rows && r.time == t
  {
    if rows != [] {
      var n := |rows| - 1;
      MatchingMembers(rows[..n], t);
      assert rows == rows[..n] + [rows[n]];
    }
  }

  /** With distinct times, a time matches the one row that has it, or none. */
  lemma {:induction false} MatchingDistinct(rows: seq<Row>, t: int)
    requires DistinctTimes(rows)
    ensures |Matching(rows, t)| <= 1
    ensures forall i :: 0 <= i < |rows| && rows[i].time == t ==> Matching(rows, t) == [rows[i]]
    ensures (forall i :: 0 <= i < |rows| ==> rows[i].time != t) ==> Matching(rows, t) == []
  {
    if rows != [] {
      var n := |rows| - 1;
      assert DistinctTimes(rows[..n]);
      MatchingDistinct(rows[..n], t);
      if rows[n].time == t {
        assert forall i :: 0 <= i < n ==> rows[..n][i].time != t;
      }
    }
  }

  /** A left row with the selected columns of a matching right row added. */
  function Merge(l: Row, r: Row, cols: set<Field>): Row
  {
    Row(l.time, l.cells + map c | c in r.cells && c in cols :: r.cells[c])
  }

  /** One left row joined: once per matching right row, or once unchanged when nothing matches. */
  function JoinRow(l: Row, right: seq<Row>, cols: set<Field>): (j: seq<Row>)
    ensures |j| >= 1 && |j| >= |Matching(right, l.time)|
  {
    var ms := Matching(right, l.time);
    if ms == [] then [l] else seq(|ms|, k requires 0 <= k < |ms| => Merge(l, ms[k], cols))
  }

  /** merge(on=time, how="left"): the left rows in order, each repeated once per matching right row. */
  function LeftJoin(left: seq<Row>, right: seq<Row>, cols: set<Field>): (j: seq<Row>)
    ensures |j| >= |left|
  {
    if left == [] then []
    else LeftJoin(left[..|left| - 1], right, cols) + JoinRow(left[|left| - 1], right, cols)
  }

  /**
   * When the right side has distinct times the join keeps the left rows one
   * for one: each takes the selected columns of the right row with its time,
   * if there is one.
   */
  lemma LeftJoinDistinct(left: seq<Row>, right: seq<Row>, cols: set<Field>)
    requires DistinctTimes(right)
    ensures |LeftJoin(left, right, cols)| == |left|
    ensures forall k :: 0 <= k < |left| ==> LeftJoin(left, right, cols)[k] == JoinedRow(left[k], right, cols)
  {
    if left != [] {
      forall k | 0 <= k < |left|
        ensures LeftJoin(left, right, cols)[k] == JoinedRow(left[k], right, cols)
      {
        LeftJoinDistinctAt(left, right, cols, k);
      }
      LeftJoinDistinctAt(left, right, cols, 0);
    }
  }

  /** Row k of the join, when the right side has distinct times. */
  lemma {:induction false} LeftJoinDistinctAt(left: seq<Row>, right: seq<Row>, cols: set<Field>, k: nat)
    requires DistinctTimes(right) && k < |left|
    ensures |LeftJoin(left, right, cols)| == |left|
    ensures LeftJoin(left, right, cols)[k] == JoinedRow(left[k], right, cols)
  {
    var n := |left| - 1;
    JoinRowDistinct(left[n], right, cols);
    var init := LeftJoin(left[..n], right, cols);
    assert LeftJoin(left, right, cols) == init + [JoinedRow(left[n], right, cols)];
    if n == 0 {
      assert init == [];
    } else if k < n {
      LeftJoinDistinctAt(left[..n], right, cols, k);
      assert left[..n][k] == left[k];
    } else {
      LeftJoinDistinctAt(left[..n], right, cols, 0);
    }
  }

  /** The row a left row becomes when the right side has distinct times. */
  function JoinedRow(l: Row, right: seq<Row>, cols: set<Field>): Row
  {
    var ms := Matching(right, l.time);
    if ms == [] then l else Merge(l, ms[0], cols)
  }

  lemma JoinRowDistinct(l: Row, right: seq<Row>, cols: set<Field>)
    requires DistinctTimes(right)
    ensures JoinRow(l, right, cols) == [JoinedRow(l, right, cols)]
  {
    MatchingDistinct(right, l.time);
  }

  /** Two right rows with the time of a left row make the join longer than the left side. */
  lemma DuplicateTimeAddsRow(left: seq<Row>, right: seq<Row>, cols: set<Field>, k: nat, i: nat, j: nat)
    requires k < |left| && i < j < |right|
    requires right[i].time == left[k].time && right[j].time == left[k].time
    ensures |LeftJoin(left, right, cols)| > |left|
  {
    JoinLength(left, right, cols, k);
    TwoMatches(right, left[k].time, i, j);
  }

  /** Two rows with time t are two matches, whether or not they are equal. */
  lemma TwoMatches(rows: seq<Row>, t: int, i: nat, j: nat)
    requires i < j < |rows| && rows[i].time == t && rows[j].time == t
    ensures |Matching(rows, t)| >= 2
  {
    if rows[i] == rows[j] {
      MatchingCountsCopies(rows, t, i, j);
    } else {
      MatchingMembers(rows, t);
      var ms := Matching(rows, t);
      assert rows[i] in ms && rows[j] in ms;
    }
  }

  /** The join is at least as long as the left side, plus the extra matches of any one left row. */
  lemma {:induction false} JoinLength(left: seq<Row>, right: seq<Row>, cols: set<Field>, k: nat)
    requires k < |left|
    ensures |LeftJoin(left, right, cols)| >= |left| - 1 + |Matching(right, left[k].time)|
  {
    var n := |left| - 1;
    var rest := LeftJoin(left[..n], right, cols);
    var last := JoinRow(left[n], right, cols);
    assert |LeftJoin(left, right, cols)| == |rest| + |last|;
    if k < n {
      JoinLength(left[..n], right, cols, k);
      assert left[..n][k] == left[k];
      assert |last| >= 1;
    } else {
      assert k == n;
    }
  }

  /** Two positions holding the same row with time t are both matched. */
  lemma {:induction false} MatchingCountsCopies(rows: seq<Row>, t: int, i: nat, j: nat)
    requires i < j < |rows| && rows[i].time == t && rows[j].time == t
    ensures |Matching(rows, t)| >= 2
  {
    var n := |rows| - 1;
    if j < n {
      MatchingCountsCopies(rows[..n], t, i, j);
    } else {
      MatchingMembers(rows[..n], t);
      assert rows[..n][i] in Matching(rows[..n], t);
    }
  }

  /** The 48 trading-day periods as the left side of a join, with no cells yet. */
  function PeriodRows(): (rows: seq<Row>)
    ensures |rows| == PeriodCount
    ensures forall k :: 0 <= k < PeriodCount ==> rows[k] == Row(Grid()[k], map[])
  {
    seq(PeriodCount, k requires 0 <= k < PeriodCount => Row(Grid()[k], map[]))
  }

  /** The cells of one row of a saved forecast table: a missing (all-NaN) column leaves the cell missing. */
  function ForecastCells(f: Frame, k: nat): map<Field, real>
    requires WellFormed(f) && k < |f.times|
  {
    map s | s in f.columns && f.columns[s].Values? :: Gen(s) := f.columns[s].cells[k]
  }

  /** A forecast table written to a file and read back: its time column and one column per source. */
  function ForecastSheet(f: Frame): (s: Sheet)
    requires WellFormed(f)
    ensures |s.rows| == |f.times|
  {
    Sheet(set s | s in f.columns :: Gen(s),
          seq(|f.times|, k requires 0 <= k < |f.times| => Row(f.times[k], ForecastCells(f, k))))
  }

  /** A sheet read from a forecast table has the table's times, ascending, and its cells are the table's values. */
  lemma ForecastSheetRows(f: Frame, k: nat, s: Source)
    requires WellFormed(f) && StrictlyIncreasing(f.times) && k < |f.times|
    ensures DistinctTimes(ForecastSheet(f).rows)
    ensures ForecastSheet(f).rows[k].time == f.times[k]
    ensures s in f.columns && f.columns[s].Values? ==> Cell(ForecastSheet(f).rows[k], Gen(s)) == f.columns[s].cells[k]
    ensures !(s in f.columns && f.columns[s].Values?) ==> Cell(ForecastSheet(f).rows[k], Gen(s)) == 0.0
  {
  }
}
