/**
 * The IDA-1 bid compiler (FES_IDA1_Compiler.py, IDA1BidCompiler): the
 * evening IDA-1 forecast is set against the morning D-1 forecast of the same
 * trading day, period by period, and the difference of their generation
 * totals, D-1 minus IDA-1, is bid at both prices of the IDA-1 auction file.
 * A negative adjustment sells more, a positive one buys back.
 */
module Ida1 {
  import opened Outcomes
  import opened Numeric
  import opened Columns
  import opened Sheets
  import opened Routing

  /** The ten generation columns every total starts from, in the source's order. */
  const BaseGenerationFields: seq<Field> :=
    [Gen(MeteoRoi), Gen(MeteoNi), Gen(MeteoTb), Gen(MeteoCk), Gen(MeteoLd), Gen(MeteoCd),
     Gen(NaiveNonwind), Gen(SelfForecast), Gen(MeteoDt), Gen(MeteoMur)]

  /** The highest solar site number the totals look for. */
  const LastSolarSite: nat := 25

  /** The solar columns "Meteo S1 (MW)" up to site n-1 that a header holds, by site number. */
  function SolarFieldsIn(columns: set<Field>, n: nat): (fs: seq<Field>)
    ensures forall i :: 1 <= i < n ==> (SolarField(i) in fs <==> SolarField(i) in columns)
    ensures forall f :: f in fs ==> f in columns && exists i :: 1 <= i < n && f == SolarField(i)
  {
    if n <= 1 then []
    else
      var rest := SolarFieldsIn(columns, n - 1);
      assert forall i :: 1 <= i < n - 1 ==> SolarField(i) != SolarField(n - 1) by {
        forall i | 1 <= i < n - 1
          ensures SolarField(i) != SolarField(n - 1)
        {
          if SolarField(i) == SolarField(n - 1) {
            SolarFieldInjective(i, n - 1);
          }
        }
      }
      rest + (if SolarField(n - 1) in columns then [SolarField(n - 1)] else [])
  }

  /** One more step of the site loop extends the list by that site's column, if the header holds it. */
  lemma AppendSolar(before: seq<Field>, after: seq<Field>, columns: set<Field>, i: nat)
    requires i >= 1 && before == BaseGenerationFields + SolarFieldsIn(columns, i)
    requires after == if SolarField(i) in columns then before + [SolarField(i)] else before
    ensures after == BaseGenerationFields + SolarFieldsIn(columns, i + 1)
  {
    assert SolarFieldsIn(columns, i + 1) == SolarFieldsIn(columns, i) + (if SolarField(i) in columns then [SolarField(i)] else []);
  }

  /** gen_cols: the base columns, then each solar column the D-1 header holds. */
  function SummedFields(d1Columns: set<Field>): seq<Field>
  {
    BaseGenerationFields + SolarFieldsIn(d1Columns, LastSolarSite + 1)
  }

  /** The fields of a list that a sheet's header holds, in list order. */
  function Present(fields: seq<Field>, columns: set<Field>): (ps: seq<Field>)
    ensures forall f :: f in ps <==> f in fields && f in columns
  {
    if fields == [] then []
    else (if fields[0] in columns then [fields[0]] else []) + Present(fields[1..], columns)
  }

  /** The cells of a row under the given fields, a missing value read as 0 as the skipna sum does. */
  function CellsOf(r: Row, fields: seq<Field>): (cs: seq<real>)
    ensures |cs| == |fields| && forall i :: 0 <= i < |fields| ==> cs[i] == Cell(r, fields[i])
  {
    seq(|fields|, i requires 0 <= i < |fields| => Cell(r, fields[i]))
  }

  /** The generation total of each row of a sheet over the fields it holds. */
  function Totals(s: Sheet, fields: seq<Field>): (ts: seq<real>)
    ensures |ts| == |s.rows|
  {
    var present := Present(fields, s.columns);
    seq(|s.rows|, k requires 0 <= k < |s.rows| => Sum(CellsOf(s.rows[k], present)))
  }

  /** A row of the adjustment table; None is a cell pandas fills with NaN or NaT. */
  datatype AdjustmentRow = AdjustmentRow(dateTime: Option<int>, d1Total: Option<real>, ida1Total: Option<real>, adjustment: Option<real>)

  function RoundedAt(ts: seq<real>, k: nat): Option<real>
  {
    if k < |ts| then Some(Round1(ts[k])) else None
  }

  function Max(a: nat, b: nat): nat
  {
    if a >= b then a else b
  }

  /**
   * The adjustment table over given columns: the two total series are aligned
   * on their row positions, so the table runs to the longer sheet, and a
   * position only one sheet has gets no adjustment.
   */
  function AdjustmentTable(d1: Sheet, ida1: Sheet, fields: seq<Field>): (t: seq<AdjustmentRow>)
    ensures |t| == Max(|d1.rows|, |ida1.rows|)
  {
    var t1 := Totals(d1, fields);
    var t2 := Totals(ida1, fields);
    seq(Max(|d1.rows|, |ida1.rows|), k requires 0 <= k =>
      AdjustmentRow(
        if k < |d1.rows| then Some(d1.rows[k].time) else None,
        RoundedAt(t1, k),
        RoundedAt(t2, k),
        if k < |t1| && k < |t2| then Some(Round1(t1[k] - t2[k])) else None))
  }

  /** The adjustment table calculate_adjustment builds from the two forecasts. */
  function Adjustments(d1: Sheet, ida1: Sheet): seq<AdjustmentRow>
  {
    AdjustmentTable(d1, ida1, SummedFields(d1.columns))
  }

  /** A line of the IDA-1 bid sheet: the period (blank on the totals line) and the quantity at -150 and at 3000.00. */
  datatype Ida1Bid = Ida1Bid(period: Option<nat>, atLowPrice: Option<real>, atHighPrice: Option<real>)

  /** The adjustments of a table with a missing one read as 0, as Series.sum skips NaN. */
  function FilledAdjustments(rows: seq<AdjustmentRow>): (xs: seq<real>)
    ensures |xs| == |rows|
    ensures forall k :: 0 <= k < |rows| ==> xs[k] == (if rows[k].adjustment.Some? then rows[k].adjustment.value else 0.0)
  {
    seq(|rows|, k requires 0 <= k < |rows| => if rows[k].adjustment.Some? then rows[k].adjustment.value else 0.0)
  }

  /** The compiler's state: each frame is None until the step that produces it has run. */
  class Ida1BidCompiler {
    var d1Forecast: Option<Sheet>
    var ida1Forecast: Option<Sheet>
    var adjustment: Option<seq<AdjustmentRow>>

    constructor()
      ensures d1Forecast == None && ida1Forecast == None && adjustment == None
    {
      d1Forecast := None;
      ida1Forecast := None;
      adjustment := None;
    }

    /** The downloaded IDA-1 forecast becomes the compiler's IDA-1 frame. */
    method SetIda1Forecast(s: Sheet)
      modifies this
      ensures ida1Forecast == Some(s)
      ensures d1Forecast == old(d1Forecast) && adjustment == old(adjustment)
    {
      ida1Forecast := Some(s);
    }

    /**
     * load_d1_forecast: the morning's D-1 workbook of the trading day, given
     * as the sheet read from it or None when the file does not exist.
     */
    method LoadD1Forecast(date: string, file: Option<Sheet>) returns (r: Result<Sheet>)
      modifies this
      ensures file.None? ==> r == Err(MissingFile(ForecastFileName(date, 1))) && d1Forecast == old(d1Forecast)
      ensures file.Some? ==> r == Ok(file.value) && d1Forecast == file
      ensures ida1Forecast == old(ida1Forecast) && adjustment == old(adjustment)
    {
      if file.None? {
        return Err(MissingFile(ForecastFileName(date, 1)));
      }
      d1Forecast := file;
      r := Ok(file.value);
    }

    /** calculate_adjustment: the table of D-1 total minus IDA-1 total per period. */
    method CalculateAdjustment() returns (table: seq<AdjustmentRow>)
      requires d1Forecast.Some? && ida1Forecast.Some?
      modifies this
      ensures d1Forecast == old(d1Forecast) && ida1Forecast == old(ida1Forecast)
      ensures table == Adjustments(d1Forecast.value, ida1Forecast.value)
      ensures adjustment == Some(table)
    {
      var d1 := d1Forecast.value;
      var ida1 := ida1Forecast.value;
      var fields := BaseGenerationFields;
      for i := 1 to LastSolarSite + 1
        invariant fields == BaseGenerationFields + SolarFieldsIn(d1.columns, i)
        invariant d1Forecast == Some(d1) && ida1Forecast == Some(ida1)
      {
        ghost var before := fields;
        if SolarField(i) in d1.columns {
          fields := fields + [SolarField(i)];
        }
        AppendSolar(before, fields, d1.columns, i);
      }
      table := AdjustmentTable(d1, ida1, fields);
      adjustment := Some(table);
    }

    /**
     * generate_ida1_bids: one line per adjustment row, numbered from 1, with
     * the adjustment at both prices, then a totals line holding the rounded
     * sum of the adjustments present.
     */
    method GenerateIda1Bids() returns (bids: seq<Ida1Bid>)
      requires adjustment.Some?
      ensures |bids| == |adjustment.value| + 1
      ensures forall k :: 0 <= k < |adjustment.value| ==>
        bids[k] == Ida1Bid(Some(k + 1), adjustment.value[k].adjustment, adjustment.value[k].adjustment)
      ensures bids[|adjustment.value|] ==
        Ida1Bid(None, Some(Round1(Sum(FilledAdjustments(adjustment.value)))), Some(Round1(Sum(FilledAdjustments(adjustment.value)))))
    {
      var rows := adjustment.value;
      bids := [];
      for i := 0 to |rows|
        invariant |bids| == i
        invariant forall k :: 0 <= k < i ==> bids[k] == Ida1Bid(Some(k + 1), rows[k].adjustment, rows[k].adjustment)
      {
        bids := bids + [Ida1Bid(Some(i + 1), rows[i].adjustment, rows[i].adjustment)];
      }
      var total := Round1(Sum(FilledAdjustments(rows)));
      bids := bids + [Ida1Bid(None, Some(total), Some(total))];
    }

    /**
     * run_ida1_compilation up to the bid sheet: store the IDA-1 forecast,
     * load the D-1 forecast (a missing file stops the run), calculate the
     * adjustment and lay out the bids.
     */
    method RunCompilation(date: string, ida1: Sheet, d1File: Option<Sheet>) returns (r: Result<seq<Ida1Bid>>)
      modifies this
      ensures r.Err? <==> d1File.None?
      ensures r.Err? ==> r.error == MissingFile(ForecastFileName(date, 1))
      ensures r.Ok? ==> adjustment == Some(Adjustments(d1File.value, ida1)) && |r.value| == |adjustment.value| + 1
      ensures r.Ok? ==> forall k :: 0 <= k < |adjustment.value| ==> r.value[k].atLowPrice == adjustment.value[k].adjustment
    {
      SetIda1Forecast(ida1);
      var loaded := LoadD1Forecast(date, d1File);
      if loaded.Err? {
        return Err(loaded.error);
      }
      var table := CalculateAdjustment();
      var bids := GenerateIda1Bids();
      r := Ok(bids);
    }
  }

  /**
   * A generation column counts toward a sheet's total exactly when the sheet
   * holds it and it is either a base column or a solar column S1 to S25
   * that the D-1 sheet holds; a solar column only the IDA-1 sheet has is
   * ignored on both sides.
   */
  lemma CountedColumns(d1Columns: set<Field>, columns: set<Field>, f: Field)
    ensures f in Present(SummedFields(d1Columns), columns) <==>
      f in columns && (f in BaseGenerationFields || exists i :: 1 <= i <= LastSolarSite && f == SolarField(i) && f in d1Columns)
  {
    var solar := SolarFieldsIn(d1Columns, LastSolarSite + 1);
    assert forall g :: g in SummedFields(d1Columns) <==> g in BaseGenerationFields || g in solar;
    if exists i :: 1 <= i <= LastSolarSite && f == SolarField(i) && f in d1Columns {
      var i :| 1 <= i <= LastSolarSite && f == SolarField(i) && f in d1Columns;
      assert f in solar;
    }
  }

  /** Row k of the adjustment table when both forecasts have row k. */
  lemma AdjustmentAt(d1: Sheet, ida1: Sheet, k: nat) returns (t1: real, t2: real)
    requires k < |d1.rows| && k < |ida1.rows|
    ensures t1 == Totals(d1, SummedFields(d1.columns))[k] && t2 == Totals(ida1, SummedFields(d1.columns))[k]
    ensures Adjustments(d1, ida1)[k] == AdjustmentRow(Some(d1.rows[k].time), Some(Round1(t1)), Some(Round1(t2)), Some(Round1(t1 - t2)))
  {
    t1 := Totals(d1, SummedFields(d1.columns))[k];
    t2 := Totals(ida1, SummedFields(d1.columns))[k];
  }

  /**
   * The table runs to the longer forecast; a period keeps the D-1 time when
   * D-1 has it, and has an adjustment exactly when both forecasts have it.
   * The adjustment sells (is negative) exactly when the IDA-1 total exceeds
   * the D-1 total by more than 0.05 MW, and buys back (is positive) exactly
   * when it falls short by more than 0.05 MW.
   */
  lemma AdjustmentSign(d1: Sheet, ida1: Sheet, k: nat)
    requires k < |Adjustments(d1, ida1)|
    ensures |Adjustments(d1, ida1)| == Max(|d1.rows|, |ida1.rows|)
    ensures Adjustments(d1, ida1)[k].dateTime.Some? <==> k < |d1.rows|
    ensures Adjustments(d1, ida1)[k].dateTime.Some? ==> Adjustments(d1, ida1)[k].dateTime.value == d1.rows[k].time
    ensures Adjustments(d1, ida1)[k].adjustment.Some? <==> k < |d1.rows| && k < |ida1.rows|
    ensures k < |d1.rows| && k < |ida1.rows| ==>
      var t1 := Totals(d1, SummedFields(d1.columns))[k];
      var t2 := Totals(ida1, SummedFields(d1.columns))[k];
      (Adjustments(d1, ida1)[k].adjustment.value < 0.0 <==> t2 > t1 + 0.05) &&
      (Adjustments(d1, ida1)[k].adjustment.value > 0.0 <==> t1 > t2 + 0.05)
  {
    if k < |d1.rows| && k < |ida1.rows| {
      var t1, t2 := AdjustmentAt(d1, ida1, k);
      Round1BelowZero(t1 - t2);
      Round1AboveZero(t1 - t2);
    }
  }

  /**
   * Two forecasts with the same header, taken in the other order, give the
   * opposite adjustment in every period and swap the two total columns.
   */
  lemma AdjustmentAntisymmetric(a: Sheet, b: Sheet, k: nat)
    requires a.columns == b.columns && k < |a.rows| && k < |b.rows|
    ensures Adjustments(b, a)[k].adjustment.value == -Adjustments(a, b)[k].adjustment.value
    ensures Adjustments(b, a)[k].d1Total == Adjustments(a, b)[k].ida1Total
    ensures Adjustments(b, a)[k].ida1Total == Adjustments(a, b)[k].d1Total
  {
    var x1, x2 := AdjustmentAt(a, b, k);
    var y1, y2 := AdjustmentAt(b, a, k);
    assert y1 == x2 && y2 == x1;
    Round1Neg(x1 - x2);
    assert -(x1 - x2) == y1 - y2;
  }

  /** Setting a forecast against itself adjusts nothing: every period and the totals line bid 0. */
  lemma UnchangedForecastAdjustsNothing(s: Sheet)
    ensures |Adjustments(s, s)| == |s.rows|
    ensures forall k :: 0 <= k < |s.rows| ==>
      Adjustments(s, s)[k].adjustment == Some(0.0) && Adjustments(s, s)[k].d1Total == Adjustments(s, s)[k].ida1Total
    ensures Round1(Sum(FilledAdjustments(Adjustments(s, s)))) == 0.0
  {
    forall k | 0 <= k < |s.rows|
      ensures Adjustments(s, s)[k].adjustment == Some(0.0) && Adjustments(s, s)[k].d1Total == Adjustments(s, s)[k].ida1Total
    {
      var t1, t2 := AdjustmentAt(s, s, k);
      Round1OfTenths(0.0);
    }
    SumOfZeros(FilledAdjustments(Adjustments(s, s)));
    Round1OfTenths(0.0);
  }

  /**
   * Every adjustment has one decimal, so the totals line equals the exact sum
   * of the per-period bids: its rounding changes nothing.
   */
  lemma BidTotalIsExactSum(d1: Sheet, ida1: Sheet)
    ensures forall k :: 0 <= k < |Adjustments(d1, ida1)| && Adjustments(d1, ida1)[k].adjustment.Some? ==>
      IsTenths(Adjustments(d1, ida1)[k].adjustment.value)
    ensures Round1(Sum(FilledAdjustments(Adjustments(d1, ida1)))) == Sum(FilledAdjustments(Adjustments(d1, ida1)))
  {
    var xs := FilledAdjustments(Adjustments(d1, ida1));
    assert 0.0 * 10.0 == 0 as real;
    RoundedSumOfTenths(xs);
  }

  /**
   * When the counted cells of both forecasts have one decimal, as the saved
   * forecast tables do, the Adjustment column is exactly the D1_Total column
   * minus the IDA1_Total column.
   */
  lemma AdjustmentIsDifferenceOfTotals(d1: Sheet, ida1: Sheet, k: nat)
    requires k < |d1.rows| && k < |ida1.rows|
    requires forall f :: f in d1.rows[k].cells ==> IsTenths(d1.rows[k].cells[f])
    requires forall f :: f in ida1.rows[k].cells ==> IsTenths(ida1.rows[k].cells[f])
    ensures Adjustments(d1, ida1)[k].adjustment.value ==
      Adjustments(d1, ida1)[k].d1Total.value - Adjustments(d1, ida1)[k].ida1Total.value
  {
    var t1, t2 := AdjustmentAt(d1, ida1, k);
    var fields := SummedFields(d1.columns);
    TotalOfTenths(d1.rows[k], Present(fields, d1.columns));
    TotalOfTenths(ida1.rows[k], Present(fields, ida1.columns));
    TenthsClosed(t1, t2);
    Round1OfTenths(t1);
    Round1OfTenths(t2);
    Round1OfTenths(t1 - t2);
  }

  lemma TotalOfTenths(r: Row, fields: seq<Field>)
    requires forall f :: f in r.cells ==> IsTenths(r.cells[f])
    ensures IsTenths(Sum(CellsOf(r, fields)))
  {
    assert 0.0 * 10.0 == 0 as real;
    SumOfTenths(CellsOf(r, fields));
  }

  /**
   * The example of calculate_adjustment's documentation: a period whose D-1
   * total is 100 MW sells 10 MW more when its IDA-1 total is 110 MW, and buys
   * 10 MW back when it is 90 MW.
   */
  lemma DocumentedExample(d1: Sheet, ida1: Sheet, k: nat)
    requires k < |d1.rows| && k < |ida1.rows|
    requires Totals(d1, SummedFields(d1.columns))[k] == 100.0
    ensures Totals(ida1, SummedFields(d1.columns))[k] == 110.0 ==> Adjustments(d1, ida1)[k].adjustment == Some(-10.0)
    ensures Totals(ida1, SummedFields(d1.columns))[k] == 90.0 ==> Adjustments(d1, ida1)[k].adjustment == Some(10.0)
  {
    var t1, t2 := AdjustmentAt(d1, ida1, k);
    assert (-10.0 * 10.0).Floor as real == -10.0 * 10.0;
    assert (10.0 * 10.0).Floor as real == 10.0 * 10.0;
    Round1OfTenths(-10.0);
    Round1OfTenths(10.0);
  }
}
