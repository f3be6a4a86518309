/**
 * The generation-unit compiler for unit GU_504260 (Murley wind): the
 * traders' table laid on the 48 trading-day periods, the ETS bid lines and
 * the DAM auction rows (FES_MasterScript_PRODUCTION.py, MurleyGUCompiler).
 * The unit always bids the negated Murley forecast.
 */
module GenerationUnit {
  import opened Outcomes
  import opened Numeric
  import opened Columns
  import opened TradingDay
  import opened Sheets
  import opened Bids
  import Routing

  /** The DAM price ladder of the unit. */
  const GuPrices: seq<real> := [-1500.0, -41.7, -41.7, 9000.0]

  /** A traders' table row: the period start and the GU_504260 quantity (its Price is blank, its Time the clock). */
  datatype TradersRow = TradersRow(time: int, qty: real)

  /** The quantity of a joined row: the negated Murley forecast, missing read as 0, rounded to one decimal. */
  function GuRow(j: Row): (r: TradersRow)
    ensures r.time == j.time && IsTenths(r.qty)
    ensures -0.05 <= r.qty + Cell(j, Gen(MeteoMur)) <= 0.05
  {
    TradersRow(j.time, Round1(-Cell(j, Gen(MeteoMur))))
  }

  function GuRows(js: seq<Row>): (rs: seq<TradersRow>)
    ensures |rs| == |js| && forall k :: 0 <= k < |js| ==> rs[k] == GuRow(js[k])
  {
    seq(|js|, k requires 0 <= k < |js| => GuRow(js[k]))
  }

  /**
   * create_aggregation: the Murley column of the generation sheet left-joined
   * onto the 48 periods. A sheet without the column is refused as the
   * column selection does.
   */
  function Aggregate(gen: Sheet): (r: Result<seq<TradersRow>>)
    ensures r.Err? <==> Gen(MeteoMur) !in gen.columns
    ensures r.Err? ==> r.error == MissingColumn(ColumnName(MeteoMur))
    ensures r.Ok? ==> |r.value| >= PeriodCount && forall k :: 0 <= k < |r.value| ==> IsTenths(r.value[k].qty)
  {
    if Gen(MeteoMur) !in gen.columns then Err(MissingColumn(ColumnName(MeteoMur)))
    else Ok(GuRows(LeftJoin(PeriodRows(), gen.rows, {Gen(MeteoMur)})))
  }

  /**
   * create_aggregation with its file lookup: the generation workbook named
   * for the trading date and the lag is read first, and a missing workbook
   * raises with its name before any column is looked at.
   */
  function CreateAggregation(date: string, daysAhead: int, gen: Option<Sheet>): (r: Result<seq<TradersRow>>)
    ensures r.Err? <==> gen.None? || Gen(MeteoMur) !in gen.value.columns
    ensures gen.None? ==> r.error == MissingFile(Routing.ForecastFileName(date, daysAhead))
    ensures gen.Some? ==> r == Aggregate(gen.value) && (r.Err? ==> !r.error.MissingFile?)
    ensures r.Ok? ==> |r.value| >= PeriodCount && forall k :: 0 <= k < |r.value| ==> IsTenths(r.value[k].qty)
  {
    if gen.None? then Err(MissingFile(Routing.ForecastFileName(date, daysAhead)))
    else Aggregate(gen.value)
  }

  /** The Murley value a sheet holds for time t: the row with that time, or 0 when none has it. */
  function MurleyAt(rows: seq<Row>, t: int): real
  {
    var ms := Matching(rows, t);
    if ms == [] then 0.0 else Cell(ms[0], Gen(MeteoMur))
  }

  /**
   * With one row per time in the sheet the table has exactly the 48 periods,
   * in grid order, each bidding the negated rounded Murley value of its
   * time, or 0 when the sheet has no row for it.
   */
  lemma AggregateOnGrid(gen: Sheet)
    requires Gen(MeteoMur) in gen.columns && DistinctTimes(gen.rows)
    ensures |Aggregate(gen).value| == PeriodCount
    ensures forall k :: 0 <= k < PeriodCount ==>
      Aggregate(gen).value[k] == TradersRow(Grid()[k], Round1(-MurleyAt(gen.rows, Grid()[k])))
  {
    var left := PeriodRows();
    var cols := {Gen(MeteoMur)};
    LeftJoinDistinct(left, gen.rows, cols);
    var j := LeftJoin(left, gen.rows, cols);
    forall k | 0 <= k < PeriodCount
      ensures GuRow(j[k]) == TradersRow(Grid()[k], Round1(-MurleyAt(gen.rows, Grid()[k])))
    {
      var ms := Matching(gen.rows, Grid()[k]);
      if ms != [] {
        assert Cell(Merge(left[k], ms[0], cols), Gen(MeteoMur)) == Cell(ms[0], Gen(MeteoMur));
      }
    }
  }

  /**
   * Read from a saved forecast table on the trading-day grid whose values have
   * one decimal, each period bids exactly the negated Murley forecast (0 when
   * that column is blank).
   */
  lemma AggregateOfSavedForecast(f: Frame, k: nat)
    requires f.times == Grid() && WellFormed(f) && MeteoMur in f.columns && k < PeriodCount
    requires f.columns[MeteoMur].Values? ==> forall i :: 0 <= i < PeriodCount ==> IsTenths(f.columns[MeteoMur].cells[i])
    ensures Aggregate(ForecastSheet(f)).Ok?
    ensures f.columns[MeteoMur].Values? ==> Aggregate(ForecastSheet(f)).value[k].qty == -f.columns[MeteoMur].cells[k]
    ensures f.columns[MeteoMur].Blank? ==> Aggregate(ForecastSheet(f)).value[k].qty == 0.0
  {
    var m := SavedMurleyAt(f, k);
    if f.columns[MeteoMur].Blank? {
      assert m * 10.0 == 0 as real;
    }
    BidsNegatedTenths(ForecastSheet(f), k, m);
  }

  /** A period whose sheet value already has one decimal bids exactly its negation. */
  lemma BidsNegatedTenths(gen: Sheet, k: nat, m: real)
    requires Gen(MeteoMur) in gen.columns && DistinctTimes(gen.rows) && k < PeriodCount
    requires m == MurleyAt(gen.rows, Grid()[k]) && IsTenths(m)
    ensures Aggregate(gen).Ok? && |Aggregate(gen).value| == PeriodCount
    ensures Aggregate(gen).value[k].qty == -m
  {
    AggregateOnGrid(gen);
    TenthsClosed(m, m);
    Round1OfTenths(-m);
  }

  /** The Murley value the sheet of a saved forecast holds at the k-th grid time. */
  lemma SavedMurleyAt(f: Frame, k: nat) returns (m: real)
    requires f.times == Grid() && WellFormed(f) && MeteoMur in f.columns && k < PeriodCount
    ensures Gen(MeteoMur) in ForecastSheet(f).columns && DistinctTimes(ForecastSheet(f).rows)
    ensures m == MurleyAt(ForecastSheet(f).rows, Grid()[k])
    ensures f.columns[MeteoMur].Values? ==> m == f.columns[MeteoMur].cells[k]
    ensures f.columns[MeteoMur].Blank? ==> m == 0.0
  {
    var sheet := ForecastSheet(f);
    ForecastSheetRows(f, k, MeteoMur);
    MatchingDistinct(sheet.rows, Grid()[k]);
    m := Cell(sheet.rows[k], Gen(MeteoMur));
  }

  /** The ETS line of period k+1: columns 1 and 2 hold a literal 0, columns 3 and 4 the quantity. */
  function GuEtsRow(k: nat, r: TradersRow): (e: EtsRow)
    ensures e.period == k + 1 && e.clock == HourMinute(r.time) && |e.quantities| == 4
    ensures e.quantities[0] == e.quantities[1] == Num(0.0) && e.quantities[2] == e.quantities[3] == Num(r.qty)
  {
    EtsRow(HourMinute(r.time), k + 1, [Num(0.0), Num(0.0), Num(r.qty), Num(r.qty)])
  }

  /** generate_ets_bids: one ETS line per table row, periods numbered from 1 in row order. */
  method GenerateEtsBids(rows: seq<TradersRow>) returns (ets: seq<EtsRow>)
    ensures |ets| == |rows|
    ensures forall k :: 0 <= k < |rows| ==> ets[k] == GuEtsRow(k, rows[k])
  {
    ets := [];
    var i := 0;
    while i < |rows|
      invariant 0 <= i <= |rows|
      invariant |ets| == i
      invariant forall k :: 0 <= k < i ==> ets[k] == GuEtsRow(k, rows[k])
    {
      ets := ets + [GuEtsRow(i, rows[i])];
      i := i + 1;
    }
  }

  /** The DAM row of period k+1: SELL for a negative quantity, and |qty| on the two upper prices. */
  function GuDamRow(k: nat, r: TradersRow): (d: DamRow)
    ensures d.period == k + 1 && d.time == r.time && (d.side == Sell <==> r.qty < 0.0)
    ensures Prices(d.curve) == GuPrices && Quantities(d.curve) == [0.0, 0.0, Abs(r.qty), Abs(r.qty)]
  {
    DamRow(k + 1, r.time, if r.qty < 0.0 then Sell else Buy,
           Curve(GuPrices, [0.0, 0.0, Abs(r.qty), Abs(r.qty)]))
  }

  /** generate_dam_bids: one DAM row per table row, periods numbered from 1 in row order. */
  method GenerateDamBids(rows: seq<TradersRow>) returns (dam: seq<DamRow>)
    ensures |dam| == |rows|
    ensures forall k :: 0 <= k < |rows| ==> dam[k] == GuDamRow(k, rows[k])
  {
    dam := [];
    var i := 0;
    while i < |rows|
      invariant 0 <= i <= |rows|
      invariant |dam| == i
      invariant forall k :: 0 <= k < i ==> dam[k] == GuDamRow(k, rows[k])
    {
      dam := dam + [GuDamRow(i, rows[i])];
      i := i + 1;
    }
  }

  /**
   * A GU DAM row always uses the fixed ladder, never a negative quantity, and
   * nothing at the two lower prices; its side and volume give back the
   * table quantity.
   */
  lemma GuDamRowEncodesQuantity(k: nat, r: TradersRow)
    ensures GuDamRow(k, r).period == k + 1 && Prices(GuDamRow(k, r).curve) == GuPrices
    ensures GuDamRow(k, r).side == Sell <==> r.qty < 0.0
    ensures forall i :: 0 <= i < 4 ==> GuDamRow(k, r).curve[i].qty >= 0.0
    ensures GuDamRow(k, r).curve[0].qty == 0.0 && GuDamRow(k, r).curve[1].qty == 0.0
    ensures SignedQty(GuDamRow(k, r)) == r.qty
  {
    var d := GuDamRow(k, r);
    assert d.curve[2].qty == Abs(r.qty) && d.curve[3].qty == Abs(r.qty);
    assert PeakQty(d.curve) == Abs(r.qty);
  }

  /** The ETS line and the DAM row of a period bid the same quantity for the same period. */
  lemma GuEtsAgreesWithDam(k: nat, r: TradersRow)
    ensures GuEtsRow(k, r).period == GuDamRow(k, r).period
    ensures GuEtsRow(k, r).quantities[3] == Num(SignedQty(GuDamRow(k, r)))
  {
    GuDamRowEncodesQuantity(k, r);
  }

  /**
   * The unit sells in a period exactly when the Murley forecast exceeds
   * 0.05 MW: at 0.05 the rounding goes to an even 0.0, which bids BUY.
   */
  lemma SellsExactlyAboveHalfTenth(j: Row)
    ensures GuRow(j).qty < 0.0 <==> Cell(j, Gen(MeteoMur)) > 0.05
  {
    var m := Cell(j, Gen(MeteoMur));
    Round1Neg(m);
    Round1AboveZero(m);
  }

  /** The totals row of the saved traders' table: the column sum of GU_504260. */
  function GuTotal(rows: seq<TradersRow>): real
  {
    Sum(TableQuantities(rows))
  }

  function TableQuantities(rows: seq<TradersRow>): (qs: seq<real>)
    ensures |qs| == |rows| && forall k :: 0 <= k < |rows| ==> qs[k] == rows[k].qty
  {
    seq(|rows|, k requires 0 <= k < |rows| => rows[k].qty)
  }

  /** The totals row of an aggregated table has one decimal, so the 0.0 number format shows it exactly. */
  lemma GuTotalHasOneDecimal(gen: Sheet)
    requires Aggregate(gen).Ok?
    ensures IsTenths(GuTotal(Aggregate(gen).value))
  {
    SumOfTenths(TableQuantities(Aggregate(gen).value));
  }
}
