/**
 * The supply-unit compiler for unit SU_400130: the traders' table that nets
 * the quarter-hour demand against the negated generation forecasts on the
 * 48 trading-day periods, its totals and Net Demand rows, the ETS bid lines
 * and the DAM auction rows (FES_MasterScript_PRODUCTION.py,
 * SupplyUnitCompiler).
 */
module SupplyUnit {
  import opened Outcomes
  import opened Numeric
  import opened Columns
  import opened TradingDay
  import opened Sheets
  import opened Bids
  import Routing

  /** The DAM price ladder of the unit. */
  const SuPrices: seq<real> := [-500.0, 500.0, 500.0, 4000.0]

  /** The constant unmetered demand, in MW. */
  const UnmeteredMW: real := 0.5

  /**
   * The generation columns the compiler reads, in its order: the nine adjusted
   * columns (ROI, NI, Tullabrack, Cloghaneleskirt, Lisdowney, Curraghderrig,
   * Nonwind, Self-forecast, Davidstown), then S1 and S2.
   */
  const SuSources: seq<Source> :=
    [MeteoRoi, MeteoNi, MeteoTb, MeteoCk, MeteoLd, MeteoCd, NaiveNonwind, SelfForecast, MeteoDt, MeteoS1, MeteoS2]

  /** S3..S25: the sites the table carries as 0. */
  const ZeroSites: nat := 23

  /** The three demand columns and the thirty-four generation columns. */
  const DemandColumns: nat := 3
  const GenerationColumns: nat := 34

  /**
   * A traders' table row: the period start, the demand columns (Adj. QH,
   * Adj. NQH, Unmetered), the generation columns (the nine adjusted ones, then
   * S1..S25) and the Trading Qty, which SU_400130 repeats.
   */
  datatype TradersRow = TradersRow(time: int, demand: seq<real>, generation: seq<real>, tradingQty: real)

  /** The 37 columns whose sum is the Trading Qty. */
  function Components(r: TradersRow): seq<real>
  {
    r.demand + r.generation
  }

  /** A demand row with QH_MW added: twice the quarter-hour kWh in MW, to one decimal (missing stays missing). */
  function QhRow(d: Row): (q: Row)
    ensures q.time == d.time
    ensures Demand in d.cells ==> Cell(q, QhMw) == Round1(d.cells[Demand] * 2.0 / 1000.0)
    ensures Demand !in d.cells ==> QhMw !in q.cells
  {
    Row(d.time, if Demand in d.cells then map[QhMw := Round1(d.cells[Demand] * 2.0 / 1000.0)] else map[])
  }

  function QhRows(ds: seq<Row>): (qs: seq<Row>)
    ensures |qs| == |ds| && forall k :: 0 <= k < |ds| ==> qs[k] == QhRow(ds[k])
  {
    seq(|ds|, k requires 0 <= k < |ds| => QhRow(ds[k]))
  }

  /** The generation columns selected from the generation sheet. */
  function SuFields(): set<Field>
  {
    set i | 0 <= i < |SuSources| :: Gen(SuSources[i])
  }

  /** The first of the required sources the sheet lacks, if any. */
  function FirstMissing(srcs: seq<Source>, cols: set<Field>): (m: Option<Source>)
    ensures m.None? <==> forall i :: 0 <= i < |srcs| ==> Gen(srcs[i]) in cols
    ensures m.Some? ==> Gen(m.value) !in cols && exists i :: 0 <= i < |srcs| && srcs[i] == m.value
  {
    if srcs == [] then None
    else if Gen(srcs[0]) !in cols then Some(srcs[0])
    else
      var rest := FirstMissing(srcs[1..], cols);
      assert forall i :: 1 <= i < |srcs| ==> srcs[i] == srcs[1..][i - 1];
      rest
  }

  /** The table row of one joined period: demand kept, generation negated, every column rounded, then summed. */
  function SuRow(j: Row): (r: TradersRow)
    ensures r.time == j.time && |r.demand| == DemandColumns && |r.generation| == GenerationColumns
  {
    var demand := [Round1(Cell(j, QhMw)), 0.0, UnmeteredMW];
    var generation := AdjustedGeneration(j) + Constant(ZeroSites, 0.0);
    TradersRow(j.time, demand, generation, Round1(Sum(demand + generation)))
  }

  /** The eleven read generation columns of a row, negated and rounded. */
  function AdjustedGeneration(j: Row): (g: seq<real>)
    ensures |g| == |SuSources| && forall i :: 0 <= i < |SuSources| ==> g[i] == Round1(-Cell(j, Gen(SuSources[i])))
  {
    seq(|SuSources|, i requires 0 <= i < |SuSources| => Round1(-Cell(j, Gen(SuSources[i]))))
  }

  function SuRows(js: seq<Row>): (rs: seq<TradersRow>)
    ensures |rs| == |js| && forall k :: 0 <= k < |js| ==> rs[k] == SuRow(js[k])
  {
    seq(|js|, k requires 0 <= k < |js| => SuRow(js[k]))
  }

  /**
   * create_aggregation: the demand sheet's QH_MW and then the generation
   * sheet's eleven columns left-joined onto the 48 periods, missing values
   * read as 0. A sheet without a selected column is refused.
   */
  function Aggregate(demand: Sheet, gen: Sheet): (r: Result<seq<TradersRow>>)
    ensures r.Err? <==> Demand !in demand.columns || FirstMissing(SuSources, gen.columns).Some?
    ensures Demand !in demand.columns ==> r == Err(MissingColumn("Demand"))
    ensures r.Ok? ==> |r.value| >= PeriodCount
  {
    if Demand !in demand.columns then Err(MissingColumn("Demand"))
    else match FirstMissing(SuSources, gen.columns)
      case Some(s) => Err(MissingColumn(ColumnName(s)))
      case None =>
        Ok(SuRows(JoinedPeriods(demand, gen)))
  }

  /** The QH demand file of a trading date, "<yyyy-mm-dd>.csv". */
  function DemandFileName(isoDate: string): string
  {
    isoDate + ".csv"
  }

  /**
   * create_aggregation with its file lookups: the QH demand CSV is looked up
   * first, then the generation workbook named for the trading date and the
   * lag; either missing raises with its name before any column is read.
   */
  function CreateAggregation(date: string, isoDate: string, daysAhead: int, demand: Option<Sheet>, gen: Option<Sheet>): (r: Result<seq<TradersRow>>)
    ensures r.Err? && r.error.MissingFile? <==> demand.None? || gen.None?
    ensures demand.None? ==> r.error == MissingFile(DemandFileName(isoDate))
    ensures demand.Some? && gen.None? ==> r.error == MissingFile(Routing.ForecastFileName(date, daysAhead))
    ensures r.Err? <==> demand.None? || gen.None? || Demand !in demand.value.columns || FirstMissing(SuSources, gen.value.columns).Some?
    ensures demand.Some? && gen.Some? ==> r == Aggregate(demand.value, gen.value)
    ensures r.Ok? ==> |r.value| >= PeriodCount
  {
    if demand.None? then Err(MissingFile(DemandFileName(isoDate)))
    else if gen.None? then Err(MissingFile(Routing.ForecastFileName(date, daysAhead)))
    else Aggregate(demand.value, gen.value)
  }

  /** The 48 periods with the demand sheet's QH_MW joined on, then the generation sheet's read columns. */
  function JoinedPeriods(demand: Sheet, gen: Sheet): seq<Row>
  {
    LeftJoin(LeftJoin(PeriodRows(), QhRows(demand.rows), {QhMw}), gen.rows, SuFields())
  }

  /** The QH_MW a demand sheet gives time t: from the row with that time, or 0. */
  function QhAt(rows: seq<Row>, t: int): real
  {
    var ms := Matching(rows, t);
    if ms == [] || Demand !in ms[0].cells then 0.0 else Round1(ms[0].cells[Demand] * 2.0 / 1000.0)
  }

  /** The value a generation sheet gives source s at time t: from the row with that time, or 0. */
  function GenAt(rows: seq<Row>, t: int, s: Source): real
  {
    var ms := Matching(rows, t);
    if ms == [] then 0.0 else Cell(ms[0], Gen(s))
  }

  lemma QhRowsDistinct(ds: seq<Row>, t: int)
    requires DistinctTimes(ds)
    ensures DistinctTimes(QhRows(ds))
    ensures Matching(QhRows(ds), t) == [] ==> QhAt(ds, t) == 0.0
    ensures Matching(QhRows(ds), t) != [] ==> QhAt(ds, t) == Cell(Matching(QhRows(ds), t)[0], QhMw)
  {
    var qs := QhRows(ds);
    assert DistinctTimes(qs) by {
      forall i, j | 0 <= i < j < |qs|
        ensures qs[i].time != qs[j].time
      {
        assert qs[i].time == ds[i].time && qs[j].time == ds[j].time;
      }
    }
    MatchingDistinct(ds, t);
    MatchingDistinct(qs, t);
    if i :| 0 <= i < |ds| && ds[i].time == t {
      assert qs[i].time == t;
      assert Matching(ds, t) == [ds[i]] && Matching(qs, t) == [QhRow(ds[i])];
    } else {
      assert forall i :: 0 <= i < |qs| ==> qs[i].time != t;
    }
  }

  /** The joined row of period k, when both sheets have one row per time. */
  lemma JoinedPeriod(demand: Sheet, gen: Sheet, k: nat) returns (j: Row)
    requires DistinctTimes(demand.rows) && DistinctTimes(gen.rows) && k < PeriodCount
    ensures |JoinedPeriods(demand, gen)| == PeriodCount && JoinedPeriods(demand, gen)[k] == j
    ensures j.time == Grid()[k]
    ensures Cell(j, QhMw) == QhAt(demand.rows, Grid()[k])
    ensures forall i :: 0 <= i < |SuSources| ==> Cell(j, Gen(SuSources[i])) == GenAt(gen.rows, Grid()[k], SuSources[i])
  {
    var w := DemandJoined(demand, k);
    var withDemand := LeftJoin(PeriodRows(), QhRows(demand.rows), {QhMw});
    LeftJoinDistinct(withDemand, gen.rows, SuFields());
    j := JoinedRow(w, gen.rows, SuFields());
    forall i | 0 <= i < |SuSources|
      ensures Cell(j, Gen(SuSources[i])) == GenAt(gen.rows, Grid()[k], SuSources[i])
    {
      GenerationJoined(w, gen.rows, SuSources[i]);
    }
    assert QhMw !in SuFields();
  }

  /** Period k after the demand join: its time, its QH_MW and no other cell. */
  lemma DemandJoined(demand: Sheet, k: nat) returns (w: Row)
    requires DistinctTimes(demand.rows) && k < PeriodCount
    ensures |LeftJoin(PeriodRows(), QhRows(demand.rows), {QhMw})| == PeriodCount
    ensures LeftJoin(PeriodRows(), QhRows(demand.rows), {QhMw})[k] == w
    ensures w.time == Grid()[k] && w.cells.Keys <= {QhMw}
    ensures Cell(w, QhMw) == QhAt(demand.rows, Grid()[k])
  {
    var t := Grid()[k];
    var qs := QhRows(demand.rows);
    QhRowsDistinct(demand.rows, t);
    LeftJoinDistinct(PeriodRows(), qs, {QhMw});
    w := JoinedRow(PeriodRows()[k], qs, {QhMw});
    var ms := Matching(qs, t);
    if ms != [] {
      assert Cell(Merge(PeriodRows()[k], ms[0], {QhMw}), QhMw) == Cell(ms[0], QhMw);
    }
  }

  /** The generation join gives a row holding only QH_MW the source's value at its time, or 0. */
  lemma GenerationJoined(w: Row, gen: seq<Row>, s: Source)
    requires w.cells.Keys <= {QhMw} && s in SuSources
    ensures Cell(JoinedRow(w, gen, SuFields()), Gen(s)) == GenAt(gen, w.time, s)
  {
    assert Gen(s) in SuFields();
  }

  /** Row k of an accepted table is the table row of period k's joined row. */
  lemma AggregateRowAt(demand: Sheet, gen: Sheet, k: nat) returns (j: Row)
    requires Aggregate(demand, gen).Ok? && DistinctTimes(demand.rows) && DistinctTimes(gen.rows) && k < PeriodCount
    ensures |Aggregate(demand, gen).value| == PeriodCount && Aggregate(demand, gen).value[k] == SuRow(j)
    ensures j.time == Grid()[k]
    ensures Cell(j, QhMw) == QhAt(demand.rows, Grid()[k])
    ensures forall i :: 0 <= i < |SuSources| ==> Cell(j, Gen(SuSources[i])) == GenAt(gen.rows, Grid()[k], SuSources[i])
  {
    j := JoinedPeriod(demand, gen, k);
  }

  /**
   * With one row per time in both sheets the table has exactly the 48
   * periods, in grid order; each takes the rounded QH MW of its time (0 where
   * the demand sheet has no row), nothing for the second demand column and
   * 0.5 MW unmetered.
   */
  lemma AggregateOnGrid(demand: Sheet, gen: Sheet, k: nat)
    requires Aggregate(demand, gen).Ok? && DistinctTimes(demand.rows) && DistinctTimes(gen.rows) && k < PeriodCount
    ensures |Aggregate(demand, gen).value| == PeriodCount
    ensures var r, t := Aggregate(demand, gen).value[k], Grid()[k];
      r.time == t && r.demand == [Round1(QhAt(demand.rows, t)), 0.0, UnmeteredMW]
  {
    var j := AggregateRowAt(demand, gen, k);
  }

  /**
   * Column i of a period's generation holds the negated rounded value of
   * its time for the eleven read sources (0 where the generation sheet has
   * no row), and 0 for the 23 remaining sites.
   */
  lemma AggregateGenerationOnGrid(demand: Sheet, gen: Sheet, k: nat, i: nat)
    requires Aggregate(demand, gen).Ok? && DistinctTimes(demand.rows) && DistinctTimes(gen.rows)
    requires k < PeriodCount && i < GenerationColumns
    ensures |Aggregate(demand, gen).value| == PeriodCount
    ensures Aggregate(demand, gen).value[k].generation[i] ==
      if i < |SuSources| then Round1(-GenAt(gen.rows, Grid()[k], SuSources[i])) else 0.0
  {
    var j := AggregateRowAt(demand, gen, k);
    SuRowGeneration(j, i);
  }

  /** Generation column i of a table row: a negated rounded read source, or a zero site. */
  lemma SuRowGeneration(j: Row, i: nat)
    requires i < GenerationColumns
    ensures SuRow(j).generation[i] == if i < |SuSources| then Round1(-Cell(j, Gen(SuSources[i]))) else 0.0
  {
    if i >= |SuSources| {
      assert SuRow(j).generation[i] == Constant(ZeroSites, 0.0)[i - |SuSources|];
    }
  }

  /**
   * The Trading Qty needs no rounding of its own: every column already has
   * one decimal, so it is the plain sum of the 37 columns, that is the QH
   * demand plus 0.5 MW unmetered minus the rounded generation of the eleven
   * read columns.
   */
  lemma TradingQtyIsNetDemand(j: Row)
    ensures SuRow(j).tradingQty == Sum(Components(SuRow(j)))
    ensures SuRow(j).tradingQty == Round1(Cell(j, QhMw)) + UnmeteredMW - Sum(RoundedGeneration(j))
  {
    ComponentsHaveOneDecimal(j);
    RoundedSumOfTenths(Components(SuRow(j)));
    ComponentsSum(j);
  }

  lemma ComponentsHaveOneDecimal(j: Row)
    ensures forall i :: 0 <= i < |Components(SuRow(j))| ==> IsTenths(Components(SuRow(j))[i])
  {
    var r := SuRow(j);
    var zeros := Constant(ZeroSites, 0.0);
    assert r.generation == AdjustedGeneration(j) + zeros;
    assert 0.0 * 10.0 == 0 as real;
    assert UnmeteredMW * 10.0 == 5 as real;
    forall i | 0 <= i < |Components(r)|
      ensures IsTenths(Components(r)[i])
    {
      if 3 + |SuSources| <= i {
        assert Components(r)[i] == zeros[i - 3 - |SuSources|];
      }
    }
  }

  lemma ComponentsSum(j: Row)
    ensures Sum(Components(SuRow(j))) == Round1(Cell(j, QhMw)) + UnmeteredMW - Sum(RoundedGeneration(j))
  {
    var r := SuRow(j);
    SumAppend(r.demand, r.generation);
    DemandSum(Round1(Cell(j, QhMw)));
    GenerationSum(j);
  }

  /** The 34 generation columns add up to minus the rounded read sources. */
  lemma GenerationSum(j: Row)
    ensures Sum(SuRow(j).generation) == -Sum(RoundedGeneration(j))
  {
    var g := AdjustedGeneration(j);
    var zeros := Constant(ZeroSites, 0.0);
    assert SuRow(j).generation == g + zeros;
    SumAppend(g, zeros);
    SumOfZeros(zeros);
    forall i | 0 <= i < |SuSources|
      ensures g[i] == Negated(RoundedGeneration(j))[i]
    {
      Round1Neg(Cell(j, Gen(SuSources[i])));
    }
    assert g == Negated(RoundedGeneration(j));
    SumNegated(RoundedGeneration(j));
  }

  lemma DemandSum(qh: real)
    ensures Sum([qh, 0.0, UnmeteredMW]) == qh + UnmeteredMW
  {
    var last := [UnmeteredMW];
    assert last[1..] == [];
    assert Sum(last) == UnmeteredMW;
    var tail := [0.0, UnmeteredMW];
    assert tail[1..] == last;
    assert Sum(tail) == UnmeteredMW;
    assert [qh, 0.0, UnmeteredMW][1..] == tail;
  }

  /** The eleven read generation columns of a row, rounded (before negation). */
  function RoundedGeneration(j: Row): (g: seq<real>)
    ensures |g| == |SuSources| && forall i :: 0 <= i < |SuSources| ==> g[i] == Round1(Cell(j, Gen(SuSources[i])))
  {
    seq(|SuSources|, i requires 0 <= i < |SuSources| => Round1(Cell(j, Gen(SuSources[i]))))
  }

  /** The ETS line of period k+1: a sell puts the quantity in columns 1 and 4 and leaves 2 and 3 empty; otherwise columns 1 and 2 hold it and 3 and 4 a 0. */
  function SuEtsRow(k: nat, r: TradersRow): (e: EtsRow)
    ensures e.period == k + 1 && e.clock == HourMinuteSecond(r.time) && |e.quantities| == 4
    ensures e.quantities[0] == Num(r.tradingQty)
    ensures r.tradingQty < 0.0 ==> e.quantities[1] == e.quantities[2] == Empty && e.quantities[3] == Num(r.tradingQty)
    ensures r.tradingQty >= 0.0 ==> e.quantities[1] == Num(r.tradingQty) && e.quantities[2] == e.quantities[3] == Num(0.0)
  {
    var q := r.tradingQty;
    EtsRow(HourMinuteSecond(r.time), k + 1,
           if q < 0.0 then [Num(q), Empty, Empty, Num(q)] else [Num(q), Num(q), Num(0.0), Num(0.0)])
  }

  /** generate_ets_bids: one ETS line per table row, periods numbered from 1 in row order. */
  method GenerateEtsBids(rows: seq<TradersRow>) returns (ets: seq<EtsRow>)
    ensures |ets| == |rows|
    ensures forall k :: 0 <= k < |rows| ==> ets[k] == SuEtsRow(k, rows[k])
  {
    ets := [];
    var i := 0;
    while i < |rows|
      invariant 0 <= i <= |rows|
      invariant |ets| == i
      invariant forall k :: 0 <= k < i ==> ets[k] == SuEtsRow(k, rows[k])
    {
      ets := ets + [SuEtsRow(i, rows[i])];
      i := i + 1;
    }
  }

  /** The DAM row of period k+1: a sell offers |qty| at the two upper prices, a buy at the two lower ones. */
  function SuDamRow(k: nat, r: TradersRow): (d: DamRow)
    ensures d.period == k + 1 && d.time == r.time && (d.side == Sell <==> r.tradingQty < 0.0)
    ensures Prices(d.curve) == SuPrices
    ensures d.side == Sell ==> Quantities(d.curve) == [0.0, 0.0, Abs(r.tradingQty), Abs(r.tradingQty)]
    ensures d.side == Buy ==> Quantities(d.curve) == [Abs(r.tradingQty), Abs(r.tradingQty), 0.0, 0.0]
  {
    var q := r.tradingQty;
    if q < 0.0 then DamRow(k + 1, r.time, Sell, Curve(SuPrices, [0.0, 0.0, Abs(q), Abs(q)]))
    else DamRow(k + 1, r.time, Buy, Curve(SuPrices, [Abs(q), Abs(q), 0.0, 0.0]))
  }

  /** generate_dam_bids: one DAM row per table row, periods numbered from 1 in row order. */
  method GenerateDamBids(rows: seq<TradersRow>) returns (dam: seq<DamRow>)
    ensures |dam| == |rows|
    ensures forall k :: 0 <= k < |rows| ==> dam[k] == SuDamRow(k, rows[k])
  {
    dam := [];
    var i := 0;
    while i < |rows|
      invariant 0 <= i <= |rows|
      invariant |dam| == i
      invariant forall k :: 0 <= k < i ==> dam[k] == SuDamRow(k, rows[k])
    {
      dam := dam + [SuDamRow(i, rows[i])];
      i := i + 1;
    }
  }

  /**
   * An SU DAM row uses the fixed ladder and never a negative quantity; at most
   * one pair of points is nonzero (the upper pair for a sell, the lower for a
   * buy); its side and volume give back the Trading Qty.
   */
  lemma SuDamRowEncodesQuantity(k: nat, r: TradersRow)
    ensures SuDamRow(k, r).period == k + 1 && Prices(SuDamRow(k, r).curve) == SuPrices
    ensures SuDamRow(k, r).side == Sell <==> r.tradingQty < 0.0
    ensures forall i :: 0 <= i < 4 ==> SuDamRow(k, r).curve[i].qty >= 0.0
    ensures SuDamRow(k, r).side == Sell ==> SuDamRow(k, r).curve[0].qty == 0.0 && SuDamRow(k, r).curve[1].qty == 0.0
    ensures SuDamRow(k, r).side == Buy ==> SuDamRow(k, r).curve[2].qty == 0.0 && SuDamRow(k, r).curve[3].qty == 0.0
    ensures SignedQty(SuDamRow(k, r)) == r.tradingQty
  {
    var d := SuDamRow(k, r);
    var a := Abs(r.tradingQty);
    if r.tradingQty < 0.0 {
      assert d.curve[0].qty == 0.0 && d.curve[1].qty == 0.0 && d.curve[2].qty == a && d.curve[3].qty == a;
    } else {
      assert d.curve[0].qty == a && d.curve[1].qty == a && d.curve[2].qty == 0.0 && d.curve[3].qty == 0.0;
    }
    assert PeakQty(d.curve) == a;
  }

  /** The ETS line and the DAM row of a period bid the same quantity: column 1 of the ETS line is the DAM row's signed quantity. */
  lemma SuEtsAgreesWithDam(k: nat, r: TradersRow)
    ensures SuEtsRow(k, r).period == SuDamRow(k, r).period
    ensures SuEtsRow(k, r).quantities[0] == Num(SignedQty(SuDamRow(k, r)))
    ensures SuDamRow(k, r).side == Sell ==> SuEtsRow(k, r).quantities[3] == Num(SignedQty(SuDamRow(k, r)))
    ensures SuDamRow(k, r).side == Buy ==> SuEtsRow(k, r).quantities[1] == Num(SignedQty(SuDamRow(k, r)))
  {
    SuDamRowEncodesQuantity(k, r);
  }

  /** The column of component c down the table. */
  function ComponentColumn(rows: seq<TradersRow>, c: nat): (col: seq<real>)
    requires forall k :: 0 <= k < |rows| ==> c < |Components(rows[k])|
    ensures |col| == |rows|
  {
    seq(|rows|, k requires 0 <= k < |rows| => Components(rows[k])[c])
  }

  /** The totals row of the saved table over the 37 component columns: each column's sum. */
  function ComponentTotals(rows: seq<TradersRow>): (t: seq<real>)
    requires forall k :: 0 <= k < |rows| ==> |Components(rows[k])| == DemandColumns + GenerationColumns
    ensures |t| == DemandColumns + GenerationColumns
  {
    seq(DemandColumns + GenerationColumns, c requires 0 <= c < DemandColumns + GenerationColumns => Sum(ComponentColumn(rows, c)))
  }

  /** The Trading Qty column (SU_400130 repeats it). */
  function TradingColumn(rows: seq<TradersRow>): (col: seq<real>)
    ensures |col| == |rows| && forall k :: 0 <= k < |rows| ==> col[k] == rows[k].tradingQty
  {
    seq(|rows|, k requires 0 <= k < |rows| => rows[k].tradingQty)
  }

  /** The Net Demand row: the total of the Trading Qty column. */
  function NetDemand(rows: seq<TradersRow>): real
  {
    Sum(TradingColumn(rows))
  }

  /** Rows whose Trading Qty is the sum of their 37 columns. */
  predicate Balanced(rows: seq<TradersRow>) {
    forall k :: 0 <= k < |rows| ==>
      |Components(rows[k])| == DemandColumns + GenerationColumns && rows[k].tradingQty == Sum(Components(rows[k]))
  }

  /**
   * The Net Demand row of a balanced table equals the sum of its column
   * totals: adding the table up by rows or by columns agrees.
   */
  lemma {:induction false} NetDemandIsSumOfTotals(rows: seq<TradersRow>)
    requires Balanced(rows)
    ensures NetDemand(rows) == Sum(ComponentTotals(rows))
  {
    if rows == [] {
      SumOfZeros(ComponentTotals(rows));
    } else {
      var rest := rows[1..];
      assert Balanced(rest);
      NetDemandIsSumOfTotals(rest);
      assert TradingColumn(rows)[1..] == TradingColumn(rest);
      var c0 := Components(rows[0]);
      forall c | 0 <= c < DemandColumns + GenerationColumns
        ensures ComponentTotals(rows)[c] == Plus(c0, ComponentTotals(rest))[c]
      {
        assert ComponentColumn(rows, c)[1..] == ComponentColumn(rest, c);
      }
      assert ComponentTotals(rows) == Plus(c0, ComponentTotals(rest));
      SumPlus(c0, ComponentTotals(rest));
    }
  }

  /** An aggregated table is balanced, so its Net Demand row is the sum of its column totals. */
  lemma AggregateIsBalanced(demand: Sheet, gen: Sheet)
    requires Aggregate(demand, gen).Ok?
    ensures Balanced(Aggregate(demand, gen).value)
    ensures NetDemand(Aggregate(demand, gen).value) == Sum(ComponentTotals(Aggregate(demand, gen).value))
  {
    var js := JoinedPeriods(demand, gen);
    forall k | 0 <= k < |js|
      ensures SuRow(js[k]).tradingQty == Sum(Components(SuRow(js[k])))
    {
      TradingQtyIsNetDemand(js[k]);
    }
    NetDemandIsSumOfTotals(Aggregate(demand, gen).value);
  }
}
