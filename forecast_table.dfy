/**
 * From the raw vendor frame to the saved forecast table
 * (FES_MasterScript_PRODUCTION.py, process_forecast_data and the tail of
 * grab_forecast_data): the rows are shifted to local time, resampled onto a
 * half-hour range by a backward as-of join, the hourly self-forecast is
 * spread over the half-hours, the Naïve Nonwind constant is added, and the
 * result is relabelled with the 48 trading-day periods and rounded to one
 * decimal.
 */
module ForecastTable {
  import opened Outcomes
  import opened Numeric
  import opened Columns
  import opened TradingDay
  import opened VendorForecast

  /** The constant the code writes into every row of the Naïve Nonwind column. */
  const NaiveNonwindMW: real := 0.7

  // ---------------------------------------------------------------------
  // Times: epoch seconds to local minutes, and the half-hour range

  /**
   * A vendor epoch second as the minute it is written out as: one hour is
   * added and "%d/%m/%Y %H:%M" drops the seconds.
   */
  function LocalMinute(ts: int): int
  {
    (ts + 3600) / 60
  }

  /** The seconds of one minute all land on that minute, an hour later. */
  lemma LocalMinuteOfSecond(m: int, sec: int)
    requires 0 <= sec < 60
    ensures LocalMinute(m * 60 - 3600 + sec) == m
  {
    assert m * 60 - 3600 + sec + 3600 == m * 60 + sec;
  }

  lemma LocalMinuteMonotone(a: int, b: int)
    requires a <= b
    ensures LocalMinute(a) <= LocalMinute(b)
  {
  }

  function Minutes(times: seq<int>): (ms: seq<int>)
    ensures |ms| == |times|
  {
    seq(|times|, k requires 0 <= k < |times| => LocalMinute(times[k]))
  }

  /** Never decreasing. */
  predicate Ascending(s: seq<int>) {
    forall i, j :: 0 <= i <= j < |s| ==> s[i] <= s[j]
  }

  /** Distinct seconds can fall in the same minute, so the minutes only ascend. */
  lemma MinutesAscending(times: seq<int>)
    requires StrictlyIncreasing(times)
    ensures Ascending(Minutes(times))
  {
    var ms := Minutes(times);
    forall i, j | 0 <= i <= j < |ms|
      ensures ms[i] <= ms[j]
    {
      if i < j {
        LocalMinuteMonotone(times[i], times[j]);
      }
    }
  }

  /** pd.date_range(lo, hi, freq="30min"): lo, lo + 30, ... up to hi. */
  function HalfHourRange(lo: int, hi: int): (r: seq<int>)
    requires lo <= hi
    ensures |r| == (hi - lo) / 30 + 1
  {
    seq((hi - lo) / 30 + 1, k => lo + 30 * k)
  }

  /** The range holds exactly the times from lo to hi a whole number of half-hours after lo, ascending. */
  lemma HalfHourRangeMembers(lo: int, hi: int)
    requires lo <= hi
    ensures StrictlyIncreasing(HalfHourRange(lo, hi))
    ensures forall t :: t in HalfHourRange(lo, hi) <==> lo <= t <= hi && (t - lo) % 30 == 0
  {
    var r := HalfHourRange(lo, hi);
    var n := (hi - lo) / 30;
    assert 30 * n <= hi - lo;
    forall t
      ensures t in r <==> lo <= t <= hi && (t - lo) % 30 == 0
    {
      if t in r {
        var k :| 0 <= k < |r| && r[k] == t;
        assert 30 * k <= 30 * n;
        assert t - lo == 30 * k;
      }
      if lo <= t <= hi && (t - lo) % 30 == 0 {
        var k := (t - lo) / 30;
        assert t - lo == 30 * k;
        assert 30 * k <= hi - lo < 30 * n + 30;
        assert r[k] == t;
      }
    }
  }

  /** The range ends within half an hour of hi. */
  lemma HalfHourRangeEnd(lo: int, hi: int)
    requires lo <= hi
    ensures HalfHourRange(lo, hi)[0] == lo
    ensures hi - 30 < HalfHourRange(lo, hi)[|HalfHourRange(lo, hi)| - 1] <= hi
  {
    var n := (hi - lo) / 30;
    assert hi - lo == 30 * n + (hi - lo) % 30;
  }

  // ---------------------------------------------------------------------
  // The backward as-of join

  /** merge_asof(direction="backward"): the last row whose time is at or before t. */
  function AsofIndex(ts: seq<int>, t: int): (i: nat)
    requires |ts| > 0 && ts[0] <= t
    ensures i < |ts| && ts[i] <= t
    ensures forall j :: i < j < |ts| ==> ts[j] > t
  {
    if ts[|ts| - 1] <= t then |ts| - 1 else AsofIndex(ts[..|ts| - 1], t)
  }

  /** A column of the frame after the join: each new row copies the cell of its as-of row; an all-missing column stays so. */
  function ResampleColumn(c: Column, ms: seq<int>, grid: seq<int>): (r: Column)
    requires c.Values? ==> |c.cells| == |ms|
    requires |ms| > 0 && forall k :: 0 <= k < |grid| ==> ms[0] <= grid[k]
    ensures r.Values? <==> c.Values?
    ensures r.Values? ==> |r.cells| == |grid|
  {
    match c
    case Blank => Blank
    case Values(cells) =>
      Values(seq(|grid|, k requires 0 <= k < |grid| => cells[AsofIndex(ms, grid[k])]))
  }

  /** On rows that already sit on the half-hour range, the join changes nothing. */
  lemma ResampleOnGrid(cells: seq<real>, ms: seq<int>)
    requires |cells| == |ms| > 0 && ms[0] <= ms[|ms| - 1]
    requires ms == HalfHourRange(ms[0], ms[|ms| - 1])
    ensures ResampleColumn(Values(cells), ms, ms) == Values(cells)
  {
    HalfHourRangeMembers(ms[0], ms[|ms| - 1]);
    assert forall k :: 0 <= k < |ms| ==> ms[0] <= ms[k];
    forall k | 0 <= k < |ms|
      ensures AsofIndex(ms, ms[k]) == k
    {
      var i := AsofIndex(ms, ms[k]);
      assert !(i < k);
    }
  }

  // ---------------------------------------------------------------------
  // The self-forecast: hourly values spread over the half-hours

  /** np.repeat(values, 2) */
  function RepeatEach2(h: seq<real>): (r: seq<real>)
    ensures |r| == 2 * |h|
    ensures forall k :: 0 <= k < |r| ==> r[k] == h[k / 2]
  {
    if h == [] then []
    else
      var rest := RepeatEach2(h[1..]);
      assert forall k :: 2 <= k < 2 * |h| ==> ([h[0], h[0]] + rest)[k] == h[1..][(k - 2) / 2];
      [h[0], h[0]] + rest
  }

  /**
   * The series made exactly n long: cut when longer, padded with its last
   * value when shorter; padding an empty series fails (IndexError).
   */
  function FitLength(s: seq<real>, n: nat): (r: Result<seq<real>>)
    ensures r.Err? <==> |s| < n && s == []
    ensures r.Err? ==> r.error == EmptySelfForecast
    ensures r.Ok? ==> |r.value| == n
    ensures r.Ok? ==> forall k :: 0 <= k < n && k < |s| ==> r.value[k] == s[k]
    ensures r.Ok? ==> forall k :: |s| <= k < n ==> r.value[k] == s[|s| - 1]
  {
    if |s| >= n then Ok(s[..n])
    else if s == [] then Err(EmptySelfForecast)
    else Ok(s + Constant(n - |s|, s[|s| - 1]))
  }

  /** A full day of 24 hourly values fills the 48 half-hours exactly, each hour's value in both of its halves. */
  lemma DayOfHoursFitsTradingDay(h: seq<real>)
    requires |h| == 24
    ensures FitLength(RepeatEach2(h), PeriodCount) == Ok(RepeatEach2(h))
    ensures forall k :: 0 <= k < PeriodCount ==> RepeatEach2(h)[k] == h[k / 2]
  {
    assert RepeatEach2(h)[..PeriodCount] == RepeatEach2(h);
  }

  // ---------------------------------------------------------------------
  // process_forecast_data

  /** One column of the processed frame, in the fixed output order. */
  function OutputColumn(raw: Frame, ms: seq<int>, grid: seq<int>, selfForecast: seq<real>, s: Source): (c: Column)
    requires WellFormed(raw) && |ms| == |raw.times| > 0
    requires forall k :: 0 <= k < |grid| ==> ms[0] <= grid[k]
  {
    if s.SelfForecast? then Values(selfForecast)
    else if s.NaiveNonwind? then Values(Constant(|grid|, NaiveNonwindMW))
    else if s in raw.columns then ResampleColumn(raw.columns[s], ms, grid)
    else Values(Constant(|grid|, 0.0))
  }

  /** The half-hour range from the first to the last local minute of the raw frame. */
  function ResampleGrid(raw: Frame): (grid: seq<int>)
    requires StrictlyIncreasing(raw.times) && |raw.times| > 0
    ensures |grid| > 0 && forall k :: 0 <= k < |grid| ==> Minutes(raw.times)[0] <= grid[k]
  {
    var ms := Minutes(raw.times);
    MinutesAscending(raw.times);
    HalfHourRange(ms[0], ms[|ms| - 1])
  }

  /**
   * process_forecast_data: the self-forecast lookup's outcome comes first;
   * then the frame is resampled onto its half-hour range, the self-forecast
   * and Naïve Nonwind columns are set, and a missing output column is
   * created as zeros.
   */
  function ProcessForecast(raw: Frame, hourly: Result<seq<real>>): (r: Result<Frame>)
    requires WellFormed(raw) && StrictlyIncreasing(raw.times)
    ensures r.Err? <==> hourly.Err? || raw.times == [] || hourly.value == []
    ensures r.Ok? ==> raw.times != [] && r.value.times == ResampleGrid(raw)
  {
    if hourly.Err? then Err(hourly.error)
    else if raw.times == [] then Err(NoVendorReadings)
    else
      var ms := Minutes(raw.times);
      var grid := ResampleGrid(raw);
      match FitLength(RepeatEach2(hourly.value), |grid|)
      case Err(e) => Err(e)
      case Ok(selfForecast) => Ok(Processed(raw, ms, grid, selfForecast))
  }

  /** The frame in the output column order, on the resampled rows. */
  function Processed(raw: Frame, ms: seq<int>, grid: seq<int>, selfForecast: seq<real>): (f: Frame)
    requires WellFormed(raw) && |ms| == |raw.times| > 0
    requires forall k :: 0 <= k < |grid| ==> ms[0] <= grid[k]
  {
    Frame(grid, map s: Source | true :: OutputColumn(raw, ms, grid, selfForecast, s))
  }

  /** Processing a frame with readings and a non-empty self-forecast succeeds. */
  lemma ProcessForecastOk(raw: Frame, h: seq<real>)
    requires WellFormed(raw) && StrictlyIncreasing(raw.times)
    requires raw.times != [] && h != []
    ensures FitLength(RepeatEach2(h), |ResampleGrid(raw)|).Ok?
    ensures ProcessForecast(raw, Ok(h)) ==
      Ok(Processed(raw, Minutes(raw.times), ResampleGrid(raw), FitLength(RepeatEach2(h), |ResampleGrid(raw)|).value))
  {
  }

  /** When processing fails, and why: the lookup first, then no readings, then nothing to pad with. */
  lemma ProcessForecastFailures(raw: Frame, hourly: Result<seq<real>>)
    requires WellFormed(raw) && StrictlyIncreasing(raw.times)
    ensures hourly.Err? ==> ProcessForecast(raw, hourly) == Err(hourly.error)
    ensures hourly.Ok? && raw.times == [] ==> ProcessForecast(raw, hourly) == Err(NoVendorReadings)
    ensures hourly.Ok? && raw.times != [] ==>
      (ProcessForecast(raw, hourly).Err? <==> hourly.value == []) &&
      (hourly.value == [] ==> ProcessForecast(raw, hourly) == Err(EmptySelfForecast))
  {
  }

  /**
   * The processed frame: its rows are the half-hour range between the first
   * and last local minute, and every output column is present and as long as
   * the rows.
   */
  lemma ProcessedFrame(raw: Frame, h: seq<real>)
    requires WellFormed(raw) && StrictlyIncreasing(raw.times)
    requires raw.times != [] && h != []
    ensures ProcessForecast(raw, Ok(h)).Ok?
    ensures ProcessForecast(raw, Ok(h)).value.times == ResampleGrid(raw)
    ensures StrictlyIncreasing(ProcessForecast(raw, Ok(h)).value.times)
    ensures WellFormed(ProcessForecast(raw, Ok(h)).value)
    ensures forall s :: s in ProcessForecast(raw, Ok(h)).value.columns
  {
    ProcessForecastOk(raw, h);
    var ms := Minutes(raw.times);
    MinutesAscending(raw.times);
    HalfHourRangeMembers(ms[0], ms[|ms| - 1]);
  }

  /**
   * Naïve Nonwind is 0.7 in every row, and the self-forecast gives each hour's
   * value to both of its half-hours and repeats the last hour after the data
   * ends.
   */
  lemma ProcessedConstantAndSelfForecast(raw: Frame, h: seq<real>)
    requires WellFormed(raw) && StrictlyIncreasing(raw.times)
    requires raw.times != [] && h != []
    ensures ProcessForecast(raw, Ok(h)).Ok?
    ensures ProcessForecast(raw, Ok(h)).value.columns[NaiveNonwind] == Values(Constant(|ResampleGrid(raw)|, NaiveNonwindMW))
    ensures ProcessForecast(raw, Ok(h)).value.columns[SelfForecast].Values?
    ensures forall k :: 0 <= k < |ResampleGrid(raw)| ==>
      ProcessForecast(raw, Ok(h)).value.columns[SelfForecast].cells[k] == if k < 2 * |h| then h[k / 2] else h[|h| - 1]
  {
    ProcessForecastOk(raw, h);
  }

  /**
   * A vendor column is the raw column carried through the join; a column
   * the raw frame lacks is created as zeros.
   */
  lemma ProcessedVendorColumn(raw: Frame, h: seq<real>, s: Source)
    requires WellFormed(raw) && StrictlyIncreasing(raw.times)
    requires raw.times != [] && h != [] && FromVendor(s)
    ensures ProcessForecast(raw, Ok(h)).Ok?
    ensures s in raw.columns ==>
      ProcessForecast(raw, Ok(h)).value.columns[s] == ResampleColumn(raw.columns[s], Minutes(raw.times), ResampleGrid(raw))
    ensures s !in raw.columns ==>
      ProcessForecast(raw, Ok(h)).value.columns[s] == Values(Constant(|ResampleGrid(raw)|, 0.0))
  {
    ProcessedColumn(raw, h, s);
  }

  /** Each column of the processed frame is the output column for its source. */
  lemma ProcessedColumn(raw: Frame, h: seq<real>, s: Source)
    requires WellFormed(raw) && StrictlyIncreasing(raw.times)
    requires raw.times != [] && h != []
    ensures ProcessForecast(raw, Ok(h)).Ok? && s in ProcessForecast(raw, Ok(h)).value.columns
    ensures FitLength(RepeatEach2(h), |ResampleGrid(raw)|).Ok?
    ensures ProcessForecast(raw, Ok(h)).value.columns[s] ==
      OutputColumn(raw, Minutes(raw.times), ResampleGrid(raw), FitLength(RepeatEach2(h), |ResampleGrid(raw)|).value, s)
  {
    ProcessForecastOk(raw, h);
  }

  /**
   * After the join each row holds the value of the last raw row whose time is
   * at or before its own; an all-missing column stays all-missing.
   */
  lemma ResampledCells(c: Column, ms: seq<int>, grid: seq<int>, k: nat)
    requires c.Values? ==> |c.cells| == |ms|
    requires |ms| > 0 && forall k :: 0 <= k < |grid| ==> ms[0] <= grid[k]
    requires k < |grid|
    ensures c.Blank? ==> ResampleColumn(c, ms, grid) == Blank
    ensures c.Values? ==>
      exists i :: 0 <= i < |ms| && ms[i] <= grid[k] && (forall j :: i < j < |ms| ==> ms[j] > grid[k]) &&
        ResampleColumn(c, ms, grid).cells[k] == c.cells[i]
  {
    if c.Values? {
      var i := AsofIndex(ms, grid[k]);
      assert ResampleColumn(c, ms, grid).cells[k] == c.cells[i];
    }
  }

  // ---------------------------------------------------------------------
  // The end of grab_forecast_data: the trading-day labels and rounding

  /** .round(1) on a column; a missing value stays missing. */
  function RoundColumn(c: Column): (r: Column)
    ensures r.Values? <==> c.Values?
    ensures r.Values? ==> |r.cells| == |c.cells|
    ensures r.Values? ==> forall k :: 0 <= k < |r.cells| ==> IsTenths(r.cells[k]) && -0.05 <= r.cells[k] - c.cells[k] <= 0.05
  {
    match c
    case Blank => Blank
    case Values(cells) => Values(seq(|cells|, k requires 0 <= k < |cells| => Round1(cells[k])))
  }

  /** Rounding a column that already has one decimal changes nothing. */
  lemma RoundColumnOfTenths(c: Column)
    requires c.Values? ==> forall k :: 0 <= k < |c.cells| ==> IsTenths(c.cells[k])
    ensures RoundColumn(c) == c
  {
    if c.Values? {
      forall k | 0 <= k < |c.cells|
        ensures RoundColumn(c).cells[k] == c.cells[k]
      {
        Round1OfTenths(c.cells[k]);
      }
    }
  }

  /**
   * Assigning the 48 trading-day timestamps to the DateTime column: a frame
   * with another number of rows is refused (ValueError); then every other
   * column is rounded to one decimal.
   */
  function OnTradingDay(f: Frame): (r: Result<Frame>)
    ensures r.Err? <==> |f.times| != PeriodCount
    ensures r.Err? ==> r.error == RowCountMismatch(|f.times|)
    ensures r.Ok? ==> r.value.times == Grid() && r.value.columns.Keys == f.columns.Keys
    ensures r.Ok? ==> forall s :: s in f.columns ==> r.value.columns[s] == RoundColumn(f.columns[s])
  {
    if |f.times| != PeriodCount then Err(RowCountMismatch(|f.times|))
    else Ok(Frame(Grid(), map s | s in f.columns :: RoundColumn(f.columns[s])))
  }

  /** The whole download: decode, lay out, process, relabel and round. */
  ghost function Forecast(items: seq<FacilityForecast>, hourly: Result<seq<real>>): Result<Frame>
  {
    match DecodeAll(items)
    case Err(e) => Err(e)
    case Ok(d) =>
      RawFrameShape(d);
      match ProcessForecast(RawFrame(d), hourly)
      case Err(e) => Err(e)
      case Ok(f) => OnTradingDay(f)
  }

  /** grab_forecast_data without the vendor session and the file and table writes. */
  method GrabForecast(items: seq<FacilityForecast>, hourly: Result<seq<real>>) returns (r: Result<Frame>)
    ensures r == Forecast(items, hourly)
  {
    var decoded := DecodeResponse(items);
    if decoded.Err? {
      return Err(decoded.error);
    }
    var raw := BuildRawFrame(decoded.value);
    RawFrameShape(decoded.value);
    var processed := ProcessForecast(raw, hourly);
    if processed.Err? {
      return Err(processed.error);
    }
    var f := processed.value;
    if |f.times| != PeriodCount {
      return Err(RowCountMismatch(|f.times|));
    }
    var timestamps := BuildTimestamps();
    r := Ok(Frame(timestamps, map s | s in f.columns :: RoundColumn(f.columns[s])));
  }

  /** The processed frame has the 48 rows of a trading day exactly when its readings span 23h30 to 23h59 of local minutes. */
  lemma TradingDayRowCount(raw: Frame)
    requires StrictlyIncreasing(raw.times) && |raw.times| > 0
    ensures |ResampleGrid(raw)| == PeriodCount <==>
      47 * 30 <= Minutes(raw.times)[|raw.times| - 1] - Minutes(raw.times)[0] < 48 * 30
  {
    MinutesAscending(raw.times);
  }

  /**
   * A saved forecast: the 48 trading-day periods, every output column, each
   * either all-missing or 48 values with one decimal, and Naïve Nonwind 0.7
   * in every period.
   */
  lemma SavedForecastShape(items: seq<FacilityForecast>, hourly: Result<seq<real>>)
    requires Forecast(items, hourly).Ok?
    ensures Forecast(items, hourly).value.times == Grid()
    ensures forall s :: s in Forecast(items, hourly).value.columns
    ensures forall s :: Forecast(items, hourly).value.columns[s].Values? ==>
      |Forecast(items, hourly).value.columns[s].cells| == PeriodCount &&
      forall k :: 0 <= k < PeriodCount ==> IsTenths(Forecast(items, hourly).value.columns[s].cells[k])
    ensures Forecast(items, hourly).value.columns[NaiveNonwind] == Values(Constant(PeriodCount, NaiveNonwindMW))
  {
    var d := DecodeAll(items).value;
    RawFrameShape(d);
    var raw := RawFrame(d);
    ProcessedFrame(raw, hourly.value);
    ProcessedConstantAndSelfForecast(raw, hourly.value);
    assert IsTenths(NaiveNonwindMW) by {
      assert NaiveNonwindMW * 10.0 == 7 as real;
    }
    RoundColumnOfTenths(Values(Constant(PeriodCount, NaiveNonwindMW)));
  }

  /**
   * Each saved column is the processed column of its source rounded to one
   * decimal: the resampled vendor reading, the repeated self-forecast, 0.7 or 0.
   */
  lemma SavedForecastColumn(items: seq<FacilityForecast>, hourly: Result<seq<real>>, s: Source)
    requires Forecast(items, hourly).Ok?
    ensures DecodeAll(items).Ok? && hourly.Ok? && hourly.value != []
    ensures var raw := RawFrame(DecodeAll(items).value);
      raw.times != [] && FitLength(RepeatEach2(hourly.value), |ResampleGrid(raw)|).Ok? &&
      Forecast(items, hourly).value.columns[s] ==
        RoundColumn(OutputColumn(raw, Minutes(raw.times), ResampleGrid(raw), FitLength(RepeatEach2(hourly.value), |ResampleGrid(raw)|).value, s))
  {
    var d := DecodeAll(items).value;
    RawFrameShape(d);
    var raw := RawFrame(d);
    ProcessForecastFailures(raw, hourly);
    ProcessedColumn(raw, hourly.value, s);
  }

  /** Why a download fails: a bad field, the self-forecast lookup, no readings, nothing to pad with, or the wrong row count. */
  lemma ForecastFailures(items: seq<FacilityForecast>, hourly: Result<seq<real>>)
    ensures DecodeAll(items).Err? ==> Forecast(items, hourly) == Err(DecodeAll(items).error)
    ensures DecodeAll(items).Ok? && hourly.Err? ==> Forecast(items, hourly) == Err(hourly.error)
    ensures DecodeAll(items).Ok? && hourly.Ok? && DecodeAll(items).value.timestamps == {} ==>
      Forecast(items, hourly) == Err(NoVendorReadings)
    ensures DecodeAll(items).Ok? && hourly.Ok? && DecodeAll(items).value.timestamps != {} ==>
      (hourly.value == [] ==> Forecast(items, hourly) == Err(EmptySelfForecast)) &&
      (hourly.value != [] ==>
        (Forecast(items, hourly).Err? <==> |ResampleGrid(RawFrame(DecodeAll(items).value))| != PeriodCount))
  {
    if DecodeAll(items).Ok? {
      var d := DecodeAll(items).value;
      RawFrameShape(d);
      if d.timestamps == {} {
        assert RawFrame(d).times == [];
      } else {
        NonEmptyHasMember(d.timestamps);
        var t :| t in d.timestamps;
        assert t in RawFrame(d).times;
      }
    }
  }
}
