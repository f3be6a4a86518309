/**
 * The trading day: 48 half-hour periods from 23:00 on the day before the
 * trading date to 22:30 on the trading date. Times are minutes from midnight
 * of the trading date, so the first period starts at -60.
 */
module TradingDay {
  import opened Numeric
  import opened Text

  const PeriodCount: nat := 48
  const MinutesPerDay: int := 1440

  /**
   * pd.date_range(trading date - 1 day + 23 hours, periods=48, freq="30min"),
   * the grid both compilers join their sources onto.
   */
  function Grid(): (g: seq<int>)
    ensures |g| == PeriodCount
    ensures g[0] == -60 && g[PeriodCount - 1] == 22 * 60 + 30
    ensures forall k :: 0 < k < |g| ==> g[k] == g[k - 1] + 30
    ensures StrictlyIncreasing(g)
  {
    seq(PeriodCount, k => -60 + 30 * k)
  }

  /**
   * The timestamp list of the forecast download: 23:00 and 23:30 of the day
   * before, then hh:00 and hh:30 for hours 0 to 22 of the trading date.
   */
  method BuildTimestamps() returns (ts: seq<int>)
    ensures ts == Grid()
  {
    var previousDay := -MinutesPerDay;
    var minutes := [0, 30];
    ts := [];
    for j := 0 to 2
      invariant |ts| == j
      invariant forall k :: 0 <= k < |ts| ==> ts[k] == -60 + 30 * k
    {
      ts := ts + [previousDay + 23 * 60 + minutes[j]];
    }
    for hour := 0 to 23
      invariant |ts| == 2 + 2 * hour
      invariant forall k :: 0 <= k < |ts| ==> ts[k] == -60 + 30 * k
    {
      for j := 0 to 2
        invariant |ts| == 2 + 2 * hour + j
        invariant forall k :: 0 <= k < |ts| ==> ts[k] == -60 + 30 * k
      {
        ts := ts + [hour * 60 + minutes[j]];
      }
    }
  }

  function TwoDigits(n: nat): (s: string)
    requires n < 100
    ensures |s| == 2 && AllDigits(s) && DigitsValue(s) == n
  {
    var s := [DigitChar(n / 10), DigitChar(n % 10)];
    assert s[..1] == [DigitChar(n / 10)];
    assert DigitsValue(s[..1][..0]) == 0;
    s
  }

  /** strftime("%H:%M"): the clock time of t, with the hour and minute read back giving t's minute of the day. */
  function HourMinute(t: int): (s: string)
    ensures |s| == 5 && s[2] == ':' && AllDigits(s[..2]) && AllDigits(s[3..])
    ensures DigitsValue(s[..2]) * 60 + DigitsValue(s[3..]) == t % MinutesPerDay
  {
    var m := t % MinutesPerDay;
    var s := TwoDigits(m / 60) + ":" + TwoDigits(m % 60);
    assert s[..2] == TwoDigits(m / 60) && s[3..] == TwoDigits(m % 60);
    s
  }

  /** strftime("%H:%M:%S") of a whole-minute time. */
  function HourMinuteSecond(t: int): (s: string)
    ensures |s| == 8 && s[..5] == HourMinute(t) && s[5..] == ":00"
  {
    HourMinute(t) + ":00"
  }
}
