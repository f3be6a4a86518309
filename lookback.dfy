/**
 * The search for the latest self-forecast workbook
 * (FES_MasterScript_PRODUCTION.py, find_latest_self_forecast): day folders
 * are tried newest first, from the trading date back a bounded number of
 * days; in the first folder that exists and holds a workbook, the one named
 * for that day wins, otherwise the greatest name matching the template
 * pattern.
 */
module SelfForecastLookup {
  import opened Outcomes

  /** A day folder of the archive: its dd.mm.yyyy name and the file names it holds. */
  datatype DayFolder = DayFolder(stamp: string, files: seq<string>)

  /** The archive: the folder of each day number that has one (a missing key is a folder that does not exist). */
  type Archive = map<int, DayFolder>

  /** A workbook found: its day number and file name. */
  datatype Found = Found(day: int, name: string)

  const TemplatePrefix: string := "1) Aggregated Naturgy_Self_Forecast_Template_v1_"
  const DefaultLookback: nat := 14

  /** The workbook named for the folder's own day. */
  function ExpectedName(stamp: string): string
  {
    TemplatePrefix + stamp + ".xlsx"
  }

  /** The glob "1) Aggregated Naturgy_Self_Forecast_Template_v1_*.xlsx". */
  predicate MatchesTemplate(name: string) {
    |name| >= |TemplatePrefix| + 5 && name[..|TemplatePrefix|] == TemplatePrefix && name[|name| - 5..] == ".xlsx"
  }

  lemma ExpectedNameMatches(stamp: string)
    ensures MatchesTemplate(ExpectedName(stamp))
  {
    var n := ExpectedName(stamp);
    assert n[..|TemplatePrefix|] == TemplatePrefix;
    assert n[|n| - 5..] == ".xlsx";
  }

  /** Python's string order: by code point, a proper prefix first. */
  predicate LexLess(a: string, b: string) {
    if a == [] then b != []
    else if b == [] then false
    else a[0] < b[0] || (a[0] == b[0] && LexLess(a[1..], b[1..]))
  }

  lemma {:induction false} LexLessAsymmetric(a: string, b: string)
    ensures !(LexLess(a, b) && LexLess(b, a))
  {
    if a != [] && b != [] && a[0] == b[0] {
      LexLessAsymmetric(a[1..], b[1..]);
    }
  }

  lemma {:induction false} LexLessTotal(a: string, b: string)
    ensures a == b || LexLess(a, b) || LexLess(b, a)
  {
    if a != [] && b != [] && a[0] == b[0] {
      LexLessTotal(a[1..], b[1..]);
      if a[1..] == b[1..] {
        assert a == [a[0]] + a[1..] && b == [b[0]] + b[1..];
      }
    }
  }

  lemma {:induction false} LexLessTransitive(a: string, b: string, c: string)
    requires LexLess(a, b) && LexLess(b, c)
    ensures LexLess(a, c)
  {
    if a != [] && a[0] == b[0] && b[0] == c[0] {
      LexLessTransitive(a[1..], b[1..], c[1..]);
    }
  }

  /** The greatest of a non-empty list of names: sorted(...)[-1]. */
  function Greatest(names: seq<string>): (g: string)
    requires names != []
    ensures g in names
    ensures forall x :: x in names ==> !LexLess(g, x)
  {
    if |names| == 1 then
      LexLessAsymmetric(names[0], names[0]);
      names[0]
    else
      var m := Greatest(names[1..]);
      assert forall x :: x in names ==> x == names[0] || x in names[1..];
      if LexLess(names[0], m) then
        LexLessAsymmetric(names[0], m);
        m
      else
        assert forall x :: x in names[1..] ==> !LexLess(names[0], x) by {
          forall x | x in names[1..]
            ensures !LexLess(names[0], x)
          {
            LexLessTotal(m, x);
            if LexLess(names[0], x) && LexLess(x, m) {
              LexLessTransitive(names[0], x, m);
            }
          }
        }
        LexLessAsymmetric(names[0], names[0]);
        names[0]
  }

  /** The names of a folder that match the template, in listing order. */
  function Matches(files: seq<string>): (ms: seq<string>)
    ensures forall x :: x in ms <==> x in files && MatchesTemplate(x)
  {
    if files == [] then []
    else (if MatchesTemplate(files[0]) then [files[0]] else []) + Matches(files[1..])
  }

  /** What an existing folder yields: the day's own workbook, else the greatest match, else nothing. */
  function Pick(f: DayFolder): Option<string>
  {
    if ExpectedName(f.stamp) in f.files then Some(ExpectedName(f.stamp))
    else if Matches(f.files) == [] then None
    else Some(Greatest(Matches(f.files)))
  }

  /** The search from offset delta on, in the order the loop tries the days. */
  function SearchFrom(archive: Archive, day0: int, delta: nat, maxLookback: nat): Result<Found>
    decreases maxLookback + 1 - delta
  {
    if delta > maxLookback then Err(SelfForecastNotFound)
    else
      var day := day0 - delta;
      if day in archive && Pick(archive[day]).Some? then Ok(Found(day, Pick(archive[day]).value))
      else SearchFrom(archive, day0, delta + 1, maxLookback)
  }

  /** The workbook find_latest_self_forecast returns, or the error it raises. */
  function LatestSelfForecast(archive: Archive, day0: int, maxLookback: nat): Result<Found>
  {
    SearchFrom(archive, day0, 0, maxLookback)
  }

  /** The loop of find_latest_self_forecast, with its early returns. */
  method FindLatestSelfForecast(archive: Archive, day0: int, maxLookback: nat) returns (r: Result<Found>)
    ensures r == LatestSelfForecast(archive, day0, maxLookback)
  {
    var delta := 0;
    while delta <= maxLookback
      invariant 0 <= delta <= maxLookback + 1
      invariant SearchFrom(archive, day0, delta, maxLookback) == LatestSelfForecast(archive, day0, maxLookback)
      decreases maxLookback + 1 - delta
    {
      var day := day0 - delta;
      SearchStep(archive, day0, delta, maxLookback);
      if day in archive {
        var folder := archive[day];
        var expected := ExpectedName(folder.stamp);
        if expected in folder.files {
          return Ok(Found(day, expected));
        }
        var matches := Matches(folder.files);
        if matches != [] {
          return Ok(Found(day, Greatest(matches)));
        }
      }
      delta := delta + 1;
    }
    return Err(SelfForecastNotFound);
  }

  /** One day of the search: take the day's workbook if its folder yields one, else go on to the day before. */
  lemma SearchStep(archive: Archive, day0: int, delta: nat, maxLookback: nat)
    requires delta <= maxLookback
    ensures var day := day0 - delta;
      SearchFrom(archive, day0, delta, maxLookback) ==
        if day in archive && Pick(archive[day]).Some? then Ok(Found(day, Pick(archive[day]).value))
        else SearchFrom(archive, day0, delta + 1, maxLookback)
  {
  }

  /** A day holds a candidate when its folder exists and has a workbook matching the template. */
  predicate HasCandidate(archive: Archive, day: int) {
    day in archive && exists x :: x in archive[day].files && MatchesTemplate(x)
  }

  /** The day delta days before the trading date holds a candidate. */
  predicate CandidateAt(archive: Archive, day0: int, delta: int) {
    HasCandidate(archive, day0 - delta)
  }

  lemma PickWhenCandidate(f: DayFolder)
    ensures Pick(f).Some? <==> exists x :: x in f.files && MatchesTemplate(x)
    ensures Pick(f).Some? ==> Pick(f).value in f.files && MatchesTemplate(Pick(f).value)
  {
    ExpectedNameMatches(f.stamp);
    if exists x :: x in f.files && MatchesTemplate(x) {
      var x :| x in f.files && MatchesTemplate(x);
      assert x in Matches(f.files);
    }
  }

  /** A day is taken exactly when it holds a candidate. */
  lemma TakenIffCandidate(archive: Archive, day: int)
    ensures (day in archive && Pick(archive[day]).Some?) <==> HasCandidate(archive, day)
  {
    if day in archive {
      PickWhenCandidate(archive[day]);
    }
  }

  /** From offset delta on, the search fails exactly when no day of the rest of the window holds a candidate. */
  lemma {:induction false} SearchFromFails(archive: Archive, day0: int, delta: nat, maxLookback: nat)
    ensures SearchFrom(archive, day0, delta, maxLookback).Err? <==>
      forall d :: delta <= d <= maxLookback ==> !CandidateAt(archive, day0, d)
    ensures SearchFrom(archive, day0, delta, maxLookback).Err? ==>
      SearchFrom(archive, day0, delta, maxLookback).error == SelfForecastNotFound
    decreases maxLookback + 1 - delta
  {
    if delta <= maxLookback {
      TakenIffCandidate(archive, day0 - delta);
      SearchFromFails(archive, day0, delta + 1, maxLookback);
      if !CandidateAt(archive, day0, delta) && forall d :: delta + 1 <= d <= maxLookback ==> !CandidateAt(archive, day0, d) {
        forall d | delta <= d <= maxLookback
          ensures !CandidateAt(archive, day0, d)
        {
          if d != delta {
            assert delta + 1 <= d;
          }
        }
      }
    }
  }

  /**
   * From offset delta on, a successful search stops at the first offset whose
   * day holds a candidate, and returns a matching workbook of that folder.
   */
  lemma {:induction false} SearchFromFindsFirst(archive: Archive, day0: int, delta: nat, maxLookback: nat)
    requires SearchFrom(archive, day0, delta, maxLookback).Ok?
    ensures var f := SearchFrom(archive, day0, delta, maxLookback).value;
      delta <= day0 - f.day <= maxLookback && f.day in archive && Pick(archive[f.day]) == Some(f.name) &&
      forall d :: delta <= d < day0 - f.day ==> !CandidateAt(archive, day0, d)
    decreases maxLookback + 1 - delta
  {
    var day := day0 - delta;
    TakenIffCandidate(archive, day);
    if !(day in archive && Pick(archive[day]).Some?) {
      SearchFromFindsFirst(archive, day0, delta + 1, maxLookback);
    }
  }

  /**
   * The search raises "not found" exactly when no day from the trading date
   * back maxLookback days has a folder holding a matching workbook.
   */
  lemma NotFoundIffNoCandidate(archive: Archive, day0: int, maxLookback: nat)
    ensures LatestSelfForecast(archive, day0, maxLookback).Err? <==>
      forall d :: day0 - maxLookback <= d <= day0 ==> !HasCandidate(archive, d)
    ensures LatestSelfForecast(archive, day0, maxLookback).Err? ==>
      LatestSelfForecast(archive, day0, maxLookback).error == SelfForecastNotFound
  {
    SearchFromFails(archive, day0, 0, maxLookback);
    if forall d :: 0 <= d <= maxLookback ==> !CandidateAt(archive, day0, d) {
      forall d | day0 - maxLookback <= d <= day0
        ensures !HasCandidate(archive, d)
      {
        assert !CandidateAt(archive, day0, day0 - d);
      }
    } else {
      var d :| 0 <= d <= maxLookback && CandidateAt(archive, day0, d);
      assert HasCandidate(archive, day0 - d);
    }
  }

  /**
   * A workbook found comes from the newest day of the window whose folder
   * holds one, and is a workbook of that folder matching the template.
   */
  lemma FoundIsNewestCandidate(archive: Archive, day0: int, maxLookback: nat)
    requires LatestSelfForecast(archive, day0, maxLookback).Ok?
    ensures var f := LatestSelfForecast(archive, day0, maxLookback).value;
      day0 - maxLookback <= f.day <= day0 && f.day in archive &&
      f.name in archive[f.day].files && MatchesTemplate(f.name) &&
      forall d :: f.day < d <= day0 ==> !HasCandidate(archive, d)
  {
    SearchFromFindsFirst(archive, day0, 0, maxLookback);
    var f := LatestSelfForecast(archive, day0, maxLookback).value;
    PickWhenCandidate(archive[f.day]);
    forall d | f.day < d <= day0
      ensures !HasCandidate(archive, d)
    {
      assert !CandidateAt(archive, day0, day0 - d);
    }
  }

  /**
   * In the folder it settles on, the search prefers the workbook named for
   * that day, and otherwise takes the greatest matching name.
   */
  lemma FoundPrefersExpectedName(archive: Archive, day0: int, maxLookback: nat)
    requires LatestSelfForecast(archive, day0, maxLookback).Ok?
    ensures var f := LatestSelfForecast(archive, day0, maxLookback).value;
      f.day in archive &&
      (ExpectedName(archive[f.day].stamp) in archive[f.day].files ==> f.name == ExpectedName(archive[f.day].stamp)) &&
      (ExpectedName(archive[f.day].stamp) !in archive[f.day].files ==>
        forall x :: x in archive[f.day].files && MatchesTemplate(x) ==> !LexLess(f.name, x))
  {
    SearchFromFindsFirst(archive, day0, 0, maxLookback);
  }
}
