/**
 * Where the compiled files go: the lag label, the generation forecast file
 * names, the table a forecast upload is routed to, the bid tables of the two
 * unit compilers, and the column renaming applied before a forecast upload
 * (FES_MasterScript_PRODUCTION.py upload_to_fabric and the compilers'
 * upload_to_fabric; FES_IDA1_Compiler.py for the IDA-1 file name).
 */
module Routing {
  import opened Outcomes
  import opened Text
  import opened Columns

  const GenerationDMinus1: string := "Generation_D_Minus_1"
  const GenerationDMinusX: string := "Generation_D_Minus_X"

  /** The date in a file name, dd.mm.yyyy: digits and points only. */
  predicate DayLabel(date: string) {
    forall i :: 0 <= i < |date| ==> IsDigit(date[i]) || date[i] == '.'
  }

  /** The lag of a forecast, "D-<days ahead>"; days ahead is an input (it depends on today's date). */
  function LagLabel(daysAhead: int): string
  {
    "D-" + ShowInt(daysAhead)
  }

  /** The lag label reads back: "D-" followed by text that int() turns into the days ahead. */
  lemma LagLabelParses(daysAhead: int)
    ensures var s := LagLabel(daysAhead); |s| >= 3 && s[..2] == "D-" && ParseInt(s[2..]) == Some(daysAhead)
  {
    ShowIntNoLetter(daysAhead);
    ParseIntShowInt(daysAhead);
    assert LagLabel(daysAhead)[2..] == ShowInt(daysAhead);
  }

  /** The compilers' test: the lag label is "D-1" exactly when the forecast is for tomorrow. */
  lemma LagLabelDMinus1(daysAhead: int)
    ensures LagLabel(daysAhead) == "D-1" <==> daysAhead == 1
  {
    if LagLabel(daysAhead) == "D-1" {
      assert ShowInt(daysAhead) == LagLabel(daysAhead)[2..] == "1";
      ParseIntShowInt(daysAhead);
      assert ParseInt("1") == Some(1) by {
        assert AllDigits("1") && DigitsValue("1") == 1 by {
          assert "1"[..0] == [];
        }
      }
    }
  }

  /** The saved forecast: "Generation Forecast <dd.mm.yyyy> <lag>.xlsx". */
  function ForecastFileName(date: string, daysAhead: int): string
  {
    "Generation Forecast " + date + " " + LagLabel(daysAhead) + ".xlsx"
  }

  /** The intraday re-forecast: "Generation Forecast <dd.mm.yyyy> IDA-1.xlsx". */
  function Ida1FileName(date: string): string
  {
    "Generation Forecast " + date + " IDA-1.xlsx"
  }

  /** upload_to_fabric as written: any file name containing "D-1" goes to the D-1 table. */
  function GenerationTableAsWritten(fileName: string): (t: string)
    ensures t == GenerationDMinus1 <==> Contains(fileName, "D-1")
  {
    if Contains(fileName, "D-1") then GenerationDMinus1 else GenerationDMinusX
  }

  function EndsWith(s: string, suffix: string): bool
  {
    |suffix| <= |s| && s[|s| - |suffix|..] == suffix
  }

  /** The routing as intended: the D-1 table takes the file whose lag is exactly D-1. */
  function GenerationTable(fileName: string): (t: string)
    ensures t == GenerationDMinus1 <==> EndsWith(fileName, " D-1.xlsx")
  {
    if EndsWith(fileName, " D-1.xlsx") then GenerationDMinus1 else GenerationDMinusX
  }

  /** The only 'D' of a forecast file name is the one that starts its lag. */
  lemma ForecastNameLetters(date: string, daysAhead: int)
    requires DayLabel(date)
    ensures var s := ForecastFileName(date, daysAhead);
      var p := 21 + |date|;
      p + 3 <= |s| && s[p..p + 2] == "D-" && s[p + 2] == ShowInt(daysAhead)[0] &&
      forall i :: 0 <= i < |s| && s[i] == 'D' ==> i == p
  {
    var a := "Generation Forecast ";
    var lag := ShowInt(daysAhead);
    var s := ForecastFileName(date, daysAhead);
    var p := 21 + |date|;
    assert forall i :: 0 <= i < |a| ==> a[i] != 'D';
    assert forall i :: 0 <= i < |".xlsx"| ==> ".xlsx"[i] != 'D';
    ShowIntNoLetter(daysAhead);
    assert s == a + date + " " + "D-" + lag + ".xlsx";
    forall i | 0 <= i < |s| && i != p
      ensures s[i] != 'D'
    {
      if i < |a| {
        assert s[i] == a[i];
      } else if i < |a| + |date| {
        assert s[i] == date[i - |a|];
      } else if i < p {
        assert s[i] == ' ';
      } else if i < p + 2 + |lag| {
        assert s[i] == ("D-" + lag)[i - p];
      } else {
        assert s[i] == ".xlsx"[i - p - 2 - |lag|];
      }
    }
  }

  /** str(n) has at least one character and is made of digits and '-'. */
  lemma ShowIntNoLetter(n: int)
    ensures |ShowInt(n)| >= 1
    ensures forall i :: 0 <= i < |ShowInt(n)| ==> IsDigit(ShowInt(n)[i]) || ShowInt(n)[i] == '-'
  {
    if n < 0 {
      assert forall i :: 1 <= i < |ShowInt(n)| ==> ShowInt(n)[i] == ShowNat(-n)[i - 1];
    }
  }

  /**
   * As written, a forecast file goes to the D-1 table exactly when its days
   * ahead prints with a leading 1: D-1, but also D-10 to D-19, D-100 and so on.
   */
  lemma AsWrittenRoutesLeadingOne(date: string, daysAhead: int)
    requires DayLabel(date)
    ensures GenerationTableAsWritten(ForecastFileName(date, daysAhead)) == GenerationDMinus1
        <==> ShowInt(daysAhead)[0] == '1'
  {
    var s := ForecastFileName(date, daysAhead);
    var p := 21 + |date|;
    ForecastNameLetters(date, daysAhead);
    ContainsOnlyAt(s, "D-1", p);
    assert Contains(s, "D-1") <==> s[p..p + 3] == "D-1";
    assert s[p..p + 3] == "D-" + [s[p + 2]];
  }

  /** The lag D-10 is no D-1 forecast, yet the substring test sends it to the D-1 table. */
  lemma AsWrittenMisroutesDMinus10()
    ensures LagLabel(10) != "D-1"
    ensures GenerationTableAsWritten(ForecastFileName("18.01.2026", 10)) == GenerationDMinus1
  {
    LagLabelDMinus1(10);
    assert ShowInt(10) == ShowNat(1) + [DigitChar(0)];
    assert DayLabel("18.01.2026");
    AsWrittenRoutesLeadingOne("18.01.2026", 10);
  }

  /** Corrected, a forecast file goes to the D-1 table exactly when its lag is D-1. */
  lemma RoutesExactLag(date: string, daysAhead: int)
    requires DayLabel(date)
    ensures GenerationTable(ForecastFileName(date, daysAhead)) == GenerationDMinus1 <==> daysAhead == 1
  {
    var s := ForecastFileName(date, daysAhead);
    var lag := ShowInt(daysAhead);
    var t := "D-" + lag + ".xlsx";
    var n := |s|;
    ShowIntNoLetter(daysAhead);
    LagLabelDMinus1(daysAhead);
    assert s == ("Generation Forecast " + date + " ") + t;
    if |lag| == 1 {
      assert s[n - 9..] == " " + t;
      if EndsWith(s, " D-1.xlsx") {
        assert (" " + t)[3] == lag[0];
        assert " D-1.xlsx"[3] == '1';
        assert lag == [lag[0]] == "1";
        assert LagLabel(daysAhead) == "D-1";
      }
      if daysAhead == 1 {
        assert lag == "1";
      }
    } else {
      assert s[n - 9] == t[|lag| - 2];
      assert t[|lag| - 2] != ' ' by {
        if |lag| >= 4 {
          assert t[|lag| - 2] == lag[|lag| - 4];
        }
      }
      assert s[n - 9..][0] == s[n - 9];
      assert lag != ShowInt(1);
    }
  }

  /** The IDA-1 file name has no "D-1": its only 'D' starts "DA-1". */
  lemma Ida1NameHasNoDMinus1(date: string)
    requires DayLabel(date)
    ensures !Contains(Ida1FileName(date), "D-1")
  {
    var a := "Generation Forecast ";
    var s := Ida1FileName(date);
    var p := |a| + |date| + 2;
    assert s == a + date + " IDA-1.xlsx";
    assert forall i :: 0 <= i < |a| ==> a[i] != 'D';
    forall i | 0 <= i < |s| && i != p
      ensures s[i] != 'D'
    {
      if i < |a| {
        assert s[i] == a[i];
      } else if i < |a| + |date| {
        assert s[i] == date[i - |a|];
      } else {
        assert s[i] == " IDA-1.xlsx"[i - |a| - |date|];
      }
    }
    ContainsOnlyAt(s, "D-1", p);
    assert s[p + 1] == " IDA-1.xlsx"[3] == 'A';
    assert s[p..p + 3][1] == s[p + 1];
  }

  /** The IDA-1 forecast is uploaded to the D-X table, by the routing as written and as corrected. */
  lemma Ida1RoutesToDMinusX(date: string)
    requires DayLabel(date)
    ensures GenerationTableAsWritten(Ida1FileName(date)) == GenerationDMinusX
    ensures GenerationTable(Ida1FileName(date)) == GenerationDMinusX
  {
    Ida1NameHasNoDMinus1(date);
    var s := Ida1FileName(date);
    assert s[|s| - 9..] == "DA-1.xlsx";
  }

  /** The two bid compilers. */
  datatype Unit = Murley | Supply

  /** The compilers' upload table: production D-1 or D-X by exact lag, or the unit's test table. */
  function BidTable(unit: Unit, lag: string, useProduction: bool): (t: string)
    ensures useProduction ==> (t == DMinus1BidTable(unit) <==> lag == "D-1")
    ensures !useProduction ==> |t| >= 5 && t[..5] == "test_" && t != DMinus1BidTable(unit)
  {
    match unit
    case Murley =>
      if !useProduction then "test_Bids_Murley"
      else if lag == "D-1" then "Bids_Murley_D_Minus_1" else "Bids_Murley_D_Minus_X"
    case Supply =>
      if !useProduction then "test_Bids_SU"
      else if lag == "D-1" then "Bids_SU_D_Minus_1" else "Bids_SU_D_Minus_X"
  }

  /** The production D-1 bid table of a unit. */
  function DMinus1BidTable(unit: Unit): string
  {
    if unit == Murley then "Bids_Murley_D_Minus_1" else "Bids_SU_D_Minus_1"
  }

  /**
   * In production the bids of a run go to the D-1 table exactly when its
   * forecast file does under the corrected routing; a test run never touches
   * a production table.
   */
  lemma BidTableFollowsLag(unit: Unit, date: string, daysAhead: int)
    requires DayLabel(date)
    ensures BidTable(unit, LagLabel(daysAhead), true) == DMinus1BidTable(unit)
        <==> GenerationTable(ForecastFileName(date, daysAhead)) == GenerationDMinus1
    ensures BidTable(unit, LagLabel(daysAhead), false) == if unit == Murley then "test_Bids_Murley" else "test_Bids_SU"
  {
    LagLabelDMinus1(daysAhead);
    RoutesExactLag(date, daysAhead);
  }

  /** The forecast and the bids of a D-10 run part ways as written: the forecast lands in the D-1 table, the bids in D-X. */
  lemma AsWrittenSplitsDMinus10Run(unit: Unit)
    ensures GenerationTableAsWritten(ForecastFileName("18.01.2026", 10)) == GenerationDMinus1
    ensures BidTable(unit, LagLabel(10), true) != DMinus1BidTable(unit)
  {
    AsWrittenMisroutesDMinus10();
  }

  /** A column's name in the warehouse: the " (MW)" suffix becomes " _MW_". */
  function SqlName(c: string): string
  {
    if EndsWith(c, " (MW)") then c[..|c| - 5] + " _MW_" else c
  }

  /** The solar site columns of the forecast table, site i. */
  function SolarColumn(i: nat): string
  {
    "Meteo S" + ShowNat(i) + " (MW)"
  }

  /** The warehouse column of each forecast column, as listed in upload_to_fabric. */
  function WarehouseName(s: Source): string
  {
    Stem(s) + " _MW_"
  }

  /** The fixed part of the rename map: the time column, then each forecast column in the saved order. */
  function BaseColumnMap(): (m: seq<(string, string)>)
    ensures |m| == 13
  {
    [("DateTime", "DateTime")]
      + seq(|OutputOrder|, i requires 0 <= i < |OutputOrder| => (ColumnName(OutputOrder[i]), WarehouseName(OutputOrder[i])))
  }

  lemma SuffixRenamed(stem: string)
    ensures SqlName(stem + " (MW)") == stem + " _MW_"
  {
    var c := stem + " (MW)";
    assert c[|c| - 5..] == " (MW)";
    assert c[..|c| - 5] == stem;
  }

  /** Each listed warehouse column is the forecast column's name with " (MW)" turned into " _MW_". */
  lemma WarehouseNameIsSqlName(s: Source)
    ensures WarehouseName(s) == SqlName(ColumnName(s))
  {
    SuffixRenamed(Stem(s));
  }

  /** The entry the loop adds for solar site i. */
  function SolarEntry(i: nat): (string, string)
  {
    (SolarColumn(i), "Meteo S" + ShowNat(i) + " _MW_")
  }

  /** The whole rename map: the fixed part, then sites S3..S25. */
  function ColumnMap(): seq<(string, string)>
  {
    BaseColumnMap() + seq(23, k requires 0 <= k < 23 => SolarEntry(k + 3))
  }

  /** The rename map built as upload_to_fabric builds it: the fixed entries, then one per site 3..25. */
  method BuildColumnMap() returns (entries: seq<(string, string)>)
    ensures entries == ColumnMap()
  {
    entries := BaseColumnMap();
    for i := 3 to 26
      invariant entries == BaseColumnMap() + seq(i - 3, k requires 0 <= k < i - 3 => SolarEntry(k + 3))
    {
      entries := entries + [SolarEntry(i)];
    }
  }

  /**
   * The rename map has the time column, the twelve forecast columns in the
   * saved order and the solar sites S3..S25, and every entry renames its
   * column to the column's warehouse name.
   */
  lemma ColumnMapRenamesToSqlNames()
    ensures |ColumnMap()| == 36
    ensures ColumnMap()[0] == ("DateTime", "DateTime")
    ensures forall i :: 0 <= i < |OutputOrder| ==> ColumnMap()[i + 1].0 == ColumnName(OutputOrder[i])
    ensures forall i :: 3 <= i <= 25 ==> SolarEntry(i) in ColumnMap()
    ensures forall i :: 0 <= i < |ColumnMap()| ==> ColumnMap()[i].1 == SqlName(ColumnMap()[i].0)
  {
    var m := ColumnMap();
    BaseColumnMapRenames();
    forall i | 3 <= i <= 25
      ensures SolarEntry(i) in m
    {
      assert m[i + 10] == SolarEntry(i);
    }
    forall i | 13 <= i < |m|
      ensures m[i].1 == SqlName(m[i].0)
    {
      assert m[i] == SolarEntry(i - 10);
      SolarEntryRenames(i - 10);
    }
  }

  lemma BaseColumnMapRenames()
    ensures forall i :: 0 <= i < |BaseColumnMap()| ==> BaseColumnMap()[i].1 == SqlName(BaseColumnMap()[i].0)
    ensures forall i :: 0 <= i < |OutputOrder| ==> BaseColumnMap()[i + 1].0 == ColumnName(OutputOrder[i])
  {
    var m := BaseColumnMap();
    forall i | 1 <= i < |m|
      ensures m[i].1 == SqlName(m[i].0)
    {
      WarehouseNameIsSqlName(OutputOrder[i - 1]);
    }
  }

  lemma SolarEntryRenames(i: nat)
    ensures SolarEntry(i).1 == SqlName(SolarEntry(i).0)
  {
    var d := ShowNat(i);
    var c := "Meteo S" + d + " (MW)";
    assert c[|c| - 5..] == " (MW)";
    assert c[..|c| - 5] == "Meteo S" + d;
  }
}
