# Bid derivation of the FES forecast and bid compilers, in Dafny

This project models the deterministic core of the FES day-ahead and intraday
bid tooling. That core sits between the forecast vendor and the file and
warehouse writers:

- **Vendor decoding** (`VendorForecast`). The vendor's `"ts~value:ts~value…"`
  strings are split into per-facility maps of readings, divided by 1000 to MW.
  Facility ids map onto forecast columns, and the raw frame is built over the
  sorted set of all timestamps. The IDA-1 download (FES_IDA1_Compiler.py,
  73-143) is a copy of the same block, so one model serves both.
- **Forecast normalisation** (`ForecastTable`). `process_forecast_data`
  resamples onto half hours with a backward as-of join and repeats the
  24 hourly self-forecast values twice. It truncates, or pads with the last
  value, to the frame's length and fills missing columns with 0. Naïve
  Nonwind is 0.7 MW. The 48 trading-day timestamps are then laid over the
  frame and every value is rounded to one decimal.
- **The trading day** (`TradingDay`). 48 half hours, from 23:00 on the day
  before to 22:30 on the trading date.
- **The self-forecast lookup** (`SelfForecastLookup`). The folders from the
  trading date back up to 14 days are tried newest first. In the first folder
  that yields a workbook, the one named for that day wins, otherwise the
  greatest name matching the template.
- **The Murley generation unit compiler** (`GenerationUnit`). The quantity is
  the negated MUR forecast. The compiler writes the ETS line, the DAM auction
  row and the traders' table total.
- **The supply unit compiler** (`SupplyUnit`). The trading quantity is the
  net demand, made of:
  - QH demand;
  - 0.5 MW unmetered;
  - eleven negated generation columns;
  - 23 zero sites.

  The sign decides where the quantity goes in the ETS and DAM files. The
  totals row and the "Net Demand" row close the traders' table.
- **Routing** (`Routing`). This covers:
  - the lag label;
  - the generation forecast file names;
  - the warehouse table a forecast upload goes to;
  - the bid tables of the two compilers;
  - the column rename map.
- **The IDA-1 adjustment** (`Ida1`). A class with the compiler's three
  frames as fields. The adjustment is the D-1 total minus the IDA-1 total,
  per row, over the generation columns present, followed by the IDA-1 bid
  sheet.

Quantities in MW are Dafny `real`. pandas' `.round(1)` is `Numeric.Round1`:
round half to even at one decimal, exact on reals. Times are minutes from
midnight of the trading date. Files the compilers read back are `Sheets.Sheet`
values: a header set and rows of cells, where a missing cell is NaN and a
NaN is read as 0. The merges on time are a faithful left join (`Sheets.LeftJoin`),
so duplicate times multiply rows exactly as pandas does.

Where a code comment and the code disagree, the model follows the code:
- The GU ETS columns 1 and 2 hold a literal 0, although the comment says they
  are empty (FES_MasterScript_PRODUCTION.py:547-548).
- An SU sell puts the quantity in ETS columns 1 and 4 and leaves 2 and 3
  empty (FES_MasterScript_PRODUCTION.py:940-947).
- The IDA-1 adjustment is D-1 minus IDA-1 (FES_IDA1_Compiler.py:266), while
  the module docstring says IDA-1 minus D-1 (FES_IDA1_Compiler.py:7).

The code's own ordering is kept in each case.

## Model

| member | source | states |
|---|---|---|
| Numeric.Round1 | FES_MasterScript_PRODUCTION.py:440 | `.round(1)` gives a value with one decimal, within 0.05 of its input |
| Numeric.Round1OfTenths | FES_MasterScript_PRODUCTION.py:440 | rounding a value that already has one decimal leaves it unchanged |
| Numeric.Round1Neg | FES_MasterScript_PRODUCTION.py:526 | rounding the negated forecast is negating the rounded forecast (ties to even are symmetric) |
| Numeric.Round1AboveZero | FES_MasterScript_PRODUCTION.py:526 | a rounded value is positive exactly when the value exceeds 0.05 |
| Numeric.SumOfTenths | FES_MasterScript_PRODUCTION.py:910 | a sum of one-decimal values has one decimal |
| Numeric.RoundedSumOfTenths | FES_MasterScript_PRODUCTION.py:910 | rounding a sum of one-decimal columns changes nothing |
| Numeric.SumAppend | FES_MasterScript_PRODUCTION.py:910 | the row sum over demand then generation columns is the sum of the two parts |
| Text.JoinSplit | FES_MasterScript_PRODUCTION.py:373 | `str.split(':')` loses nothing: joining the pieces gives back the string |
| Text.SplitJoin | FES_MasterScript_PRODUCTION.py:373 | splitting fields joined by a separator they do not contain gives the fields back |
| Text.ContainsWitness | FES_MasterScript_PRODUCTION.py:47 | a substring test that succeeds has an occurrence at some position |
| Text.ContainsOnlyAt | FES_MasterScript_PRODUCTION.py:47 | when the pattern's first letter occurs only at p, the substring test is the comparison at p |
| Text.ParseIntShowInt | FES_MasterScript_PRODUCTION.py:379 | `int()` reads back the decimal text of any integer |
| Text.ParseDecimalShowInt | FES_MasterScript_PRODUCTION.py:380 | `float()` reads back the decimal text of any integer as that number |
| Text.ParseUnsignedShowNat | FES_MasterScript_PRODUCTION.py:380 | `float()` reads back the digits of any natural number |
| TradingDay.Grid | FES_MasterScript_PRODUCTION.py:510-512 | 48 periods, from 23:00 on the day before (-60) to 22:30, 30 minutes apart, strictly increasing |
| TradingDay.BuildTimestamps | FES_MasterScript_PRODUCTION.py:417-426 | the appended timestamp list is exactly the 48-period grid |
| TradingDay.HourMinute | FES_MasterScript_PRODUCTION.py:528 | `%H:%M` is five characters whose hour and minute read back as the time's minute of the day |
| TradingDay.HourMinuteSecond | FES_MasterScript_PRODUCTION.py:941 | `%H:%M:%S` is the `%H:%M` text followed by ":00" |
| Columns.FacilityMappingIsOneToOne | FES_MasterScript_PRODUCTION.py:393-404 | the ten facility ids fill ten different columns, which are exactly the vendor columns of the frame |
| Columns.EverySourceInOutputOrder | FES_MasterScript_PRODUCTION.py:289-303 | the output column order lists every forecast column |
| VendorForecast.FieldWithoutSeparatorSkipped | FES_MasterScript_PRODUCTION.py:377-378 | a field with no `~` is skipped, not an error |
| VendorForecast.ParseEncodedField | FES_MasterScript_PRODUCTION.py:377-383 | a field "ts~kW" reads as the reading at ts of kW/1000 MW |
| VendorForecast.DecodeEncodedData | FES_MasterScript_PRODUCTION.py:373-383 | decoding the vendor string of any list of (ts, kW) pairs gives back those readings in order (leading-`:` skip included) |
| VendorForecast.StoreFields | FES_MasterScript_PRODUCTION.py:376-383 | the field loop stops at the first bad number with its error; otherwise it adds every timestamp read and stores each reading, later timestamps overwriting earlier ones |
| VendorForecast.DecodeEntry | FES_MasterScript_PRODUCTION.py:373-383 | one facility's string: split on `:`, the leading empty field skipped, the field loop's outcome |
| VendorForecast.DecodeResponse | FES_MasterScript_PRODUCTION.py:366-383 | the nested loops compute the decoding of the whole response, the first bad number aborting it |
| VendorForecast.StoreLastWins | FES_MasterScript_PRODUCTION.py:383 | a facility's map holds every timestamp read, each with the value of its last reading |
| VendorForecast.AssembledTimestamps | FES_MasterScript_PRODUCTION.py:382 | the set of all timestamps is exactly the timestamps read from any facility |
| VendorForecast.AssembledFacilities | FES_MasterScript_PRODUCTION.py:369-371 | every facility id of the response has a map; a repeated id keeps only the readings of its last entry |
| VendorForecast.AssembledFacilityIds | FES_MasterScript_PRODUCTION.py:369-383 | the facilities with a map are exactly the ids of the response |
| VendorForecast.AssembledLastWins | FES_MasterScript_PRODUCTION.py:369-383 | the map of an id is the store of its last entry |
| VendorForecast.FacilityStampsRecorded | FES_MasterScript_PRODUCTION.py:382-383 | every timestamp of a facility's map is in the set of all timestamps |
| VendorForecast.SortTimestamps | FES_MasterScript_PRODUCTION.py:386 | `sorted(all_timestamps)` is the strictly increasing listing of the set |
| VendorForecast.SortedSet | FES_MasterScript_PRODUCTION.py:386 | the sorted listing of a set of timestamps is strictly increasing and holds exactly its members |
| VendorForecast.AscendingListingUnique | FES_MasterScript_PRODUCTION.py:386 | a set has only one strictly increasing listing |
| VendorForecast.BuildRawFrame | FES_MasterScript_PRODUCTION.py:385-408 | the frame built column by column is the raw frame of the decoded response |
| VendorForecast.RawFrameShape | FES_MasterScript_PRODUCTION.py:385-391 | the raw frame has one row per distinct timestamp in increasing order and exactly the ten vendor columns |
| VendorForecast.RawFrameColumns | FES_MasterScript_PRODUCTION.py:385-408 | a frame on the sorted timestamps whose mapped columns are the facilities' readings is the raw frame |
| VendorForecast.MappedReadingsInFrame | FES_MasterScript_PRODUCTION.py:406-408 | a mapped facility's column holds each of its readings at that reading's row and 0 at every other row |
| ForecastTable.LocalMinuteOfSecond | FES_MasterScript_PRODUCTION.py:410-412 | the +1 hour shift and `%H:%M` formatting put every second of a minute on that minute, one hour later |
| ForecastTable.LocalMinuteMonotone | FES_MasterScript_PRODUCTION.py:410-412 | the shift to local minutes keeps the order of timestamps |
| ForecastTable.MinutesAscending | FES_MasterScript_PRODUCTION.py:386-412 | the minutes of the sorted timestamps ascend (distinct seconds can share a minute) |
| ForecastTable.HalfHourRangeMembers | FES_MasterScript_PRODUCTION.py:266 | `date_range(min, max, 30min)` holds exactly the half-hour steps from min up to max, increasing |
| ForecastTable.HalfHourRangeEnd | FES_MasterScript_PRODUCTION.py:266 | the range starts at min and ends within 30 minutes below max |
| ForecastTable.ResampleOnGrid | FES_MasterScript_PRODUCTION.py:268-275 | the backward as-of join of a frame already on the half hours returns its column unchanged |
| ForecastTable.AsofIndex | FES_MasterScript_PRODUCTION.py:268-275 | the backward as-of match of a slot is the last raw row at or before it |
| ForecastTable.ResampleColumn | FES_MasterScript_PRODUCTION.py:268-275 | an all-NaN column stays all NaN and a column of values gets one value per half hour |
| ForecastTable.ResampledCells | FES_MasterScript_PRODUCTION.py:268-275 | each resampled cell is the cell of the last raw row at or before the slot; an all-NaN column stays all NaN |
| ForecastTable.RepeatEach2 | FES_MasterScript_PRODUCTION.py:277 | `np.repeat(h, 2)` is twice as long and holds h[k/2] at position k |
| ForecastTable.FitLength | FES_MasterScript_PRODUCTION.py:279-283 | the self-forecast is cut or padded to exactly n values, the padding being the last value; padding an empty forecast fails |
| ForecastTable.DayOfHoursFitsTradingDay | FES_MasterScript_PRODUCTION.py:276-285 | 24 hourly values fit a 48-row frame as is, each hour filling two consecutive half hours |
| ForecastTable.ProcessForecastFailures | FES_MasterScript_PRODUCTION.py:249-285 | processing fails exactly when the self-forecast workbook is missing, there are no vendor rows, or the self-forecast is empty |
| ForecastTable.ProcessForecastOk | FES_MasterScript_PRODUCTION.py:249-308 | with vendor rows and a non-empty self-forecast, processing succeeds and gives the processed frame of the resampled times and fitted self-forecast |
| ForecastTable.ProcessForecast | FES_MasterScript_PRODUCTION.py:249-308 | processing fails exactly when the self-forecast lookup failed, there are no vendor rows or the self-forecast is empty, and otherwise lies on the resampled half-hour times |
| ForecastTable.ProcessedFrame | FES_MasterScript_PRODUCTION.py:263-308 | the processed frame lies on the half-hour range, is well formed and has every output column |
| ForecastTable.ProcessedConstantAndSelfForecast | FES_MasterScript_PRODUCTION.py:277-286 | Naïve Nonwind is 0.7 in every row; the self-forecast column is each hour twice, then the last hour repeated |
| ForecastTable.ProcessedVendorColumn | FES_MasterScript_PRODUCTION.py:304-306 | a vendor column is its resampled raw column, or all 0 when the raw frame lacks it |
| ForecastTable.ProcessedColumn | FES_MasterScript_PRODUCTION.py:285-306 | every output column is present and is the output column of its source |
| ForecastTable.RoundColumn | FES_MasterScript_PRODUCTION.py:440 | every value of a column is rounded to one decimal, an all-NaN column staying all NaN |
| ForecastTable.RoundColumnOfTenths | FES_MasterScript_PRODUCTION.py:440 | rounding a column of one-decimal values leaves it unchanged |
| ForecastTable.OnTradingDay | FES_MasterScript_PRODUCTION.py:428-440 | laying the 48 timestamps on the frame fails unless it has 48 rows, and otherwise gives the grid times and rounds every column to one decimal (RoundColumn of the processed column) |
| ForecastTable.TradingDayRowCount | FES_MasterScript_PRODUCTION.py:263-266 | the processed frame has 48 rows exactly when the vendor times span 23.5 to 24 hours |
| ForecastTable.GrabForecast | FES_MasterScript_PRODUCTION.py:366-440 | the download's data steps compute the saved forecast table |
| ForecastTable.SavedForecastShape | FES_MasterScript_PRODUCTION.py:414-440 | a saved forecast lies on the 48-period grid, has every column, holds one-decimal values only and Naïve Nonwind 0.7 |
| ForecastTable.SavedForecastColumn | FES_MasterScript_PRODUCTION.py:366-440 | a saved column is the processed column of its source (resampled vendor reading, repeated self-forecast, 0.7 or 0) rounded to one decimal, so a vendor reading reaches the saved file and the compilers |
| ForecastTable.ForecastFailures | FES_MasterScript_PRODUCTION.py:366-440 | the saved forecast fails on a bad vendor number, a missing or empty self-forecast, no vendor rows, or a range other than 48 half hours, and only then |
| SelfForecastLookup.ExpectedNameMatches | FES_MasterScript_PRODUCTION.py:238-243 | the workbook named for the day also matches the template glob |
| SelfForecastLookup.Greatest | FES_MasterScript_PRODUCTION.py:243-245 | `sorted(matches)[-1]` is a match and no match sorts after it |
| SelfForecastLookup.Matches | FES_MasterScript_PRODUCTION.py:243 | the glob keeps exactly the folder's names that match the template |
| SelfForecastLookup.FindLatestSelfForecast | FES_MasterScript_PRODUCTION.py:223-247 | the loop with its early returns computes the lookup's result |
| SelfForecastLookup.NotFoundIffNoCandidate | FES_MasterScript_PRODUCTION.py:227-247 | the lookup raises "not found" exactly when no day from the date back 14 days has a folder with a matching workbook |
| SelfForecastLookup.FoundIsNewestCandidate | FES_MasterScript_PRODUCTION.py:227-245 | a workbook found is a matching workbook of the newest day in the window that has one |
| SelfForecastLookup.FoundPrefersExpectedName | FES_MasterScript_PRODUCTION.py:238-245 | in that folder the day's own workbook wins, otherwise the greatest matching name |
| Sheets.LeftJoinDistinct | FES_MasterScript_PRODUCTION.py:522 | with one right row per time, the left join keeps the left rows one for one, each taking its time's right cells |
| Sheets.DuplicateTimeAddsRow | FES_MasterScript_PRODUCTION.py:522 | two right rows with one left row's time make the join longer than the left side |
| Sheets.MatchingMembers | FES_MasterScript_PRODUCTION.py:522 | the rows a left row joins with are exactly the right rows with its time |
| Sheets.MatchingDistinct | FES_MasterScript_PRODUCTION.py:522 | with one right row per time, a time joins with at most one row, the one that has it |
| Sheets.JoinLength | FES_MasterScript_PRODUCTION.py:522 | a left row contributes at least as many joined rows as right rows share its time |
| Sheets.PeriodRows | FES_MasterScript_PRODUCTION.py:509-514 | the frame of the 48 trading-day times, one empty row per period in grid order |
| Sheets.ForecastSheetRows | FES_MasterScript_PRODUCTION.py:496-503 | the saved forecast read back has one row per period at its time, each cell the saved value, 0 where the saved column is NaN |
| GenerationUnit.GuRow | FES_MasterScript_PRODUCTION.py:526 | the GU quantity has one decimal and is within 0.05 of minus the MUR forecast |
| GenerationUnit.Aggregate | FES_MasterScript_PRODUCTION.py:505-530 | the traders' table fails exactly when the MUR column is missing, and otherwise has at least 48 one-decimal rows |
| GenerationUnit.CreateAggregation | FES_MasterScript_PRODUCTION.py:480-530 | a missing generation workbook raises with the lag-named file name of the forecast download; otherwise the table of the sheet read, failing only on a missing MUR column |
| GenerationUnit.AggregateOnGrid | FES_MasterScript_PRODUCTION.py:509-526 | with one row per time the table is the 48 periods, each the rounded negated MUR value of its time, 0 where missing |
| GenerationUnit.AggregateOfSavedForecast | FES_MasterScript_PRODUCTION.py:505-526 | on a saved forecast each period's quantity is exactly minus its MUR value (0 for an all-NaN column) |
| GenerationUnit.BidsNegatedTenths | FES_MasterScript_PRODUCTION.py:522-526 | a period whose MUR value has one decimal gets exactly minus that value as its quantity |
| GenerationUnit.GenerateEtsBids | FES_MasterScript_PRODUCTION.py:541-551 | one ETS line per row, numbered from 1: the clock, 0, 0, then the quantity twice |
| GenerationUnit.GuEtsRow | FES_MasterScript_PRODUCTION.py:541-551 | the ETS line of a period: number k+1, the `%H:%M` clock, a literal 0 under the first two prices and the quantity under the last two |
| GenerationUnit.GenerateDamBids | FES_MasterScript_PRODUCTION.py:559-575 | one DAM row per table row, numbered from 1 |
| GenerationUnit.GuDamRow | FES_MasterScript_PRODUCTION.py:559-575 | the DAM row of a period: number k+1, SELL iff the quantity is negative, the GU ladder and abs(qty) on the two upper prices only |
| GenerationUnit.GuDamRowEncodesQuantity | FES_MasterScript_PRODUCTION.py:561-575 | prices -1500, -41.7, -41.7, 9000; SELL iff the quantity is negative; quantities 0, 0, abs(qty), abs(qty), so the row carries the signed quantity |
| GenerationUnit.GuEtsAgreesWithDam | FES_MasterScript_PRODUCTION.py:541-575 | the ETS line and the DAM row of a period have the same number and the same signed quantity |
| GenerationUnit.SellsExactlyAboveHalfTenth | FES_MasterScript_PRODUCTION.py:526-561 | the unit sells exactly when MUR exceeds 0.05 MW |
| GenerationUnit.GuTotalHasOneDecimal | FES_MasterScript_PRODUCTION.py:636-642 | the traders' table total has one decimal |
| SupplyUnit.QhRow | FES_MasterScript_PRODUCTION.py:841 | QH MW is the rounded Demand × 2 / 1000 |
| SupplyUnit.FirstMissing | FES_MasterScript_PRODUCTION.py:871-876 | names a selected generation column that the sheet lacks, and none only when all are present |
| SupplyUnit.AdjustedGeneration | FES_MasterScript_PRODUCTION.py:886-898 | each generation column is the rounded negated source value of its row |
| SupplyUnit.SuRow | FES_MasterScript_PRODUCTION.py:882-911 | a traders' row at its joined row's time with the 3 demand and 34 generation columns; its quantity is the net demand (SupplyUnit.TradingQtyIsNetDemand) |
| SupplyUnit.Aggregate | FES_MasterScript_PRODUCTION.py:851-922 | the table fails exactly when Demand or a selected generation column is missing, and otherwise has at least 48 rows |
| SupplyUnit.CreateAggregation | FES_MasterScript_PRODUCTION.py:801-922 | a missing QH demand CSV raises first with its name, then a missing generation workbook with the lag-named file name; the file errors are exactly these two cases, and otherwise the table of the two sheets read |
| SupplyUnit.JoinedPeriod | FES_MasterScript_PRODUCTION.py:862-879 | with one row per time in each sheet, period k of the double join has its time's QH MW and generation values, 0 where missing |
| SupplyUnit.QhRowsDistinct | FES_MasterScript_PRODUCTION.py:841-866 | QH rows keep one row per time, and the QH value at a time is that of its row, 0 when there is none |
| SupplyUnit.AggregateRowAt | FES_MasterScript_PRODUCTION.py:851-911 | period k of a table is the SU row of the joined period at grid time k |
| SupplyUnit.AggregateOnGrid | FES_MasterScript_PRODUCTION.py:855-884 | the table is the 48 periods, each with rounded QH MW, 0 NQH and 0.5 MW unmetered |
| SupplyUnit.AggregateGenerationOnGrid | FES_MasterScript_PRODUCTION.py:886-902 | generation column i of period k is the rounded negated source value of its time, and 0 for sites S3 to S25 |
| SupplyUnit.TradingQtyIsNetDemand | FES_MasterScript_PRODUCTION.py:904-911 | the trading quantity is the plain sum of the 37 columns, that is QH + 0.5 minus the rounded generation |
| SupplyUnit.ComponentsHaveOneDecimal | FES_MasterScript_PRODUCTION.py:882-902 | every one of the 37 summed columns has one decimal |
| SupplyUnit.ComponentsSum | FES_MasterScript_PRODUCTION.py:904-910 | the 37 columns add up to QH plus 0.5 minus the rounded generation |
| SupplyUnit.GenerateEtsBids | FES_MasterScript_PRODUCTION.py:934-958 | one ETS line per row, numbered from 1 |
| SupplyUnit.SuEtsRow | FES_MasterScript_PRODUCTION.py:934-958 | the ETS line of a period: number k+1, the `%H:%M:%S` clock, the quantity first; a sell leaves the middle two empty and repeats it last, a buy repeats it second and puts 0 in the last two |
| SupplyUnit.GenerateDamBids | FES_MasterScript_PRODUCTION.py:966-1000 | one DAM row per row, numbered from 1 |
| SupplyUnit.SuDamRow | FES_MasterScript_PRODUCTION.py:966-1000 | the DAM row of a period: number k+1, SELL iff negative, the SU ladder, abs(qty) on the upper pair for a sell and on the lower pair for a buy |
| SupplyUnit.SuDamRowEncodesQuantity | FES_MasterScript_PRODUCTION.py:966-1000 | prices -500, 500, 500, 4000; SELL iff negative; quantities never negative; a sell fills only the upper pair and a buy only the lower pair, so the row carries the signed quantity |
| SupplyUnit.SuEtsAgreesWithDam | FES_MasterScript_PRODUCTION.py:934-1000 | ETS column 1 always holds the DAM row's signed quantity, column 4 too on a sell and column 2 on a buy |
| SupplyUnit.AggregateIsBalanced | FES_MasterScript_PRODUCTION.py:1060-1066 | the Net Demand row's Trading Qty equals the sum of all column totals of the table |
| SupplyUnit.NetDemandIsSumOfTotals | FES_MasterScript_PRODUCTION.py:1060-1066 | for rows whose quantity is the sum of their columns, the total quantity is the sum of the column totals |
| Routing.LagLabelDMinus1 | FES_MasterScript_PRODUCTION.py:329 | the lag label is "D-1" exactly when the trading date is one day ahead |
| Routing.LagLabelParses | FES_MasterScript_PRODUCTION.py:329 | `f"D-{days_ahead}"` is "D-" followed by text that `int()` reads back as the days ahead |
| Routing.ForecastNameLetters | FES_MasterScript_PRODUCTION.py:450 | the forecast file name has one letter D, followed by "-" and the first character of the days ahead |
| Routing.GenerationTableAsWritten | FES_MasterScript_PRODUCTION.py:47-50 | the forecast upload goes to the D-1 table exactly when the file name contains "D-1" |
| Routing.AsWrittenRoutesLeadingOne | FES_MasterScript_PRODUCTION.py:47-50 | as written, a forecast file goes to the D-1 table exactly when its lag's digits start with 1 |
| Routing.AsWrittenMisroutesDMinus10 | FES_MasterScript_PRODUCTION.py:47-50 | the D-10 forecast of 18.01.2026 goes to the D-1 table although its lag is not D-1 |
| Routing.GenerationTable | FES_MasterScript_PRODUCTION.py:47-50 | corrected routing: the D-1 table takes exactly the names ending " D-1.xlsx" |
| Routing.RoutesExactLag | FES_MasterScript_PRODUCTION.py:450 | under the corrected routing a saved forecast goes to the D-1 table exactly when it is one day ahead |
| Routing.Ida1NameHasNoDMinus1 | FES_IDA1_Compiler.py:153 | the IDA-1 file name does not contain "D-1" |
| Routing.Ida1RoutesToDMinusX | FES_IDA1_Compiler.py:159-164 | the IDA-1 forecast upload goes to the D-X table, as written and as corrected |
| Routing.BidTableFollowsLag | FES_MasterScript_PRODUCTION.py:696-702 | for the GU here and the SU at FES_MasterScript_PRODUCTION.py:1157-1163 alike, a production run's bids go to the unit's D-1 table exactly when its forecast would under the corrected routing (`Routing.GenerationTable`), and a test run uses the unit's test table |
| Routing.BidTable | FES_MasterScript_PRODUCTION.py:696-702 | in production a unit's bids go to its D-1 table exactly when the lag is "D-1"; a test run uses a "test_" table, never the D-1 one (same choice at 1157-1163 for the SU) |
| Routing.AsWrittenSplitsDMinus10Run | FES_MasterScript_PRODUCTION.py:696-702 | as written, a D-10 run puts its forecast in the D-1 table and its bids in the D-X table |
| Routing.BuildColumnMap | FES_MasterScript_PRODUCTION.py:59-79 | the loop extends the fixed map with one entry per site S3 to S25 |
| Routing.BaseColumnMap | FES_MasterScript_PRODUCTION.py:59-73 | the fixed map has 13 entries |
| Routing.WarehouseNameIsSqlName | FES_MasterScript_PRODUCTION.py:59-79 | a forecast column's warehouse name is its name with " (MW)" turned into " _MW_" |
| Routing.ColumnMapRenamesToSqlNames | FES_MasterScript_PRODUCTION.py:59-82 | the map has 36 entries: DateTime, the 12 columns in output order and S3 to S25, each renamed with " (MW)" turned into " _MW_" |
| Ida1.SolarFieldsIn | FES_IDA1_Compiler.py:252-256 | a solar column S1 to S25 is added exactly when the D-1 frame has it |
| Ida1.Present | FES_IDA1_Compiler.py:259-260 | the columns summed for a frame are exactly the listed ones it has |
| Ida1.CellsOf | FES_IDA1_Compiler.py:262-263 | the cells summed for a row are its value in each counted column, NaN read as 0 |
| Ida1.Totals | FES_IDA1_Compiler.py:262-263 | one total per row of the frame |
| Ida1.CountedColumns | FES_IDA1_Compiler.py:247-260 | a column counts for a frame exactly when the frame has it and it is a base column or a solar column of the D-1 frame |
| Ida1.AdjustmentTable | FES_IDA1_Compiler.py:269-274 | the table has as many rows as the longer frame (pandas aligns on the index) |
| Ida1.FilledAdjustments | FES_IDA1_Compiler.py:302-306 | the adjustments summed for the total line, a missing adjustment counted as 0 |
| Ida1.Ida1BidCompiler.constructor | FES_IDA1_Compiler.py:21-26 | a new compiler has no D-1 forecast, no IDA-1 forecast and no adjustment |
| Ida1.Ida1BidCompiler.SetIda1Forecast | FES_IDA1_Compiler.py:529 | the downloaded IDA-1 forecast is stored and nothing else changes |
| Ida1.Ida1BidCompiler.CalculateAdjustment | FES_IDA1_Compiler.py:238-282 | the column loop and totals store and return the adjustment table of the two loaded frames, which stay as they were |
| Ida1.Ida1BidCompiler.GenerateIda1Bids | FES_IDA1_Compiler.py:284-311 | one line per adjustment row numbered from 1 with the adjustment at both prices, then a line with no period and the rounded sum at both prices |
| Ida1.Ida1BidCompiler.LoadD1Forecast | FES_IDA1_Compiler.py:181-198 | a missing D-1 workbook of the day raises with its name and leaves the compiler as it was; otherwise its sheet becomes the D-1 frame |
| Ida1.Ida1BidCompiler.RunCompilation | FES_IDA1_Compiler.py:508-558 | the run fails exactly when the D-1 workbook is missing; otherwise it stores the adjustment of the two frames and bids one line per row plus a total |
| Ida1.AdjustmentAt | FES_IDA1_Compiler.py:262-274 | a row both frames have holds the D-1 time, both rounded totals and the rounded difference of the totals |
| Ida1.AdjustmentSign | FES_IDA1_Compiler.py:262-274 | the adjustment is negative (sell) exactly when IDA-1 exceeds D-1 by more than 0.05 MW, and positive (buy back) exactly in the reverse case; rows only one frame has carry NaN |
| Ida1.AdjustmentAntisymmetric | FES_IDA1_Compiler.py:266 | swapping the two forecasts negates the adjustment and swaps the totals |
| Ida1.UnchangedForecastAdjustsNothing | FES_IDA1_Compiler.py:262-274 | identical D-1 and IDA-1 frames give a 0 adjustment in every row and a 0 total |
| Ida1.BidTotalIsExactSum | FES_IDA1_Compiler.py:302-306 | every adjustment has one decimal, so the rounded total line is the exact sum |
| Ida1.AdjustmentIsDifferenceOfTotals | FES_IDA1_Compiler.py:262-273 | on one-decimal forecasts the adjustment is exactly the D-1 total minus the IDA-1 total |
| Ida1.DocumentedExample | FES_IDA1_Compiler.py:241-243 | D-1 total 100 gives -10 against an IDA-1 total of 110 and +10 against 90 |

## Left out

- The vendor SOAP session is a network call and is not modelled. That covers the login, `getForecastMulti`, the logout and the commented-out `large_unit_availability`. The response enters as a list of facility records.
- SQL engines and `to_sql` appends are I/O. The model covers only the choice of table and the rename map, not the column filtering at FES_MasterScript_PRODUCTION.py:87-94.
- Excel and CSV reading and writing are I/O and are not modelled. That includes openpyxl number formats, directory creation and `Path.exists`. Workbooks and CSVs read back enter as sheets, and a file that does not exist enters as `None` (`GenerationUnit.CreateAggregation`, `SupplyUnit.CreateAggregation`, `Ida1.Ida1BidCompiler.LoadD1Forecast`).
- The self-forecast workbook read (`read_excel` of 24 cells) is I/O. Its values enter `ProcessForecast` as a parameter, and a missing workbook enters as the error the lookup raises.
- The charts, `create_ida1_excel_with_charts`, FES_PPT_Generator.py and FES_Bids_Runner_PRODUCTION.py are presentation and orchestration, and are not modelled.
- `upload_ida1_bids_to_sql` is not modelled. It reads a column `'Adjustment (D-1 - IDA-1)'` that the adjustment table does not have, and the `except` around it swallows the failure.
- The deprecated `load_forecasts` of the IDA-1 compiler is not modelled.
- Days ahead depends on `datetime.now()`, so it is an input. The month folder names, `calendar.month_name`, are not modelled: folders are keyed by day number and their `dd.mm.yyyy` label.
- Daylight-saving time is not modelled. `utcfromtimestamp` plus one hour is modelled as a fixed +60 minutes, as the code does.
- The glob's case-insensitivity on Windows is not modelled. Names are compared exactly.
- `float()` is modelled as decimal text with an optional sign and point. Exponents, `inf`, `nan` and surrounding whitespace are not modelled.
- `int()` is modelled as an optional sign and digits. Underscores and surrounding whitespace are not modelled.
- Floating-point arithmetic is modelled as exact arithmetic on reals.
- `SupplyUnit.Aggregate` names only the first missing generation column in its error, where pandas' KeyError lists every missing one.
- `Ida1.Ida1BidCompiler.CalculateAdjustment` requires both frames to be loaded. The source fails with an AttributeError on `None` otherwise, and `RunCompilation` always loads both first.
- `Ida1.Ida1BidCompiler.RunCompilation` states only the first price column of each bid line. `GenerateIda1Bids` states the whole sheet.
- The D-1 workbook's DateTime column is not parsed. The model reads the sheet's rows with their times already in minutes.
- `GenerationUnit.AggregateOnGrid` and `SupplyUnit.AggregateOnGrid` assume one row per time in each file. With repeated times the left join repeats rows: `Sheets.DuplicateTimeAddsRow` proves that the table then grows beyond 48 rows.

## Findings

| source | as written | input that shows it | evidently intended | confidence | as-written member | corrected member |
|---|---|---|---|---|---|---|
| FES_MasterScript_PRODUCTION.py:47-50 | `upload_to_fabric` sends a forecast to `Generation_D_Minus_1` when its file name contains the substring "D-1" | the D-10 forecast "Generation Forecast 18.01.2026 D-10.xlsx" (and D-11 to D-19, D-100…) goes to the D-1 table, while the compilers' exact test `lag == "D-1"` sends the same run's bids to D-X | only the file whose lag is exactly D-1 goes to the D-1 table, as the compilers decide | not executed | Routing.AsWrittenMisroutesDMinus10 | Routing.RoutesExactLag |
