/** Optional values, results and the ways a bid-compilation step can fail. */
module Outcomes {

  datatype Option<+T> = None | Some(value: T)

  /** The failures the forecast and bid code raises; each aborts the step it occurs in. */
  datatype Failure =
    | BadNumber(text: string)       // int() or float() rejected a field of the vendor string (ValueError)
    | NoVendorReadings              // no timestamp at all, so the half-hour range has no bounds
    | EmptySelfForecast             // padding needs the last hourly value and there is none (IndexError)
    | RowCountMismatch(rows: nat)   // the 48 trading-day timestamps do not fit the frame's row count
    | SelfForecastNotFound          // the lookback window holds no self-forecast file (FileNotFoundError)
    | MissingColumn(name: string)   // a column the code selects is not in the file (KeyError)
    | MissingFile(name: string)     // a file the step reads is absent (FileNotFoundError)

  datatype Result<+T> = Ok(value: T) | Err(error: Failure)
}
