/** Failure-compatible wrappers shared by every stage of the ingestion pipeline. */
module Common {

  datatype Option<+T> = None | Some(value: T)

  /** The Python exceptions the ingestion code can raise. */
  datatype Error =
    | IndexError                     // `lines[header_line]` on an empty list of lines
    | KeyError(key: string)          // a dict or DataFrame lookup of an absent key
    | KeyErrorList(keys: seq<string>) // `dropna(subset=…)`: the absent labels, as a list
    | TypeError                      // `pd.to_numeric` handed a DataFrame (duplicate labels)
    | ParserError                    // the CSV parser rejected the rebuilt text
    | EmptyDataError                 // the CSV parser found no columns to parse

  datatype Result<+T> = Ok(value: T) | Err(error: Error)
}
