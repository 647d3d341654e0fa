/** Values shared by every part of the scraper model: optional fields of decoded JSON,
    pandas' NaN sentinel, and the ways a call either returns or raises. */
module Outcomes {

  /** A JSON field that may be missing. */
  datatype Option<T> = None | Some(value: T)

  /** What the scraper stores in a result list: a real value, or `float('nan')` as the
      "absent" marker. */
  datatype OrNaN<T> = Val(value: T) | NaN

  /** The exception kinds the scraper's functions can let escape. */
  datatype PyError =
    | KeyError          // `d['key']` on a missing key
    | AttributeError    // `.get(...)` called on the `None` an earlier `.get` returned
    | NameError         // a variable read before any assignment bound it
    | JsonDecodeError   // `response.json()` on a body that is not JSON
    | MissingSchema     // `requests.get(None)`: no scheme in the URL
    | CsvParseError     // `pd.read_csv` refusing the downloaded text

  /** The result of one call of a scraper function. `NeedsMoreInput` is not a behaviour of
      the program: it says that the finite sequence of responses given to the model ran out
      while the program would have sent another request. */
  datatype Outcome<T> = Returned(value: T) | Raised(error: PyError) | NeedsMoreInput
}
