/** Failure-carrying results. Every exception the date kernel raises (a failed
    assertion, an unknown unit, a date outside the supported years) is modelled
    as an `Err` value rather than as a specific exception type. */
module Outcome {

  datatype Option<+T> = None | Some(value: T)

  /** Why a date computation failed. */
  datatype Error =
    | ParseError(text: string)      // a tenor prefix that is not an integer, an unparsable date string
    | UnknownUnit(unit: string)     // a unit outside M, B, Y, Q, F
    | SentinelStep                  // stepping by an "E" tenor
    | EomNotSupported               // date_step called with preserve_eom set
    | OutOfRange                    // a date outside the years 1..9999
    | RollNotImplemented            // a roll type other than FOLLOWING or PRECEDING
    | MissingReference              // a relative expression without a reference date

  datatype Result<+T> = Ok(value: T) | Err(error: Error)
}
