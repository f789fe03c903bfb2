/** Option and Result types shared by the whole model, and the kinds of
    exception the Python code can raise on the paths that are modelled. */
module Wrappers {

  datatype Option<T> = None | Some(value: T)

  /** The exceptions of the modelled code, one constructor per cause. */
  datatype Error =
    | MalformedTime       // ValueError: not a marker and not an ISO 8601 timestamp strptime accepts
    | TooManyParts        // ValueError: a two-way unpacking of a split that gave three or more parts
    | BadInteger          // ValueError: int() of a token that is not a decimal integer
    | UnknownWeekday      // KeyError: a weekday label outside mo, tu, we, th, fr, sa, so
    | IndexOutOfRange     // IndexError: list or tuple index outside the list
    | UnknownLabel        // KeyError: no capability with that label
    | UnresolvedMarker    // TypeError: arithmetic or comparison involving past/now/future or None
    | MissingStart        // AttributeError: printing a scope whose start is None
    | TupleOperand        // TypeError: a datetime minus the (start, end) tuple of _datetimes
    | MissingWhen         // AttributeError: the instants of a schedule that has no scope
    | UnknownMessage      // ValueError: a message kind the client does not handle
    | ExtraArgument       // TypeError: a call with more positional arguments than the def takes

  datatype Result<T> = Ok(value: T) | Err(error: Error)
}
