/** Option and Result: the model's stand-ins for Python's `None` and for
    the exceptions the core raises. */
module Wrappers {

  datatype Option<+T> = None | Some(value: T) {
    function GetOr(default: T): T {
      match this
      case Some(v) => v
      case None => default
    }
  }

  /** An exception the modelled Python code raises (or a loop that never ends),
      kept as a value so that callers can state when it happens. */
  datatype Error =
    | StrategyMissing           // `None['type']`: neither the strategy nor the default is configured
    | TypeKeyMissing            // `config['type']` raises KeyError
    | UnsupportedType(kind: string)  // `ValueError("Tipo de chunking não suportado")`
    | EmptySeparator            // `text.split('')` raises ValueError
    | ZeroRangeStep             // `range(0, n, 0)` raises ValueError
    | Diverges                  // the source's `while` loop never exits
    | ZeroDivision              // `ZeroDivisionError`
    | Raised(message: string)   // an exception raised by a collaborator outside the model

  datatype Result<+T> = Ok(value: T) | Err(error: Error)
}
