/** Option and Result: the undefined (NaN) entries of a pandas column and the
    exceptions a step can raise are both made explicit as values. */
module Wrappers {

  /** An entry that may be undefined; pandas writes the undefined case as NaN. */
  datatype Option<+T> = None | Some(value: T) {

    /** What `fillna(fill)` leaves in this entry: the entry itself when
        defined, `fill` in place of NaN. */
    function Filled(fill: T): (v: T) {
      if this.Some? then value else fill
    }
  }

  /** Either the step's value or the exception it raises. */
  datatype Result<+T, +E> = Success(value: T) | Failure(error: E)
}

/** The exceptions the modelled code can raise, named after their cause. */
module Errors {

  datatype Error =
    | NegativeWindow        // pandas: "window must be an integer 0 or greater"
    | DistanceBelowOne      // scipy: "`distance` must be greater or equal to 1"
    | PositionOutOfBounds   // pandas: "positional indexers are out-of-bounds"
}
