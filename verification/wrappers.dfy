/** Failure-carrying results shared by every module of the model. */
module Wrappers {

  /** A value that may be absent; the model's stand-in for Python's `None`. */
  datatype Option<+T> = None | Some(value: T)

  /** Why a source operation would have raised instead of returning. */
  datatype Error =
    | TouchError        // an edge does not touch the vertex it is added to
    | DimensionError    // a dimension index outside the block
    | IndexError        // a list index that does not exist
    | LockedError       // a web command on an already-locked node
    | TypeError         // an operation the value's type lacks (`None`, an unhashable key, a missing argument)
    | ValueError        // a right type with a wrong value (an edge not touching its vertex, `max` of nothing, a negative size)
    | DivisionByZero    // an exact division by zero (`ZeroDivisionError`)
    | KeyError          // a dictionary key that does not exist
    | AttributeError    // a method the object does not have (`append` on a dictionary, `add` on a list)
    | UnboundLocal      // a local variable read before any assignment (`UnboundLocalError`)
    | OutOfFuel         // an unbounded source loop cut off by the model's fuel

  /** Either a successful value or the error the source would have raised. */
  datatype Result<+T> = Ok(value: T) | Fail(error: Error)
}
