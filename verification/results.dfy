/** Failure-compatible results for the optimizer layer.

    Every exception the modelled Python code can raise becomes an `Error`
    value, so that operations return `Result`s instead of demanding
    preconditions their Python callers never promised.
 */
module Results {

  datatype Option<+T> = None | Some(value: T) {

    function GetOr(default: T): T {
      match this
      case Some(v) => v
      case None => default
    }
  }

  /** The failures of the optimizer layer, one per Python exception site. */
  datatype Error =
    | StructureMismatch      // a tree does not match the params' treedef (jax flatten_up_to)
    | NotADict               // ModelParamTraversal given something other than a nested dict
    | NotIterable            // zip or list comprehension over a value that is not a list
    | NotARecord             // `replace` called on a list of hyperparameters
    | UnknownField           // `replace` given a field name the record does not have
    | NotAnOptimizerState    // `state.step` read from a list of sub-states
    | NotEnoughValues        // Traversal.set ran out of replacement values
    | TooManyValues          // Traversal.set left replacement values unused
    | NoPairs                // MultiOptimizer() called without any (traversal, optimizer) pair
    | NotReplicated          // Optimizer.unreplicate on an optimizer that is not replicated

  datatype Result<+T> = Ok(value: T) | Err(error: Error) {

    predicate IsFailure() {
      Err?
    }

    function PropagateFailure<U>(): Result<U>
      requires Err?
    {
      Err(error)
    }

    function Extract(): T
      requires Ok?
    {
      value
    }
  }
}
