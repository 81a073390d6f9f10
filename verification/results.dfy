/**
 * Optional values, and results that are either a value or one of the
 * faults the matcher raises.
 */
module Results {

  datatype Option<+T> = None | Some(value: T)

  /** The exceptions the matcher and the template compiler can raise. */
  datatype Fault =
    | UnknownPath     // get_sub_template cannot follow a step ("Unknown path")
    | EmptyListHead   // a candidate starts at an empty list and its head is taken
    | NotCallable     // a template leaf that is none of the handled kinds is called
    | MissingClass    // a template argument has no node class as its default
    | NotIterable     // the compiler puts a predicate where a list element must be a node

  datatype Result<+T> = Ok(value: T) | Err(fault: Fault) {
    predicate IsFailure() { Err? }

    function PropagateFailure<U>(): Result<U>
      requires Err?
    {
      Err(fault)
    }

    function Extract(): T
      requires Ok?
    {
      value
    }
  }

  /** The outcome of a step that yields nothing but may fail. */
  datatype Outcome = Pass | Fail(fault: Fault)
}
