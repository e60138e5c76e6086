// Option and Result wrappers, plus the Python exceptions the engine can raise.
module Wrappers {

  datatype Option<T> = None | Some(value: T)

  datatype Result<T> = Ok(value: T) | Err(error: PyError)

  /** The exception classes raised by the blackboard and the child-list operations. */
  datatype PyError =
    | KeyError         // dict or NodeData lookup of a missing key
    | AttributeError   // NodeData item access with a key starting with '_'
    | IndexError       // NodeData item access with the empty key
    | RuntimeError     // duplicate remapping target, duplicate child name, recursion too deep
    | ValueError       // removing a child that is not in the list
}
