/** Option and Result, and the exceptions the generator raises.

    Every exception in generate_ops.py aborts the run; here each one is a
    value of `Error`, carried by the `Err` case of `Result`. */
module Wrappers {

  datatype Option<+T> = None | Some(value: T) {
    function GetOr(default: T): T {
      match this
      case Some(v) => v
      case None => default
    }
  }

  /** The exceptions raised by the generator. */
  datatype Error =
    | InvalidFormat(def: string)          // ValueError "invalid format: <repr of def>"
    | IndexOutOfRange                     // IndexError on a token list, string or list
    | MissingKey(key: string)             // KeyError on the op record
    | TensorListNotLast                   // ValueError "[Tensor] must be the last argument"
    | NoSuchType(stype: string)           // ValueError "Problem: no such type: <stype>"
    | UnknownAbiType(stype: string)       // ValueError "problem unknown type: <stype>"
    | UnsupportedArity(cName: string, n: nat)  // ValueError "<c_name> has unsupported number of return values <n>"
    | NotSorted                           // ValueError "op list is not sorted"

  datatype Result<+T> = Ok(value: T) | Err(error: Error) {
    predicate IsFailure() {
      Err?
    }

    function PropagateFailure<U>(): Result<U>
      requires Err?
    {
      Err(error)
    }

    function Extract(): T
      requires Ok?
    {
      value
    }
  }
}
