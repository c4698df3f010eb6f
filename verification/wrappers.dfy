/** Failure-compatible result types shared by every module of the model.
    The source signals failure by throwing (or rejecting) an `Error` whose
    message is a fixed literal; `Err` carries that message, or, where a
    rejection reaches the console, the text it prints as. */
module Wrappers {

  /** How a thrown `Error` prints when it is concatenated to a string: its
      name, then its message. */
  function ErrorText(message: string): (r: string)
    ensures |r| == |message| + 7 && r[7..] == message
  {
    "Error: " + message
  }

  datatype Option<+T> = None | Some(value: T) {
    predicate IsFailure() {
      None?
    }

    function PropagateFailure<U>(): Option<U>
      requires None?
    {
      None
    }

    function Extract(): T
      requires Some?
    {
      value
    }
  }

  datatype Result<+T> = Ok(value: T) | Err(error: string) {
    predicate IsFailure() {
      Err?
    }

    function PropagateFailure<U>(): Result<U>
      requires Err?
    {
      Err(error)
    }

    function Extract(): T
      requires Ok?
    {
      value
    }
  }
}
