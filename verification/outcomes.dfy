/** Error kinds reported by the vector and matrix containers, and the result
    type their fallible operations return in place of a thrown exception. */
module Outcomes {

  /** What an operation raises. The sized constructors raise `out_of_range`
      (split here by cause); binary operations and the checked accessor throw
      a string literal. */
  datatype Error =
    | InvalidSize        // requested size or order is zero
    | SizeTooLarge       // requested size or order at or above its ceiling
    | SizeMismatch       // operands of a binary operation differ in size
    | IndexOutOfRange    // checked accessor given an index outside its window

  /** Either the value an operation returns or the error it raises. */
  datatype Result<+T> = Ok(value: T) | Err(error: Error) {

    predicate IsFailure() {
      Err?
    }

    function PropagateFailure<U>(): Result<U>
      requires Err?
    {
      Err(error)
    }

    function Extract(): T
      requires Ok?
    {
      value
    }
  }
}
