/** Values that may be missing and computations that may throw. */
module Common {

  // Values of a uint32_t are those below.
  const UINT32 := 0x1_0000_0000

  datatype Option<+T> = None | Some(value: T)

  // A thrown C++ exception ends the computation; its kind and text are not part of the model.
  datatype Result<+T> = Throws | Ok(value: T)
  {
    predicate IsFailure() {
      Throws?
    }

    function PropagateFailure<U>(): Result<U>
      requires Throws?
    {
      Throws
    }

    function Extract(): T
      requires Ok?
    {
      value
    }
  }
}
