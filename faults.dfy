/** Errors and panics shared by the class-file decoder and the classpath.

    Go signals two kinds of failure in this code: `error` values that are
    returned, and panics that unwind the stack.  A panic carries either an
    `error` (every runtime fault such as an index out of range is one) or any
    other value (here: a string).  Unwinding is modelled by returning a
    `Result` whose failure case holds the panic value. */
module Faults {

  datatype Option<+T> = None | Some(value: T)

  /** A Go `error`, identified by its message. */
  datatype Error = Error(text: string)

  /** The value a panic carries. */
  datatype Panic =
    | ErrorPanic(err: Error)      // panic(err) or a runtime fault
    | ValuePanic(text: string)    // panic("...") with a non-error value

  /** Either a value, or the panic that unwound the computation. */
  datatype Result<+T> = Ok(value: T) | Fail(panic: Panic)

  /** Runtime fault raised by an index past the end of a slice. */
  const IndexOutOfRange := Error("runtime error: index out of range")

  /** Runtime fault raised by a slice expression whose bounds are out of order
      or past the capacity, such as `s[:len(s)-1]` on an empty string or `s[:n]`
      with `n` beyond the end. */
  const SliceOutOfRange := Error("runtime error: slice bounds out of range")

  /** Runtime fault raised by calling a method on a nil interface value. */
  const NilDereference := Error("runtime error: invalid memory address or nil pointer dereference")

  /** What a deferred `recover()` turns a panic into: an `error` panic value is
      kept as it is, any other value is formatted with `%v` into a new error. */
  function Recovered(p: Panic): (e: Error)
    ensures p.ErrorPanic? ==> e == p.err
    ensures p.ValuePanic? ==> e.text == p.text
  {
    match p
    case ErrorPanic(err) => err
    case ValuePanic(text) => Error(text)
  }
}
