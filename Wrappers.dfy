/** Failure-compatible result types and the exceptions of the bulk-table library.
 *  Every operation that throws in the library returns a `Failure` or `Fail` here,
 *  carrying the exception it would have thrown. */
module Wrappers {

  /** The .NET exceptions thrown by the modelled code. */
  datatype Error =
    | Argument                 // ArgumentException
    | ArgumentNull             // ArgumentNullException
    | ArgumentOutOfRange       // ArgumentOutOfRangeException
    | IndexOutOfRange          // IndexOutOfRangeException (an array index below zero)
    | Overflow                 // OverflowException (an array of negative length)
    | InvalidOperation         // InvalidOperationException
    | NullReference            // NullReferenceException (a window used after it was invalidated)
    | NotSupported             // NotSupportedException
    | EndOfStream              // EndOfStreamException
    | InvalidData              // InvalidDataException
    | InvalidCast              // InvalidCastException
    | SqlType                  // SqlTypeException (an invalid precision or scale)
    | InvalidSerialiser        // InvalidSerialiserException
    | UnrecognisedFileFormat   // UnrecognisedFileFormatException
    | UncorrelatedFields       // UncorrelatedFieldsException
    | InvalidArguments(message: string)  // InvalidArgumentsException
    | Unmodelled               // a codec whose implementation is not part of this model

  datatype Option<+T> = None | Some(value: T)

  /** An operation's value, or the exception it throws.  Operations that return
   *  nothing in the library return `Result<()>`. */
  datatype Result<+R> = Success(value: R) | Failure(error: Error) {
    predicate IsFailure() { Failure? }

    function PropagateFailure<U>(): Result<U>
      requires Failure?
    {
      Failure(error)
    }

    function Extract(): R
      requires Success?
    {
      value
    }
  }
}
