/** The error the accumulator raises, and the result of an operation that may raise it. */
module Exceptions {

  /** A tick time that is zero, negative or too close to zero, carried for diagnostics.
      Only the carried value is modelled; the message text and the exception base class are not. */
  datatype TimingException = TimingException(tickTime: real)

  /** The outcome of an operation that either produces a value or throws a TimingException. */
  datatype Result<+T> = Success(value: T) | Failure(error: TimingException)
}
