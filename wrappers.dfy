/** Outcomes of the operations that can throw: the only exception the core
    raises is an argument exception carrying a message. */
module Wrappers {

  /** `new ArgumentException(message)`, as thrown by the guards. */
  datatype Error = ArgumentException(message: string)

  /** A value, or the exception that was thrown instead of producing it. */
  datatype Result<+T> = Ok(value: T) | Err(error: Error)

  /** The outcome of a guard: it passes, or it throws. */
  datatype Outcome = Pass | Fail(error: Error)

}
