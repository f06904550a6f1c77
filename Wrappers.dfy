/** Failure-compatible result types, and the .NET exceptions the core can raise. */
module Wrappers {

  /** `None` stands for a .NET `null` reference. */
  datatype Option<+T> = None | Some(value: T)

  datatype Result<+R, +E> = Success(value: R) | Failure(error: E)

  /** The exceptions raised by the modelled code, each with the parameter name it reports. */
  datatype Exception =
    | ArgumentNullException(paramName: string)
    | ArgumentOutOfRangeException(paramName: string)
}
