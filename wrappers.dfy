/** Option and Result datatypes standing in for Java's null and thrown exceptions. */
module Wrappers {

  /** `None` plays the part of a Java `null` reference. */
  datatype Option<+T> = None | Some(value: T)

  /** The Java exceptions the modelled code can throw to its callers. */
  datatype JavaException =
    | StringIndexOutOfBounds
    | IllegalArgument(message: string)

  /** `Failure(e)` is a call that ends by throwing `e`. */
  datatype Result<+T> = Success(value: T) | Failure(error: JavaException)
}
