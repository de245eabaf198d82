/** Result type for the operations that can fail (opening the stopword file). */
module Wrappers {

  datatype Result<+T, +E> = Success(value: T) | Failure(error: E)
}
