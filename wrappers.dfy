/** Result values, used where the generator either succeeds or throws. */
module Wrappers {

  datatype Result<+R, +E> = Success(value: R) | Failure(error: E)
}
