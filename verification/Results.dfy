/** The value of a call that may throw std::invalid_argument. */
module Results {
  datatype Result<+T> = Success(value: T) | InvalidArgument
}
