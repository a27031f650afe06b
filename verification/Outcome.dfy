/** `std::invalid_argument`, as a result. */
module Outcome {
  datatype Status = Ok | InvalidArgument(message: string)
}
