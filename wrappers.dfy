/** Missing values and error returns. `None` stands for pandas' NaN / NaT. */
module Wrappers {

  datatype Option<+T> = None | Some(value: T)

  datatype Result<+R, +E> = Success(value: R) | Failure(error: E)
}
