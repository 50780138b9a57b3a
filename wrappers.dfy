/** Option and Result: the "maybe a value" and "value or error" shapes the bot's
    handlers return instead of raising. */
module Wrappers {

  datatype Option<+T> = None | Some(value: T)

  datatype Result<+R, +E> = Success(value: R) | Failure(error: E)
}
