/** Values shared by every module: Java's `null` as an Option, and a thrown
    `IllegalArgumentException` as the failure half of a Result. */
module Basics {

  datatype Option<T> = None | Some(value: T)

  /** The only exception the chat server core throws. */
  datatype Exception = IllegalArgument

  datatype Result<T> = Success(value: T) | Failure(error: Exception)
}
