/** Results that may be absent, and the byte type shared by the journal and the text readers. */
module Wrappers {

  datatype Option<+T> = None | Some(value: T)

  datatype Result<+T, +E> = Success(value: T) | Failure(error: E)

  type byte = x: int | 0 <= x < 256
}
