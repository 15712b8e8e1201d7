/** Result and option types shared by every component. */
module Wrappers {

  datatype Option<+T> = None | Some(value: T)

  datatype Result<+T, +E> = Ok(value: T) | Err(error: E)

  /** One octet of a serialized credential, key or document. */
  type Byte = b: int | 0 <= b < 256

  type Bytes = seq<Byte>
}
