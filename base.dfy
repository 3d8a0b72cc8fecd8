/** Optional values and fallible results, shared by every module of the model. */
module Wrappers {

  datatype Option<+T> = None | Some(value: T)

  datatype Result<+T, +E> = Ok(value: T) | Err(error: E)
}

/** Raw octets, as they appear on the wire and in object bodies. */
module Octets {

  type Byte = b: int | 0 <= b < 256
}
