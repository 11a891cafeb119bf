/** The conventional optional value, and byte strings. */
module Wrappers {
  datatype Option<+T> = None | Some(value: T)

  type Byte = x: int | 0 <= x < 256
  type Bytes = seq<Byte>
  type Headers = seq<(string, string)>
}
