/** What every other module shares: optional values and bytes. */
module Basics {
  datatype Option<+T> = None | Some(value: T)

  type Byte = b: int | 0 <= b < 0x100

  type Bytes = seq<Byte>
}
