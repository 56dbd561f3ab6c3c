/** Bytes and C strings shared by the models. */
module Bytes {
  type byte = x: int | 0 <= x < 256

  /** The bytes of a C string without its terminator. */
  type Text = seq<byte>

  const U16: nat := 0x1_0000
  const U32: nat := 0x1_0000_0000
  const U64: nat := 0x1_0000_0000_0000_0000

  datatype Option<+T> = None | Some(value: T) {
    predicate IsFailure() { None? }
    function PropagateFailure<U>(): Option<U> requires None? { None }
    function Extract(): T requires Some? { value }
  }
}
