/** Bytes of the C++ `char` buffers, and the character codes the parsers compare with. */
module Bytes {
  type byte = x: int | 0 <= x < 256

  const NUL: byte := 0
  const TAB: byte := 9
  const LF: byte := 10
  const CR: byte := 13
  const SPACE: byte := 32
  const QUOTE: byte := 34
  const BACKSLASH: byte := 92

  /** A C string in its buffer: the last byte is NUL. */
  predicate Terminated(t: seq<byte>) {
    t != [] && t[|t| - 1] == NUL
  }
}
