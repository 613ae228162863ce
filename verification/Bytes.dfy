/** Byte strings, and the concatenation of a sequence of them. */
module Bytes {

  type Byte = b: int | 0 <= b < 256

  type Bytes = seq<Byte>

  function Flatten(chunks: seq<Bytes>): (r: Bytes)
  {
    if chunks == [] then [] else chunks[0] + Flatten(chunks[1..])
  }
}
