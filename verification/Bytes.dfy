/** Byte strings. */
module Bytes {
  type Byte = b: int | 0 <= b < 256 witness 0
  type bytes = seq<Byte>

  /** All chunks, one after the other. */
  function Concat(chunks: seq<bytes>): bytes {
    if chunks == [] then [] else Concat(chunks[..|chunks| - 1]) + chunks[|chunks| - 1]
  }

  /** The part of `data` that a limit lets through; zero means no limit. */
  function Limited(limit: nat, data: bytes): bytes {
    if limit == 0 || |data| <= limit then data else data[..limit]
  }
}
