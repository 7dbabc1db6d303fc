/**
 Types used throughout.
 */
module Basics {
  datatype Option<T> = None | Some(value: T)

  newtype Byte = x: int | 0 <= x < 256

  /** How many buffers client and server ask a ring for at a time. */
  const MAX_MEMIF_BUFS: nat := 64

  lemma Joins<T>(a: seq<T>, b: seq<T>, c: seq<T>)
    ensures a + b + c == a + (b + c)
  {
  }
}
