/** Shared vocabulary of the chunk decoders: bytes, the single error value
    each failure path produces, and the header every chunk embeds. */
module Base {

  /** Go's uint8. */
  newtype byte = x: int | 0 <= x < 256

  /** The ways a chunk decode can end abnormally.
      ReadFailed: the reader reported an error.
      ShortRead: fewer bytes than the header's size were delivered.
      IndexOutOfRange: Go would panic with an index or slice out of range.
      ExclusiveFailed: the exclusive sub-decoder reported an error.
      ExclusiveSizeMismatch: the exclusive budget did not end at zero. */
  datatype Error =
    | ReadFailed
    | ShortRead
    | IndexOutOfRange
    | ExclusiveFailed
    | ExclusiveSizeMismatch

  datatype Option<+T> = None | Some(value: T)

  datatype Result<+T> = Ok(value: T) | Err(error: Error)

  /** The `error` a Go `Read` method returns: nil or one failure. */
  datatype Outcome = Pass | Fail(error: Error)

  /** The header shared by every chunk: a four-byte signature and the
      declared payload size. */
  datatype ChunkHeader = ChunkHeader(Signature: bv32, Size: nat)

  function Min(a: nat, b: nat): nat
  {
    if a <= b then a else b
  }

  /** The buffer `make([]uint8, n)` allocates. */
  function Zeros(n: nat): (z: seq<byte>)
    ensures |z| == n
    ensures forall i :: 0 <= i < n ==> z[i] == 0
  {
    seq(n, _ => 0 as byte)
  }
}
