/** Bytes, digests and the result types shared by every component. */
module Prelude {

  type Byte = x: int | 0 <= x < 256
  type Bytes = seq<Byte>

  /** A 256-bit digest (`B256`). */
  type Hash = h: Bytes | |h| == 32 witness seq(32, _ => 0)

  /** Keccak-256 is a parameter of the model: nothing is assumed about it unless a lemma says so. */
  type Hasher = Bytes -> Hash

  datatype Option<+T> = None | Some(value: T)

  datatype Result<+T, +E> = Ok(value: T) | Err(error: E)

  lemma {:induction false} Regroup<T>(x: seq<T>, y: seq<T>, z: seq<T>)
    ensures (x + y) + z == x + (y + z)
  {
  }
}
