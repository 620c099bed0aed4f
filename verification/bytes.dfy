/** Octets, and runs of octets of a fixed length. */
module Bytes {

  newtype byte = x: int | 0 <= x < 256

  /** A run of exactly `n` octets, as `SecureRandom.nextBytes` fills an
      array of length `n`. */
  predicate HasLength(b: seq<byte>, n: nat) {
    |b| == n
  }

  type Bytes16 = b: seq<byte> | HasLength(b, 16) witness seq(16, _ => 0)
  type Bytes32 = b: seq<byte> | HasLength(b, 32) witness seq(32, _ => 0)
}
