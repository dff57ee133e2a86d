/** 64-bit words as their bits, the lowest first, and the operations Keccak has on them. */
module Lanes {
  type Lane = s: seq<bool> | |s| == 64 witness seq(64, _ => false)

  function Xor64(x: Lane, y: Lane): Lane {
    seq(64, z requires 0 <= z < 64 => x[z] != y[z])
  }

  function Or64(x: Lane, y: Lane): Lane {
    seq(64, z requires 0 <= z < 64 => x[z] || y[z])
  }

  function AndNot64(x: Lane, y: Lane): Lane {
    seq(64, z requires 0 <= z < 64 => !x[z] && y[z])
  }

  function Shl(x: Lane, n: nat): Lane
    requires n <= 64
  {
    seq(n, _ => false) + x[..64 - n]
  }

  function Shr(x: Lane, n: nat): Lane
    requires n <= 64
  {
    x[n..] + seq(n, _ => false)
  }

  /** ROTL64. */
  function Rotl64(x: Lane, n: nat): Lane {
    if n <= 64 then Or64(Shl(x, n), Shr(x, 64 - n)) else x
  }

  /** Rotation moves every bit n places up, modulo 64. */
  lemma RotlBit(x: Lane, n: nat, z: nat)
    requires n < 64 && z < 64
    ensures Rotl64(x, n)[(z + n) % 64] == x[z]
  {}

  /** The bits of a constant. */
  function LaneOf(w: bv64): Lane {
    seq(64, z requires 0 <= z < 64 => Has(w, z))
  }

  predicate Has(w: bv64, z: nat)
    requires z < 64
  {
    (w >> z) & 1 == 1
  }
}
