/** Bytes, machine words and the little-endian encoding shared by every component. */
module Bytes {
  import opened Arith

  type byte = x: int | 0 <= x < 256

  const TWO64: nat := 0x1_0000_0000_0000_0000

  type U64 = x: nat | x < 0x1_0000_0000_0000_0000

  /** 256 to the power n. */
  function Pow256(n: nat): (r: nat)
    ensures r > 0
  {
    if n == 0 then 1 else 256 * Pow256(n - 1)
  }

  /** The n low bytes of x, least significant first (what memcpy of an integer yields). */
  function Le(x: nat, n: nat): (s: seq<byte>)
    ensures |s| == n
  {
    if n == 0 then [] else [x % 256] + Le(x / 256, n - 1)
  }

  /** The integer a little-endian byte string stands for. */
  function LeNat(s: seq<byte>): nat {
    if s == [] then 0 else s[0] + 256 * LeNat(s[1..])
  }

  lemma {:induction false} LeNatBound(s: seq<byte>)
    ensures LeNat(s) < Pow256(|s|)
  {
    if s != [] {
      LeNatBound(s[1..]);
    }
  }

  /** Decoding undoes encoding, so the encoding is injective on n-byte integers. */
  lemma {:induction false} LeRoundTrip(x: nat, n: nat)
    requires x < Pow256(n)
    ensures LeNat(Le(x, n)) == x
  {
    if n > 0 {
      LeRoundTrip(x / 256, n - 1);
      assert Le(x, n)[1..] == Le(x / 256, n - 1);
    }
  }

  /** Encoding undoes decoding: distinct byte strings of one length are distinct integers. */
  lemma {:induction false} LeNatRoundTrip(s: seq<byte>)
    ensures Le(LeNat(s), |s|) == s
  {
    if s != [] {
      LeNatRoundTrip(s[1..]);
      assert LeNat(s) % 256 == s[0] && LeNat(s) / 256 == LeNat(s[1..]);
    }
  }

  lemma Pow256Of8()
    ensures Pow256(8) == TWO64
  {
    assert Pow256(4) == 0x1_0000_0000;
    assert Pow256(8) == 256 * 256 * 256 * 256 * Pow256(4);
  }

  /** Four bytes as a 32-bit word. */
  function Word(a: int, b: int, c: int, d: int): int {
    a + 0x100 * b + 0x1_0000 * c + 0x100_0000 * d
  }

  lemma WordNat(s: seq<byte>)
    requires |s| >= 4
    ensures LeNat(s) == Word(s[0], s[1], s[2], s[3]) + 0x1_0000_0000 * LeNat(s[4..])
  {
    assert s[1..][1..][1..][1..] == s[4..];
    assert LeNat(s[1..]) == s[1] + 256 * LeNat(s[1..][1..]);
    assert LeNat(s[1..][1..]) == s[2] + 256 * LeNat(s[1..][1..][1..]);
    assert LeNat(s[1..][1..][1..]) == s[3] + 256 * LeNat(s[4..]);
  }

  /** A byte as eight bits, four at a time. */
  function Bits8(x: byte): bv8 {
    Join4((x / 16) as bv8, (x % 16) as bv8)
  }

  function Join4(h: bv8, l: bv8): bv8 {
    (h << 4) | l
  }

  lemma Join4Injective(h: bv8, l: bv8, h': bv8, l': bv8)
    requires h <= 0xF && l <= 0xF && h' <= 0xF && l' <= 0xF && Join4(h, l) == Join4(h', l')
    ensures h == h' && l == l'
  {}

  lemma NibbleBack(v: nat)
    requires v < 16
    ensures v as bv8 <= 0xF && (v as bv8) as int == v
  {
    if {
      case v == 0 =>
      case v == 1 =>
      case v == 2 =>
      case v == 3 =>
      case v == 4 =>
      case v == 5 =>
      case v == 6 =>
      case v == 7 =>
      case v == 8 =>
      case v == 9 =>
      case v == 10 =>
      case v == 11 =>
      case v == 12 =>
      case v == 13 =>
      case v == 14 =>
      case v == 15 =>
    }
  }

  /** The bits determine the byte. */
  lemma Bits8Injective(x: byte, y: byte)
    requires Bits8(x) == Bits8(y)
    ensures x == y
  {
    hide Join4;
    NibbleBack(x / 16);
    NibbleBack(x % 16);
    NibbleBack(y / 16);
    NibbleBack(y % 16);
    Join4Injective((x / 16) as bv8, (x % 16) as bv8, (y / 16) as bv8, (y % 16) as bv8);
    DivMod(x, 16);
    DivMod(y, 16);
  }

  lemma {:induction false} LeConcat(x: seq<byte>, y: seq<byte>)
    ensures LeNat(x + y) == LeNat(x) + Pow256(|x|) * LeNat(y)
  {
    if |x| == 0 {
      assert x + y == y;
    } else {
      assert (x + y)[1..] == x[1..] + y;
      LeConcat(x[1..], y);
      Associate(256, Pow256(|x| - 1), LeNat(y));
    }
  }

  lemma {:induction false} Pow256Add(a: nat, b: nat)
    ensures Pow256(a + b) == Pow256(a) * Pow256(b)
  {
    if a > 0 {
      Pow256Add(a - 1, b);
      Associate(256, Pow256(a - 1), Pow256(b));
    }
  }

  /** load_3 and load_4: little-endian bytes of a string. */
  function Load3(s: seq<byte>, i: nat): (r: int)
    requires i + 3 <= |s|
    ensures 0 <= r < 0x100_0000
  {
    Word(s[i], s[i + 1], s[i + 2], 0)
  }

  function Load4(s: seq<byte>, i: nat): (r: int)
    requires i + 4 <= |s|
    ensures 0 <= r < 0x1_0000_0000
  {
    Word(s[i], s[i + 1], s[i + 2], s[i + 3])
  }
}
