/** sc_reduce: 64 bytes to limbs, reduction, and back to 32 bytes. */
module ScalarReduce {
  import opened Arith
  import opened Bytes
  import opened Field
  import opened ScalarLimbs

  // ---------------------------------------------------------------- limbs and bytes

  /** Eight limbs are 21 bytes. Both are made of the same pieces: whole bytes, and the lower and upper part
      of each byte that two limbs share. */
  datatype Pieces = Pieces(
    b0: int, b1: int, l2: int, h2: int, b3: int, b4: int, l5: int, h5: int, b6: int, l7: int, h7: int, b8: int, b9: int,
      l10: int,
    h10: int, b11: int, b12: int, l13: int, h13: int, b14: int, l15: int, h15: int, b16: int, b17: int, l18: int, h18: int,
      b19: int, b20: int)

  datatype Eight = Eight(x0: int, x1: int, x2: int, x3: int, x4: int, x5: int, x6: int, x7: int)

  function LimbsOf(g: Pieces): Eight {
    Eight(g.b0 + 0x100 * g.b1 + 0x1_0000 * g.l2,
          g.h2 + 0x8 * g.b3 + 0x800 * g.b4 + 0x8_0000 * g.l5,
          g.h5 + 0x40 * g.b6 + 0x4000 * g.l7,
          g.h7 + 0x2 * g.b8 + 0x200 * g.b9 + 0x2_0000 * g.l10,
          g.h10 + 0x10 * g.b11 + 0x1000 * g.b12 + 0x10_0000 * g.l13,
          g.h13 + 0x80 * g.b14 + 0x8000 * g.l15,
          g.h15 + 0x4 * g.b16 + 0x400 * g.b17 + 0x4_0000 * g.l18,
          g.h18 + 0x20 * g.b19 + 0x2000 * g.b20)
  }

  function Weigh8(t: Eight): int {
    t.x0 + 0x20_0000 * t.x1 + 0x400_0000_0000 * t.x2 + 0x8000_0000_0000_0000 * t.x3 + 0x10_0000_0000_0000_0000_0000 * t.x4
      + 0x200_0000_0000_0000_0000_0000_0000 * t.x5 + 0x4000_0000_0000_0000_0000_0000_0000_0000 * t.x6
      + 0x8_0000_0000_0000_0000_0000_0000_0000_0000_0000 * t.x7
  }

  /** The bytes of the pieces, as five words and a byte. */
  function BytesValue(g: Pieces): int {
    Word5(g.b0, g.b1, g.l2 + 32 * g.h2, g.b3, g.b4, g.l5 + 4 * g.h5, g.b6, g.l7 + 128 * g.h7, g.b8, g.b9, g.l10 + 16 * g.h10,
      g.b11, g.b12, g.l13 + 2 * g.h13, g.b14, g.l15 + 64 * g.h15, g.b16, g.b17, g.l18 + 8 * g.h18, g.b19, g.b20)
  }

  function Word5(b0: int, b1: int, b2: int, b3: int, b4: int, b5: int, b6: int, b7: int, b8: int, b9: int, b10: int, b11: int,
    b12: int, b13: int, b14: int, b15: int, b16: int, b17: int, b18: int, b19: int, b20: int): int {
    Word(b0, b1, b2, b3) + 0x1_0000_0000 * (Word(b4, b5, b6, b7) + 0x1_0000_0000 * (Word(b8, b9, b10, b11)
      + 0x1_0000_0000 * (Word(b12, b13, b14, b15) + 0x1_0000_0000 * (Word(b16, b17, b18, b19) + 0x1_0000_0000 * b20))))
  }

  /** So they stand for the same number. */
  lemma SameNumber(g: Pieces)
    ensures Weigh8(LimbsOf(g)) == BytesValue(g)
  {}

  /** A byte string, 21 bytes and the rest. */
  lemma TwentyOne(s: seq<byte>)
    requires |s| >= 21
    ensures LeNat(s) == Word5(s[0], s[1], s[2], s[3], s[4], s[5], s[6], s[7], s[8], s[9], s[10], s[11], s[12], s[13], s[14],
      s[15], s[16], s[17], s[18], s[19], s[20])
      + 0x100_0000_0000_0000_0000_0000_0000_0000_0000_0000_0000 * LeNat(s[21..])
  {
    WordNat(s);
    WordNat(s[4..]);
    assert s[4..][4..] == s[8..];
    WordNat(s[8..]);
    assert s[8..][4..] == s[12..];
    WordNat(s[12..]);
    assert s[12..][4..] == s[16..];
    WordNat(s[16..]);
    assert s[16..][4..] == s[20..];
    assert s[20..][1..] == s[21..];
    assert LeNat(s[20..]) == s[20] + 256 * LeNat(s[21..]);
  }

  // ---------------------------------------------------------------- loading

  /** The eight masked loads at byte i. */
  function Loads(s: seq<byte>, i: nat): Eight
    requires i + 21 <= |s|
  {
    Eight(Load3(s, i) % 0x20_0000, Load4(s, i + 2) / 32 % 0x20_0000, Load3(s, i + 5) / 4 % 0x20_0000,
          Load4(s, i + 7) / 128 % 0x20_0000, Load4(s, i + 10) / 16 % 0x20_0000, Load3(s, i + 13) / 2 % 0x20_0000,
          Load4(s, i + 15) / 64 % 0x20_0000, Load3(s, i + 18) / 8 % 0x20_0000)
  }

  /** The pieces of 21 bytes. */
  function Cut(s: seq<byte>, i: nat): Pieces
    requires i + 21 <= |s|
  {
    Pieces(s[i], s[i + 1], s[i + 2] % 32, s[i + 2] / 32, s[i + 3], s[i + 4], s[i + 5] % 4, s[i + 5] / 4, s[i + 6], s[i
      + 7] % 128, s[i + 7] / 128, s[i + 8], s[i + 9], s[i + 10] % 16, s[i + 10] / 16, s[i + 11], s[i + 12], s[i + 13] % 2,
      s[i + 13] / 2, s[i + 14], s[i + 15] % 64, s[i + 15] / 64, s[i + 16], s[i + 17], s[i + 18] % 8, s[i + 18] / 8, s[i + 19],
      s[i + 20])
  }

  lemma Limb0(a: byte, b: byte, c: byte)
    ensures Word(a, b, c, 0) % 0x20_0000 == a + 0x100 * b + 0x1_0000 * (c % 32)
  {
    ModUnique(a + 0x100 * b + 0x1_0000 * c, c as int / 32, a + 0x100 * b + 0x1_0000 * (c % 32), 0x20_0000);
  }

  lemma Limb1(a: byte, b: byte, c: byte, d: byte)
    ensures Word(a, b, c, d) / 32 % 0x20_0000 == a as int / 32 + 0x8 * b + 0x800 * c + 0x8_0000 * (d % 4)
  {
    ModUnique(Word(a, b, c, d), a as int / 32 + 0x8 * b + 0x800 * c + 0x8_0000 * d, a % 32, 32);
    ModUnique(a as int / 32 + 0x8 * b + 0x800 * c + 0x8_0000 * d, d as int / 4, a as int / 32 + 0x8 * b + 0x800 * c
      + 0x8_0000 * (d % 4), 0x20_0000);
  }

  lemma Limb2(a: byte, b: byte, c: byte)
    ensures Word(a, b, c, 0) / 4 % 0x20_0000 == a as int / 4 + 0x40 * b + 0x4000 * (c % 128)
  {
    ModUnique(Word(a, b, c, 0), a as int / 4 + 0x40 * b + 0x4000 * c, a % 4, 4);
    ModUnique(a as int / 4 + 0x40 * b + 0x4000 * c, c as int / 128, a as int / 4 + 0x40 * b + 0x4000 * (c % 128), 0x20_0000);
  }

  lemma Limb3(a: byte, b: byte, c: byte, d: byte)
    ensures Word(a, b, c, d) / 128 % 0x20_0000 == a as int / 128 + 0x2 * b + 0x200 * c + 0x2_0000 * (d % 16)
  {
    ModUnique(Word(a, b, c, d), a as int / 128 + 0x2 * b + 0x200 * c + 0x2_0000 * d, a % 128, 128);
    ModUnique(a as int / 128 + 0x2 * b + 0x200 * c + 0x2_0000 * d, d as int / 16, a as int / 128 + 0x2 * b + 0x200 * c
      + 0x2_0000 * (d % 16), 0x20_0000);
  }

  lemma Limb4(a: byte, b: byte, c: byte, d: byte)
    ensures Word(a, b, c, d) / 16 % 0x20_0000 == a as int / 16 + 0x10 * b + 0x1000 * c + 0x10_0000 * (d % 2)
  {
    ModUnique(Word(a, b, c, d), a as int / 16 + 0x10 * b + 0x1000 * c + 0x10_0000 * d, a % 16, 16);
    ModUnique(a as int / 16 + 0x10 * b + 0x1000 * c + 0x10_0000 * d, d as int / 2, a as int / 16 + 0x10 * b + 0x1000 * c
      + 0x10_0000 * (d % 2), 0x20_0000);
  }

  lemma Limb5(a: byte, b: byte, c: byte)
    ensures Word(a, b, c, 0) / 2 % 0x20_0000 == a as int / 2 + 0x80 * b + 0x8000 * (c % 64)
  {
    ModUnique(Word(a, b, c, 0), a as int / 2 + 0x80 * b + 0x8000 * c, a % 2, 2);
    ModUnique(a as int / 2 + 0x80 * b + 0x8000 * c, c as int / 64, a as int / 2 + 0x80 * b + 0x8000 * (c % 64), 0x20_0000);
  }

  lemma Limb6(a: byte, b: byte, c: byte, d: byte)
    ensures Word(a, b, c, d) / 64 % 0x20_0000 == a as int / 64 + 0x4 * b + 0x400 * c + 0x4_0000 * (d % 8)
  {
    ModUnique(Word(a, b, c, d), a as int / 64 + 0x4 * b + 0x400 * c + 0x4_0000 * d, a % 64, 64);
    ModUnique(a as int / 64 + 0x4 * b + 0x400 * c + 0x4_0000 * d, d as int / 8, a as int / 64 + 0x4 * b + 0x400 * c
      + 0x4_0000 * (d % 8), 0x20_0000);
  }

  lemma Limb7(a: byte, b: byte, c: byte)
    ensures Word(a, b, c, 0) / 8 % 0x20_0000 == a as int / 8 + 0x20 * b + 0x2000 * c
  {
    ModUnique(Word(a, b, c, 0), a as int / 8 + 0x20 * b + 0x2000 * c, a % 8, 8);
    ModUnique(a as int / 8 + 0x20 * b + 0x2000 * c, 0, a as int / 8 + 0x20 * b + 0x2000 * c, 0x20_0000);
  }

  lemma LoadsArePieces(s: seq<byte>, i: nat)
    requires i + 21 <= |s|
    ensures Loads(s, i) == LimbsOf(Cut(s, i))
  {
    Limb0(s[i], s[i + 1], s[i + 2]);
    Limb1(s[i + 2], s[i + 3], s[i + 4], s[i + 5]);
    Limb2(s[i + 5], s[i + 6], s[i + 7]);
    Limb3(s[i + 7], s[i + 8], s[i + 9], s[i + 10]);
    Limb4(s[i + 10], s[i + 11], s[i + 12], s[i + 13]);
    Limb5(s[i + 13], s[i + 14], s[i + 15]);
    Limb6(s[i + 15], s[i + 16], s[i + 17], s[i + 18]);
    Limb7(s[i + 18], s[i + 19], s[i + 20]);
  }

  /** Three groups of eight limbs as 24. */
  lemma ThreeGroups(g: Eight, h: Eight, k: Eight)
    ensures Weigh24(Six(g.x0, g.x1, g.x2, g.x3, g.x4, g.x5), Twelve(g.x6, g.x7, h.x0, h.x1, h.x2, h.x3, h.x4, h.x5, h.x6, h.x7,
      k.x0, k.x1), Six(k.x2, k.x3, k.x4, k.x5, k.x6, k.x7))
      == Weigh8(g) + 0x100_0000_0000_0000_0000_0000_0000_0000_0000_0000_0000 * (Weigh8(h)
        + 0x100_0000_0000_0000_0000_0000_0000_0000_0000_0000_0000 * Weigh8(k))
  {}

  lemma LastLimb(a: byte, b: byte, c: byte, d: byte)
    ensures Word(a, b, c, d) / 8 == a as int / 8 + 0x20 * b + 0x2000 * c + 0x20_0000 * d
  {
    ModUnique(Word(a, b, c, d), a as int / 8 + 0x20 * b + 0x2000 * c + 0x20_0000 * d, a % 8, 8);
  }

  /** The 21 bytes at i: the value of the pieces, and the rest. */
  lemma GroupAt(s: seq<byte>, i: nat)
    requires i + 21 <= |s|
    ensures LeNat(s[i..]) == Weigh8(Loads(s, i)) + 0x100_0000_0000_0000_0000_0000_0000_0000_0000_0000_0000 * LeNat(s[i + 21..])
  {
    TwentyOne(s[i..]);
    assert s[i..][21..] == s[i + 21..];
    LoadsArePieces(s, i);
    SameNumber(Cut(s, i));
    CutBytes(s, i);
  }

  lemma CutBytes(s: seq<byte>, i: nat)
    requires i + 21 <= |s|
    ensures BytesValue(Cut(s, i)) == Word5(s[i], s[i + 1], s[i + 2], s[i + 3], s[i + 4], s[i + 5], s[i + 6], s[i + 7], s[i
      + 8], s[i + 9], s[i + 10], s[i + 11], s[i + 12], s[i + 13], s[i + 14], s[i + 15], s[i + 16], s[i + 17], s[i + 18], s[i
      + 19], s[i + 20])
  {
    assert s[i + 2] == s[i + 2] % 32 + 32 * (s[i + 2] as int / 32);
    assert s[i + 5] == s[i + 5] % 4 + 4 * (s[i + 5] as int / 4);
    assert s[i + 7] == s[i + 7] % 128 + 128 * (s[i + 7] as int / 128);
    assert s[i + 10] == s[i + 10] % 16 + 16 * (s[i + 10] as int / 16);
    assert s[i + 13] == s[i + 13] % 2 + 2 * (s[i + 13] as int / 2);
    assert s[i + 15] == s[i + 15] % 64 + 64 * (s[i + 15] as int / 64);
    assert s[i + 18] == s[i + 18] % 8 + 8 * (s[i + 18] as int / 8);
  }

  // ---------------------------------------------------------------- storing

  /** The pieces of eight limbs: the shifts of the byte stores. */
  function CutLimbs(t: Eight): Pieces {
    Pieces(t.x0 % 256, t.x0 / 0x100 % 256, t.x0 / 0x1_0000,
           t.x1 % 8, t.x1 / 0x8 % 256, t.x1 / 0x800 % 256, t.x1 / 0x8_0000,
           t.x2 % 64, t.x2 / 0x40 % 256, t.x2 / 0x4000,
           t.x3 % 2, t.x3 / 0x2 % 256, t.x3 / 0x200 % 256, t.x3 / 0x2_0000,
           t.x4 % 16, t.x4 / 0x10 % 256, t.x4 / 0x1000 % 256, t.x4 / 0x10_0000,
           t.x5 % 128, t.x5 / 0x80 % 256, t.x5 / 0x8000,
           t.x6 % 4, t.x6 / 0x4 % 256, t.x6 / 0x400 % 256, t.x6 / 0x4_0000,
           t.x7 % 32, t.x7 / 0x20 % 256, t.x7 / 0x2000)
  }

  predicate Natural(t: Eight) {
    t.x0 >= 0 && t.x1 >= 0 && t.x2 >= 0 && t.x3 >= 0 && t.x4 >= 0 && t.x5 >= 0 && t.x6 >= 0 && t.x7 >= 0
  }

  lemma CutLimbsWhole(t: Eight)
    requires Natural(t)
    ensures LimbsOf(CutLimbs(t)) == t
  {
    ThreePieces(t.x0, 0x100);
    FourPieces(t.x1, 0x8);
    ThreePieces(t.x2, 0x40);
    FourPieces(t.x3, 0x2);
    FourPieces(t.x4, 0x10);
    ThreePieces(t.x5, 0x80);
    FourPieces(t.x6, 0x4);
    ThreePieces(t.x7, 0x20);
  }

  /** Every piece is a byte or its part; where two limbs share a byte the parts do not meet, so the source's
      bitwise or is a sum. */
  predicate Storable(g: Pieces) {
    && 0 <= g.b0 < 256 && 0 <= g.b1 < 256 && 0 <= g.l2 < 32 && 0 <= g.h2 < 8 && 0 <= g.b3 < 256 && 0 <= g.b4 < 256
      && 0 <= g.l5 < 4
    && 0 <= g.h5 < 64 && 0 <= g.b6 < 256 && 0 <= g.l7 < 128 && 0 <= g.h7 < 2 && 0 <= g.b8 < 256 && 0 <= g.b9 < 256
      && 0 <= g.l10 < 16
    && 0 <= g.h10 < 16 && 0 <= g.b11 < 256 && 0 <= g.b12 < 256 && 0 <= g.l13 < 2 && 0 <= g.h13 < 128 && 0 <= g.b14 < 256
      && 0 <= g.l15 < 64
    && 0 <= g.h15 < 4 && 0 <= g.b16 < 256 && 0 <= g.b17 < 256 && 0 <= g.l18 < 8 && 0 <= g.h18 < 32 && 0 <= g.b19 < 256
      && 0 <= g.b20 < 256
  }

  function Store21(g: Pieces): (s: seq<byte>)
    requires Storable(g)
    ensures |s| == 21
  {
    [g.b0, g.b1, g.l2 + 32 * g.h2, g.b3]
    + [g.b4, g.l5 + 4 * g.h5, g.b6, g.l7 + 128 * g.h7]
    + [g.b8, g.b9, g.l10 + 16 * g.h10, g.b11]
    + [g.b12, g.l13 + 2 * g.h13, g.b14, g.l15 + 64 * g.h15]
    + [g.b16, g.b17, g.l18 + 8 * g.h18, g.b19]
    + [g.b20]
  }

  lemma Store21Value(g: Pieces)
    requires Storable(g)
    ensures LeNat(Store21(g)) == BytesValue(g)
  {
    TwentyOne(Store21(g));
    assert Store21(g)[21..] == [];
  }

  predicate Canonical8(t: Eight) {
    0 <= t.x0 < 0x20_0000 && 0 <= t.x1 < 0x20_0000 && 0 <= t.x2 < 0x20_0000 && 0 <= t.x3 < 0x20_0000
      && 0 <= t.x4 < 0x20_0000 && 0 <= t.x5 < 0x20_0000 && 0 <= t.x6 < 0x20_0000 && 0 <= t.x7 < 0x20_0000
  }

  lemma CutStorable(t: Eight)
    requires Canonical8(t)
    ensures Storable(CutLimbs(t))
  {}

  /** The last four limbs of twelve: eleven bytes, the rest of the group being zero. */
  predicate Canonical4(t: Eight) {
    && 0 <= t.x0 < 0x20_0000 && 0 <= t.x1 < 0x20_0000 && 0 <= t.x2 < 0x20_0000 && 0 <= t.x3 <= 0x20_0000
    && t.x4 == 0 && t.x5 == 0 && t.x6 == 0 && t.x7 == 0
  }

  function Eleven(b0: byte, b1: byte, b2: byte, b3: byte, b4: byte, b5: byte, b6: byte, b7: byte, b8: byte, b9: byte,
    b10: byte): (s: seq<byte>)
    ensures |s| == 11
  {
    [b0, b1, b2, b3] + [b4, b5, b6, b7] + [b8, b9, b10]
  }

  lemma ElevenValue(b0: byte, b1: byte, b2: byte, b3: byte, b4: byte, b5: byte, b6: byte, b7: byte, b8: byte, b9: byte,
    b10: byte)
    ensures LeNat(Eleven(b0, b1, b2, b3, b4, b5, b6, b7, b8, b9, b10))
      == Word(b0, b1, b2, b3) + 0x1_0000_0000 * (Word(b4, b5, b6, b7) + 0x1_0000_0000 * Word(b8, b9, b10, 0))
  {
    var s := Eleven(b0, b1, b2, b3, b4, b5, b6, b7, b8, b9, b10);
    WordNat(s);
    WordNat(s[4..]);
    assert s[4..][4..] == s[8..];
    ThreeNat(s[8..]);
  }

  lemma ThreeNat(s: seq<byte>)
    requires |s| == 3
    ensures LeNat(s) == Word(s[0], s[1], s[2], 0)
  {
    assert LeNat(s[1..]) == s[1] + 256 * LeNat(s[1..][1..]);
    assert LeNat(s[1..][1..]) == s[2] + 256 * LeNat(s[1..][1..][1..]);
    assert s[1..][1..][1..] == [];
  }

  function Store11(g: Pieces): (s: seq<byte>)
    requires StorableTail(g)
    ensures |s| == 11
  {
    Eleven(g.b0, g.b1, g.l2 + 32 * g.h2, g.b3, g.b4, g.l5 + 4 * g.h5, g.b6, g.l7 + 128 * g.h7, g.b8, g.b9, g.l10)
  }

  predicate StorableTail(g: Pieces) {
    && 0 <= g.b0 < 256 && 0 <= g.b1 < 256 && 0 <= g.l2 < 32 && 0 <= g.h2 < 8 && 0 <= g.b3 < 256 && 0 <= g.b4 < 256
      && 0 <= g.l5 < 4
    && 0 <= g.h5 < 64 && 0 <= g.b6 < 256 && 0 <= g.l7 < 128 && 0 <= g.h7 < 2 && 0 <= g.b8 < 256 && 0 <= g.b9 < 256
      && 0 <= g.l10 <= 16
    && g.h10 == 0 && g.b11 == 0 && g.b12 == 0 && g.l13 == 0 && g.h13 == 0 && g.b14 == 0 && g.l15 == 0 && g.h15 == 0
      && g.b16 == 0 && g.b17 == 0 && g.l18 == 0 && g.h18 == 0 && g.b19 == 0 && g.b20 == 0
  }

  /** Only the first eleven bytes. */
  function Clipped(g: Pieces): Pieces {
    Pieces(g.b0, g.b1, g.l2, g.h2, g.b3, g.b4, g.l5, g.h5, g.b6, g.l7, g.h7, g.b8, g.b9, g.l10, 0, 0, 0, 0, 0, 0, 0, 0, 0, 0,
      0, 0, 0, 0)
  }

  lemma TailBytes(g: Pieces)
    ensures BytesValue(Clipped(g)) == TailWords(g)
  {
    hide Word;
    var c := Clipped(g);
    ZeroWord();
    assert c.l10 + 16 * c.h10 == g.l10 && c.l13 + 2 * c.h13 == 0 && c.l15 + 64 * c.h15 == 0 && c.l18 + 8 * c.h18 == 0;
    ShortSum(Word(g.b0, g.b1, g.l2 + 32 * g.h2, g.b3), Word(g.b4, g.l5 + 4 * g.h5, g.b6, g.l7 + 128 * g.h7),
             Word(g.b8, g.b9, g.l10, 0));
  }

  lemma ZeroWord()
    ensures Word(0, 0, 0, 0) == 0
  {}

  lemma ShortSum(x: int, y: int, z: int)
    ensures x + 0x1_0000_0000 * (y + 0x1_0000_0000 * (z + 0x1_0000_0000 * (0 + 0x1_0000_0000 * (0 + 0x1_0000_0000 * 0))))
         == x + 0x1_0000_0000 * (y + 0x1_0000_0000 * z)
  {}

  function TailWords(g: Pieces): int {
    Word(g.b0, g.b1, g.l2 + 32 * g.h2, g.b3) + 0x1_0000_0000 * (Word(g.b4, g.l5 + 4 * g.h5, g.b6, g.l7 + 128 * g.h7)
      + 0x1_0000_0000 * Word(g.b8, g.b9, g.l10, 0))
  }

  lemma Store11Words(g: Pieces)
    requires StorableTail(g)
    ensures LeNat(Store11(g)) == TailWords(g)
  {
    hide Eleven, Word, LeNat;
    ElevenValue(g.b0, g.b1, g.l2 + 32 * g.h2, g.b3, g.b4, g.l5 + 4 * g.h5, g.b6, g.l7 + 128 * g.h7, g.b8, g.b9, g.l10);
  }

  lemma Store11Value(g: Pieces)
    requires StorableTail(g)
    ensures LeNat(Store11(g)) == BytesValue(g)
  {
    Store11Words(g);
    TailBytes(g);
    assert Clipped(g) == g;
  }

  lemma TailStorable(t: Eight)
    requires Canonical4(t)
    ensures StorableTail(CutLimbs(t))
  {}

  function Head(r: Twelve<int>): Eight {
    Eight(r.x0, r.x1, r.x2, r.x3, r.x4, r.x5, r.x6, r.x7)
  }

  function Tail(r: Twelve<int>): Eight {
    Eight(r.x8, r.x9, r.x10, r.x11, 0, 0, 0, 0)
  }

  /** The 32 byte stores. */
  function Store(r: Twelve<int64>): (s: seq<byte>)
    requires Canonical12(r)
    ensures |s| == 32
  {
    CutStorable(Head(Ints12(r)));
    TailStorable(Tail(Ints12(r)));
    Store21(CutLimbs(Head(Ints12(r)))) + Store11(CutLimbs(Tail(Ints12(r))))
  }

  lemma HeadTail(r: Twelve<int>)
    ensures Weigh12(r) == Weigh8(Head(r)) + 0x100_0000_0000_0000_0000_0000_0000_0000_0000_0000_0000 * Weigh8(Tail(r))
  {}

  lemma StoreValue(r: Twelve<int64>)
    requires Canonical12(r)
    ensures LeNat(Store(r)) == Weigh12(Ints12(r))
  {
    var t := Ints12(r);
    CutStorable(Head(t));
    TailStorable(Tail(t));
    HalfValue(Head(t));
    TailValue(Tail(t));
    HeadTail(t);
    var x, y := Store21(CutLimbs(Head(t))), Store11(CutLimbs(Tail(t)));
    Append21(x, y);
  }

  lemma HalfValue(t: Eight)
    requires Canonical8(t) && Storable(CutLimbs(t))
    ensures LeNat(Store21(CutLimbs(t))) == Weigh8(t)
  {
    Store21Value(CutLimbs(t));
    CutLimbsWhole(t);
    SameNumber(CutLimbs(t));
  }

  lemma TailValue(t: Eight)
    requires Canonical4(t) && StorableTail(CutLimbs(t))
    ensures LeNat(Store11(CutLimbs(t))) == Weigh8(t)
  {
    Store11Value(CutLimbs(t));
    CutLimbsWhole(t);
    SameNumber(CutLimbs(t));
  }

  lemma Append21(x: seq<byte>, y: seq<byte>)
    requires |x| == 21
    ensures LeNat(x + y) == LeNat(x) + 0x100_0000_0000_0000_0000_0000_0000_0000_0000_0000_0000 * LeNat(y)
  {
    TwentyOne(x);
    assert x[21..] == [];
    var s := x + y;
    TwentyOne(s);
    assert s[21..] == y;
  }

  // ---------------------------------------------------------------- sc_reduce

  /** sc_reduce: the first 32 bytes become the residue in [0, l) of all 64. */
  method ScReduce(s: array<byte>)
    requires s.Length == 64
    modifies s
    ensures LeNat(s[..32]) == old(LeNat(s[..])) % ORDER && s[32..] == old(s[32..])
  {
    var b := s[..];
    var r := ReduceBytes(b);
    StoreValue(r);
    var out := Store(r);
    var i := 0;
    while i < 32
      invariant 0 <= i <= 32 && s[..i] == out[..i] && s[32..] == old(s[32..])
    {
      s[i] := out[i];
      i := i + 1;
    }
    assert s[..32] == out;
  }

  method ReduceBytes(b: seq<byte>) returns (r: Twelve<int64>)
    requires |b| == 64
    ensures Canonical12(r) && Weigh12(Ints12(r)) == LeNat(b) % ORDER
  {
    hide Loads, Weigh8, Weigh12;
    assert b[0..] == b;
    var g := LoadEight(b, 0);
    var h := LoadEight(b, 21);
    var k := LoadLast(b);
    r := ReduceGroups(g, h, k, LeNat(b));
  }

  method LoadEight(s: seq<byte>, i: nat) returns (t: Eight)
    requires i + 21 <= |s|
    ensures Loaded8(t) && t == Loads(s, i) && LeNat(s[i..]) == Weigh8(t)
      + 0x100_0000_0000_0000_0000_0000_0000_0000_0000_0000_0000 * LeNat(s[i + 21..])
  {
    GroupAt(s, i);
    LoadsRange(s, i);
    t := Loads(s, i);
  }

  /** The last limb takes all that is left. */
  method LoadLast(s: seq<byte>) returns (t: Eight)
    requires |s| == 64
    ensures Loaded8(t) && LeNat(s[42..]) == Weigh8(t)
  {
    t := LoadEight(s, 42);
    Limb7(s[60], s[61], s[62]);
    LastLimb(s[60], s[61], s[62], s[63]);
    assert s[63..] == [s[63]];
    assert LeNat(s[63..]) == s[63];
    var last := Load4(s, 60) / 8;
    assert last == t.x7 + 0x20_0000 * s[63] as int;
    t := t.(x7 := last);
  }

  lemma LoadsRange(s: seq<byte>, i: nat)
    requires i + 21 <= |s|
    ensures Canonical8(Loads(s, i))
  {}

  predicate Loaded8(t: Eight) {
    0 <= t.x0 < 0x2000_0000 && 0 <= t.x1 < 0x2000_0000 && 0 <= t.x2 < 0x2000_0000 && 0 <= t.x3 < 0x2000_0000
      && 0 <= t.x4 < 0x2000_0000 && 0 <= t.x5 < 0x2000_0000 && 0 <= t.x6 < 0x2000_0000 && 0 <= t.x7 < 0x2000_0000
  }

  method ReduceGroups(g: Eight, h: Eight, k: Eight, ghost n: int) returns (r: Twelve<int64>)
    requires Loaded8(g) && Loaded8(h) && Loaded8(k)
    requires n == Weigh8(g) + 0x100_0000_0000_0000_0000_0000_0000_0000_0000_0000_0000 * (Weigh8(h)
      + 0x100_0000_0000_0000_0000_0000_0000_0000_0000_0000_0000 * Weigh8(k))
    ensures Canonical12(r) && Weigh12(Ints12(r)) == n % ORDER
  {
    ThreeGroups(g, h, k);
    r := Reduce24(Six(g.x0 as int64, g.x1 as int64, g.x2 as int64, g.x3 as int64, g.x4 as int64, g.x5 as int64),
                  Twelve(g.x6 as int64, g.x7 as int64, h.x0 as int64, h.x1 as int64, h.x2 as int64, h.x3 as int64,
                    h.x4 as int64, h.x5 as int64, h.x6 as int64, h.x7 as int64, k.x0 as int64, k.x1 as int64),
                  Six(k.x2 as int64, k.x3 as int64, k.x4 as int64, k.x5 as int64, k.x6 as int64, k.x7 as int64), n);
  }
}
