/** SHA-3 as the boot code has it: the sponge over Keccak-f[1600] on 64-bit words, with the 200 bytes of the
    state seen as 25 little-endian words. */
module Sha3 {
  import opened Keccak
  import opened KeccakBits
  import opened Lanes
  import opened Sponge

  // ---------------------------------------------------------------- the round constants

  /** One step of the shift register of section 3.2.5 of FIPS 202; bit i of the byte is R[i]. */
  function Shift(r: bv8): bv8 {
    (r << 1) ^ (if r & 0x80 == 0x80 then 0x71 else 0)
  }

  function Register(t: nat): bv8 {
    if t == 0 then 1 else Shift(Register(t - 1))
  }

  /** A register state with the seven bits a round takes from there on. */
  function Seven(r: bv8): (bv64, bv8) {
    var r1 := Shift(r);
    var r2 := Shift(r1);
    var r3 := Shift(r2);
    var r4 := Shift(r3);
    var r5 := Shift(r4);
    var r6 := Shift(r5);
    (Out(r) | (Out(r1) << 1) | (Out(r2) << 3) | (Out(r3) << 7) | (Out(r4) << 15) | (Out(r5) << 31) | (Out(r6) << 63), Shift(r6))
  }

  function Out(r: bv8): bv64 {
    if r & 1 == 1 then 1 else 0
  }

  const RNDC: seq<bv64> := [
    0x0000000000000001, 0x0000000000008082, 0x800000000000808a, 0x8000000080008000, 0x000000000000808b, 0x0000000080000001,
    0x8000000080008081, 0x8000000000008009, 0x000000000000008a, 0x0000000000000088, 0x0000000080008009, 0x000000008000000a,
    0x000000008000808b, 0x800000000000008b, 0x8000000000008089, 0x8000000000008003, 0x8000000000008002, 0x8000000000000080,
    0x000000000000800a, 0x800000008000000a, 0x8000000080008081, 0x8000000000008080, 0x0000000080000001, 0x8000000080008008]

  /** The register before each round. */
  const STATES: seq<bv8> := [
    0x01, 0x80, 0xd8, 0x1a, 0xdf, 0x09, 0x35, 0x4f, 0xca, 0x70, 0x41, 0xec, 0xd5,
    0xcd, 0x63, 0xab, 0xaa, 0x2a, 0xf2, 0xe8, 0x37, 0x3e, 0x0b, 0x44, 0x8e]

  lemma FirstRows()
    ensures Seven(0x01) == (0x0000000000000001, 0x80)
    ensures Seven(0x80) == (0x0000000000008082, 0xd8)
    ensures Seven(0xd8) == (0x800000000000808a, 0x1a)
    ensures Seven(0x1a) == (0x8000000080008000, 0xdf)
    ensures Seven(0xdf) == (0x000000000000808b, 0x09)
    ensures Seven(0x09) == (0x0000000080000001, 0x35)
  {}

  lemma SecondRows()
    ensures Seven(0x35) == (0x8000000080008081, 0x4f)
    ensures Seven(0x4f) == (0x8000000000008009, 0xca)
    ensures Seven(0xca) == (0x000000000000008a, 0x70)
    ensures Seven(0x70) == (0x0000000000000088, 0x41)
    ensures Seven(0x41) == (0x0000000080008009, 0xec)
    ensures Seven(0xec) == (0x000000008000000a, 0xd5)
  {}

  lemma ThirdRows()
    ensures Seven(0xd5) == (0x000000008000808b, 0xcd)
    ensures Seven(0xcd) == (0x800000000000008b, 0x63)
    ensures Seven(0x63) == (0x8000000000008089, 0xab)
    ensures Seven(0xab) == (0x8000000000008003, 0xaa)
    ensures Seven(0xaa) == (0x8000000000008002, 0x2a)
    ensures Seven(0x2a) == (0x8000000000000080, 0xf2)
  {}

  lemma FourthRows()
    ensures Seven(0xf2) == (0x000000000000800a, 0xe8)
    ensures Seven(0xe8) == (0x800000008000000a, 0x37)
    ensures Seven(0x37) == (0x8000000080008081, 0x3e)
    ensures Seven(0x3e) == (0x8000000000008080, 0x0b)
    ensures Seven(0x0b) == (0x0000000080000001, 0x44)
    ensures Seven(0x44) == (0x8000000080008008, 0x8e)
  {}

  lemma TableRound(i: nat)
    requires i < 24
    ensures Seven(STATES[i]) == (RNDC[i], STATES[i + 1])
  {
    hide Seven;
    FirstRows();
    SecondRows();
    ThirdRows();
    FourthRows();
  }

  lemma SevenSteps(t: nat)
    ensures Register(t + 7) == Seven(Register(t)).1
  {
    assert Register(t + 2) == Shift(Shift(Register(t)));
    assert Register(t + 4) == Shift(Shift(Register(t + 2)));
    assert Register(t + 6) == Shift(Shift(Register(t + 4)));
  }

  lemma {:induction false} StateBefore(i: nat)
    requires i <= 24
    ensures Register(7 * i) == STATES[i]
  {
    if i > 0 {
      StateBefore(i - 1);
      SevenSteps(7 * (i - 1));
      TableRound(i - 1);
    }
  }

  /** Every constant of the table is the one the shift register gives. */
  lemma RoundConstants(i: nat)
    requires i < 24
    ensures RNDC[i] == Seven(Register(7 * i)).0
  {
    StateBefore(i);
    TableRound(i);
  }

  // ---------------------------------------------------------------- bytes and words

  /** The bits of a byte, the lowest first, and the byte of eight bits. */
  function BitsOf(b: bv8): (s: seq<bool>)
    ensures |s| == 8
  {
    [b & 1 == 1, (b >> 1) & 1 == 1, (b >> 2) & 1 == 1, (b >> 3) & 1 == 1,
     (b >> 4) & 1 == 1, (b >> 5) & 1 == 1, (b >> 6) & 1 == 1, (b >> 7) & 1 == 1]
  }

  function OctetOf(s: seq<bool>): bv8
    requires |s| == 8
  {
    Put(s[0], 0x01) | Put(s[1], 0x02) | Put(s[2], 0x04) | Put(s[3], 0x08) |
    Put(s[4], 0x10) | Put(s[5], 0x20) | Put(s[6], 0x40) | Put(s[7], 0x80)
  }

  function Put(b: bool, w: bv8): bv8 {
    if b then w else 0
  }

  lemma OctetBits(b: bv8)
    ensures OctetOf(BitsOf(b)) == b
  {}

  lemma BitsOctet(s: seq<bool>)
    requires |s| == 8
    ensures BitsOf(OctetOf(s)) == s
  {}

  /** The union of 200 bytes and 25 words on a little-endian machine: bit z of word i is bit z % 8 of byte
      8i + z / 8. */
  function ToWords(b: Block): (w: seq<Lane>)
    requires |b| == SIZE
    ensures |w| == 25
  {
    seq(25, i requires 0 <= i < 25 => Word(b[8 * i..8 * i + 8]))
  }

  function Word(b: seq<bv8>): Lane
    requires |b| == 8
  {
    seq(64, z requires 0 <= z < 64 => BitsOf(b[z / 8])[z % 8])
  }

  function Octets(w: Lane): (b: seq<bv8>)
    ensures |b| == 8
  {
    seq(8, i requires 0 <= i < 8 => OctetOf(w[8 * i..8 * i + 8]))
  }

  function ToBytes(w: seq<Lane>): (b: Block)
    ensures |b| == 8 * |w|
  {
    if w == [] then [] else ToBytes(w[..|w| - 1]) + Octets(w[|w| - 1])
  }

  lemma WordOctets(w: Lane)
    ensures Word(Octets(w)) == w
  {
    hide BitsOf, OctetOf;
    forall z | 0 <= z < 64
      ensures Word(Octets(w))[z] == w[z]
    {
      BitsOctet(w[8 * (z / 8)..8 * (z / 8) + 8]);
    }
  }

  lemma OctetsWord(b: seq<bv8>)
    requires |b| == 8
    ensures Octets(Word(b)) == b
  {
    hide BitsOf, OctetOf;
    forall i | 0 <= i < 8
      ensures Octets(Word(b))[i] == b[i]
    {
      assert Word(b)[8 * i..8 * i + 8] == BitsOf(b[i]);
      OctetBits(b[i]);
    }
  }

  lemma {:induction false} BytesAt(w: seq<Lane>, i: nat)
    requires i < |w|
    ensures ToBytes(w)[8 * i..8 * i + 8] == Octets(w[i])
  {
    var n := |w| - 1;
    if i < n {
      BytesAt(w[..n], i);
      assert ToBytes(w)[8 * i..8 * i + 8] == ToBytes(w[..n])[8 * i..8 * i + 8];
    }
  }

  /** The two views are of one state: writing words and reading them back changes nothing, nor does it the
      other way around. */
  lemma WordsBytes(w: seq<Lane>)
    requires |w| == 25
    ensures ToWords(ToBytes(w)) == w
  {
    forall i | 0 <= i < 25
      ensures ToWords(ToBytes(w))[i] == w[i]
    {
      BytesAt(w, i);
      WordOctets(w[i]);
    }
  }

  lemma BytesWords(b: Block)
    requires |b| == SIZE
    ensures ToBytes(ToWords(b)) == b
  {
    forall i | 0 <= i < SIZE
      ensures ToBytes(ToWords(b))[i] == b[i]
    {
      var j := i / 8;
      BytesAt(ToWords(b), j);
      OctetsWord(b[8 * j..8 * j + 8]);
      assert ToBytes(ToWords(b))[i] == ToBytes(ToWords(b))[8 * j..8 * j + 8][i - 8 * j];
    }
  }

  // ---------------------------------------------------------------- the padding

  function AllBits(s: seq<bv8>): (r: seq<bool>)
    ensures |r| == 8 * |s|
  {
    if s == [] then [] else AllBits(s[..|s| - 1]) + BitsOf(s[|s| - 1])
  }

  lemma {:induction false} AllBitsAt(s: seq<bv8>, i: nat, z: nat)
    requires i < |s| && z < 8
    ensures AllBits(s)[8 * i + z] == BitsOf(s[i])[z]
  {
    if i < |s| - 1 {
      AllBitsAt(s[..|s| - 1], i, z);
    }
  }

  lemma PadOctets(z: nat)
    requires z < 8
    ensures BitsOf(0x06)[z] == (z == 1 || z == 2) && BitsOf(0x80)[z] == (z == 7)
    ensures BitsOf(0x86)[z] == (z == 1 || z == 2 || z == 7) && !BitsOf(0)[z]
  {}

  /** In bits, the suffix 01 of SHA-3 and pad10*1 of section 5.1 of FIPS 202: 01, 1, zeros, 1. */
  lemma PadBits(k: nat, n: nat)
    requires n < 8 * k
    ensures AllBits(PadTo(k))[n] == (n == 1 || n == 2 || n == 8 * k - 1)
  {
    hide BitsOf;
    AllBitsAt(PadTo(k), n / 8, n % 8);
    PadOctets(n % 8);
  }

  // ---------------------------------------------------------------- the hash

  function Constants(): (rcs: seq<Lane>)
    ensures |rcs| == 24
  {
    seq(24, i requires 0 <= i < 24 => LaneOf(RNDC[i]))
  }

  /** Bits 0, 1, 3, 7, 15, 31 and 63 of round i's constant are seven successive outputs of the register, and
      there is no other bit in it. */
  lemma ConstantBits(i: nat)
    requires i < 24
    ensures var w, t := Constants()[i], 7 * i;
      && w[0] == Output(t) && w[1] == Output(t + 1) && w[3] == Output(t + 2) && w[7] == Output(t + 3)
      && w[15] == Output(t + 4) && w[31] == Output(t + 5) && w[63] == Output(t + 6)
    ensures RNDC[i] & 0x7FFF_FFFF_7FFF_7F74 == 0
  {
    hide Seven, Has;
    RoundConstants(i);
    SevenOutputs(7 * i);
    FewBits(Register(7 * i));
  }

  predicate Output(t: nat) {
    Out(Register(t)) == 1
  }

  lemma SevenOutputs(t: nat)
    ensures var w := Seven(Register(t)).0;
      && Has(w, 0) == Output(t) && Has(w, 1) == Output(t + 1) && Has(w, 3) == Output(t + 2)
      && Has(w, 7) == Output(t + 3) && Has(w, 15) == Output(t + 4) && Has(w, 31) == Output(t + 5)
      && Has(w, 63) == Output(t + 6)
  {
    assert Register(t + 2) == Shift(Shift(Register(t)));
    assert Register(t + 4) == Shift(Shift(Register(t + 2)));
    assert Register(t + 6) == Shift(Shift(Register(t + 4)));
    LowOutputs(Register(t));
    HighOutputs(Register(t));
  }

  lemma LowOutputs(r: bv8)
    ensures var w := Seven(r).0;
      && (Has(w, 0) <==> Out(r) == 1) && (Has(w, 1) <==> Out(Shift(r)) == 1)
      && (Has(w, 3) <==> Out(Shift(Shift(r))) == 1) && (Has(w, 7) <==> Out(Shift(Shift(Shift(r)))) == 1)
  {}

  lemma HighOutputs(r: bv8)
    ensures var w, r4 := Seven(r).0, Shift(Shift(Shift(Shift(r))));
      && (Has(w, 15) <==> Out(r4) == 1) && (Has(w, 31) <==> Out(Shift(r4)) == 1)
      && (Has(w, 63) <==> Out(Shift(Shift(r4))) == 1)
  {}

  lemma FewBits(r: bv8)
    ensures Seven(r).0 & 0x7FFF_FFFF_7FFF_7F74 == 0
  {}

  /** Keccak-f[1600] on the bytes of the state. */
  function Permute(b: Block): Block {
    if |b| == SIZE then ToBytes(Rounds(Words(), ToWords(b), Constants())) else b
  }

  lemma PermuteSize()
    ensures Permutation(Permute)
  {}

  /** On the words of the state it is 24 rounds, however often it is applied. */
  lemma PermuteWords(b: Block)
    requires |b| == SIZE
    ensures |Permute(b)| == SIZE && ToWords(Permute(b)) == Rounds(Words(), ToWords(b), Constants())
  {
    WordsBytes(Rounds(Words(), ToWords(b), Constants()));
  }

  /** It is a permutation: different states are never taken to one. */
  lemma PermuteInjective(b: Block, c: Block)
    requires |b| == |c| == SIZE && Permute(b) == Permute(c)
    ensures b == c
  {
    hide Permute, ToWords, ToBytes, Rounds;
    PermuteWords(b);
    PermuteWords(c);
    RoundsInjective(ToWords(b), ToWords(c), Constants());
    BytesWords(b);
    BytesWords(c);
  }

  /** sha3_keccakf on the words under the bytes of the state. */
  method KeccakBytes(b: Block) returns (r: Block)
    requires |b| == SIZE
    ensures r == Permute(b)
  {
    var w := ToWords(b);
    var st := new Lane[25](i requires 0 <= i < 25 => w[i]);
    assert st[..] == w;
    KeccakF(Words(), st, Constants());
    r := ToBytes(st[..]);
  }

  /** sha3: the digest of a message in any number of updates is the sponge over Keccak-f[1600]. */
  method Hash(mdlen: nat, parts: seq<seq<bv8>>) returns (md: seq<bv8>)
    requires mdlen < 100
    ensures Permutation(Permute) && md == Digest(Permute, mdlen, Joined(parts))
  {
    PermuteSize();
    md := Split(Permute, mdlen, parts);
  }
}
