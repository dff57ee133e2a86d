/** Keccak-f[1600] bit by bit: on 64-bit lanes the step maps are those of section 3.2 of FIPS 202, and each of
    them can be undone. */
module KeccakBits {
  import opened Arith
  import opened Keccak
  import opened Lanes

  /** The lane operations of the source. */
  function Words(): Ops<Lane> {
    Ops(Xor64, Rotl64, AndNot64)
  }

  type State = s: seq<Lane> | |s| == 25 witness seq(25, _ => seq(64, _ => false))

  predicate Place(x: nat, y: nat, z: nat) {
    x < 5 && y < 5 && z < 64
  }

  /** Bit z of lane (x, y). */
  predicate A(s: State, x: nat, y: nat, z: nat)
    requires Place(x, y, z)
  {
    s[5 * y + x][z]
  }

  predicate Xor(p: bool, q: bool) {
    p != q
  }

  /** The parity of a column. */
  predicate C(s: State, x: nat, z: nat)
    requires x < 5 && z < 64
  {
    Xor(Xor(Xor(Xor(A(s, x, 0, z), A(s, x, 1, z)), A(s, x, 2, z)), A(s, x, 3, z)), A(s, x, 4, z))
  }

  // ---------------------------------------------------------------- the step maps

  lemma ColumnBit(s: State, x: nat, z: nat)
    requires x < 5 && z < 64
    ensures Column(Words(), s, x)[z] == C(s, x, z)
  {}

  lemma ParityBit(s: State, x: nat, z: nat)
    requires x < 5 && z < 64
    ensures Parity(Words(), s, x)[z] == Xor(C(s, (x + 4) % 5, z), C(s, (x + 1) % 5, (z + 63) % 64))
  {
    hide Column, C, Rotl64;
    ColumnBit(s, (x + 4) % 5, z);
    ColumnBit(s, (x + 1) % 5, (z + 63) % 64);
    RotlBit(Column(Words(), s, (x + 1) % 5), 1, (z + 63) % 64);
    assert ((z + 63) % 64 + 1) % 64 == z;
  }

  /** Theta adds to every bit the parities of the columns to its left, and to its right one place down. */
  lemma ThetaBit(s: State, x: nat, y: nat, z: nat)
    requires Place(x, y, z)
    ensures A(Theta(Words(), s), x, y, z)
         == Xor(A(s, x, y, z), Xor(C(s, (x + 4) % 5, z), C(s, (x + 1) % 5, (z + 63) % 64)))
  {
    hide Parity, C;
    ParityBit(s, x, z);
    assert Theta(Words(), s)[5 * y + x] == Xor64(s[5 * y + x], Parity(Words(), s, x));
  }

  /** The rotation of lane (x, y). */
  function Turn(x: nat, y: nat): nat {
    if x == 0 && y == 0 then 0 else Offset(5 * y + x, 0)
  }

  /** Rho and pi: every bit of lane (a, b) goes to lane (b, 2a + 3b), the lane's rotation further up. */
  lemma RhoPiBit(s: State, a: nat, b: nat, z: nat)
    requires Place(a, b, z)
    ensures A(RhoPi(Words(), s), b, (2 * a + 3 * b) % 5, (z + Turn(a, b)) % 64) == A(s, a, b, z)
  {
    hide Offset, Source, Rotl64;
    SourceBack(a, b);
    RotlBit(s[5 * b + a], Turn(a, b), z);
    assert b == 0 && (2 * a + 3 * b) % 5 == 0 ==> a == 0;
  }

  /** Chi adds to every bit the product of the complement of the next one in its row and the one after. */
  lemma ChiBit(s: State, x: nat, y: nat, z: nat)
    requires Place(x, y, z)
    ensures A(Chi(Words(), s), x, y, z)
         == Xor(A(s, x, y, z), !A(s, (x + 1) % 5, y, z) && A(s, (x + 2) % 5, y, z))
  {
    assert (5 * y + x) % 5 == x;
  }

  lemma IotaBit(s: State, rc: Lane, x: nat, y: nat, z: nat)
    requires Place(x, y, z)
    ensures A(s[0 := Xor64(s[0], rc)], x, y, z) == Xor(A(s, x, y, z), x == 0 && y == 0 && rc[z])
  {}

  // ---------------------------------------------------------------- each can be undone

  ghost predicate SameBits(s: State, t: State) {
    forall x: nat, y: nat, z: nat :: Place(x, y, z) ==> A(s, x, y, z) == A(t, x, y, z)
  }

  lemma BitsDecide(s: State, t: State)
    requires SameBits(s, t)
    ensures s == t
  {
    forall i | 0 <= i < 25
      ensures s[i] == t[i]
    {
      forall z | 0 <= z < 64
        ensures s[i][z] == t[i][z]
      {
        assert A(s, i % 5, i / 5, z) == A(t, i % 5, i / 5, z);
      }
    }
  }

  /** A row of chi has one origin. */
  lemma RowDecides(a: bool, b: bool, c: bool, d: bool, e: bool, a': bool, b': bool, c': bool, d': bool, e': bool)
    requires Xor(a, !b && c) == Xor(a', !b' && c') && Xor(b, !c && d) == Xor(b', !c' && d')
    requires Xor(c, !d && e) == Xor(c', !d' && e') && Xor(d, !e && a) == Xor(d', !e' && a')
    requires Xor(e, !a && b) == Xor(e', !a' && b')
    ensures a == a' && b == b' && c == c' && d == d' && e == e'
  {}

  lemma ChiSame(s: State, t: State, x: nat, y: nat, z: nat)
    requires Place(x, y, z) && Chi(Words(), s) == Chi(Words(), t)
    ensures Xor(A(s, x, y, z), !A(s, (x + 1) % 5, y, z) && A(s, (x + 2) % 5, y, z))
         == Xor(A(t, x, y, z), !A(t, (x + 1) % 5, y, z) && A(t, (x + 2) % 5, y, z))
  {
    hide Chi, A;
    ChiBit(s, x, y, z);
    ChiBit(t, x, y, z);
  }

  lemma ChiRow(s: State, t: State, y: nat, z: nat)
    requires y < 5 && z < 64 && Chi(Words(), s) == Chi(Words(), t)
    ensures forall x: nat :: x < 5 ==> A(s, x, y, z) == A(t, x, y, z)
  {
    hide Chi, A;
    ChiSame(s, t, 0, y, z);
    ChiSame(s, t, 1, y, z);
    ChiSame(s, t, 2, y, z);
    ChiSame(s, t, 3, y, z);
    ChiSame(s, t, 4, y, z);
    RowDecides(A(s, 0, y, z), A(s, 1, y, z), A(s, 2, y, z), A(s, 3, y, z), A(s, 4, y, z),
               A(t, 0, y, z), A(t, 1, y, z), A(t, 2, y, z), A(t, 3, y, z), A(t, 4, y, z));
  }

  lemma ChiInjective(s: State, t: State)
    requires Chi(Words(), s) == Chi(Words(), t)
    ensures s == t
  {
    hide Chi, A;
    forall x: nat, y: nat, z: nat | Place(x, y, z)
      ensures A(s, x, y, z) == A(t, x, y, z)
    {
      ChiRow(s, t, y, z);
    }
    BitsDecide(s, t);
  }

  lemma RhoPiInjective(s: State, t: State)
    requires RhoPi(Words(), s) == RhoPi(Words(), t)
    ensures s == t
  {
    hide RhoPi, A, Turn;
    forall x: nat, y: nat, z: nat | Place(x, y, z)
      ensures A(s, x, y, z) == A(t, x, y, z)
    {
      RhoPiBit(s, x, y, z);
      RhoPiBit(t, x, y, z);
    }
    BitsDecide(s, t);
  }

  /** A plane of bits in which every column is the sum of the one a to its left and the one a to its right,
      the latter n places down. */
  predicate SumAt(p: (nat, nat) -> bool, a: nat, n: nat, x: nat, z: nat)
    requires n <= 64
  {
    x < 5 && z < 64 ==> p(x, z) == Xor(p((x + 4 * a) % 5, z), p((x + a) % 5, (z + 64 - n) % 64))
  }

  ghost predicate Sums(p: (nat, nat) -> bool, a: nat, n: nat)
    requires n <= 64
  {
    forall x: nat, z: nat :: SumAt(p, a, n, x, z)
  }

  lemma Onward(x: nat, d: int, m: nat)
    requires m > 0
    ensures (x % m + d) % m == (x + d) % m
  {
    DivMod(x, m);
    ModShift(x % m + d, x / m, m);
  }

  lemma Steps(x: nat, a: nat, z: nat, n: nat)
    requires x < 5 && z < 64 && n <= 32
    ensures ((x + 4 * a) % 5 + 4 * a) % 5 == (x + 4 * (2 * a)) % 5 && ((x + 4 * a) % 5 + a) % 5 == x
    ensures ((x + a) % 5 + a) % 5 == (x + 2 * a) % 5 && ((x + a) % 5 + 4 * a) % 5 == x
    ensures ((z + 64 - n) % 64 + 64 - n) % 64 == (z + 64 - 2 * n) % 64
  {
    Aside(x, a);
    Onward(z + 64 - n, 64 - n, 64);
    ModShift(z + 64 - 2 * n, 1, 64);
  }

  lemma Aside(x: nat, a: nat)
    requires x < 5
    ensures ((x + 4 * a) % 5 + 4 * a) % 5 == (x + 4 * (2 * a)) % 5 && ((x + 4 * a) % 5 + a) % 5 == x
    ensures ((x + a) % 5 + a) % 5 == (x + 2 * a) % 5 && ((x + a) % 5 + 4 * a) % 5 == x
  {
    OnwardTo(x + 4 * a, 4 * a, x + 4 * (2 * a));
    OnwardTo(x + 4 * a, a, x + 5 * a);
    OnwardTo(x + a, a, x + 2 * a);
    OnwardTo(x + a, 4 * a, x + 5 * a);
    FiveTurns(x, a);
  }

  lemma OnwardTo(x: nat, d: int, y: int)
    requires x + d == y
    ensures (x % 5 + d) % 5 == y % 5
  {
    Onward(x, d, 5);
  }

  lemma FiveTurns(x: nat, a: nat)
    requires x < 5
    ensures (x + 5 * a) % 5 == x
  {
    ModShift(x, a, 5);
  }

  /** Adding up both neighbours' sums, the column itself cancels. */
  lemma DoubledAt(p: (nat, nat) -> bool, a: nat, n: nat, x: nat, z: nat)
    requires n <= 32 && x < 5 && z < 64
    requires SumAt(p, a, n, x, z) && SumAt(p, a, n, (x + 4 * a) % 5, z)
    requires SumAt(p, a, n, (x + a) % 5, (z + 64 - n) % 64)
    ensures SumAt(p, 2 * a, 2 * n, x, z)
  {
    Steps(x, a, z, n);
  }

  lemma Doubled(p: (nat, nat) -> bool, a: nat, n: nat)
    requires n <= 32 && Sums(p, a, n)
    ensures Sums(p, 2 * a, 2 * n)
  {
    forall x: nat, z: nat
      ensures SumAt(p, 2 * a, 2 * n, x, z)
    {
      if x < 5 && z < 64 {
        hide SumAt;
        DoubledAt(p, a, n, x, z);
      }
    }
  }

  /** After six doublings the rotation has come around, and only the empty plane is left. */
  lemma NoSums(p: (nat, nat) -> bool, x: nat, z: nat)
    requires Sums(p, 1, 1) && x < 5 && z < 64
    ensures !p(x, z)
  {
    Doubled(p, 1, 1);
    Doubled(p, 2, 2);
    Doubled(p, 4, 4);
    Doubled(p, 8, 8);
    Doubled(p, 16, 16);
    Doubled(p, 32, 32);
    LastSums(p, z);
  }

  lemma LastSums(p: (nat, nat) -> bool, z: nat)
    requires Sums(p, 64, 64) && z < 64
    ensures !p(0, z) && !p(1, z) && !p(2, z) && !p(3, z) && !p(4, z)
  {
    assert SumAt(p, 64, 64, 0, z) && SumAt(p, 64, 64, 1, z) && SumAt(p, 64, 64, 2, z)
        && SumAt(p, 64, 64, 3, z) && SumAt(p, 64, 64, 4, z);
  }

  /** Where two states' column parities differ. */
  function Differs(s: State, t: State): (nat, nat) -> bool {
    (x: nat, z: nat) => x < 5 && z < 64 && Xor(C(s, x, z), C(t, x, z))
  }

  lemma ThetaSame(s: State, t: State, x: nat, y: nat, z: nat)
    requires Place(x, y, z) && Theta(Words(), s) == Theta(Words(), t)
    ensures var p := Differs(s, t);
      Xor(A(s, x, y, z), A(t, x, y, z)) == Xor(p((x + 4) % 5, z), p((x + 1) % 5, (z + 63) % 64))
  {
    hide Theta, A, C;
    ThetaBit(s, x, y, z);
    ThetaBit(t, x, y, z);
  }

  lemma ParitiesSum(s: State, t: State, x: nat, z: nat)
    requires Theta(Words(), s) == Theta(Words(), t)
    ensures SumAt(Differs(s, t), 1, 1, x, z)
  {
    hide Theta, A;
    if x < 5 && z < 64 {
      ThetaSame(s, t, x, 0, z);
      ThetaSame(s, t, x, 1, z);
      ThetaSame(s, t, x, 2, z);
      ThetaSame(s, t, x, 3, z);
      ThetaSame(s, t, x, 4, z);
    }
  }

  lemma ThetaInjective(s: State, t: State)
    requires Theta(Words(), s) == Theta(Words(), t)
    ensures s == t
  {
    hide Theta, A, Differs, SumAt;
    var p := Differs(s, t);
    forall x: nat, z: nat
      ensures SumAt(p, 1, 1, x, z)
    {
      ParitiesSum(s, t, x, z);
    }
    forall x: nat, y: nat, z: nat | Place(x, y, z)
      ensures A(s, x, y, z) == A(t, x, y, z)
    {
      ThetaSame(s, t, x, y, z);
      NoSums(p, (x + 4) % 5, z);
      NoSums(p, (x + 1) % 5, (z + 63) % 64);
    }
    BitsDecide(s, t);
  }

  lemma IotaInjective(s: State, t: State, rc: Lane)
    requires s[0 := Xor64(s[0], rc)] == t[0 := Xor64(t[0], rc)]
    ensures s == t
  {
    hide A;
    var s', t' := s[0 := Xor64(s[0], rc)], t[0 := Xor64(t[0], rc)];
    forall x: nat, y: nat, z: nat | Place(x, y, z)
      ensures A(s, x, y, z) == A(t, x, y, z)
    {
      IotaBit(s, rc, x, y, z);
      IotaBit(t, rc, x, y, z);
    }
    BitsDecide(s, t);
  }

  lemma RoundInjective(s: State, t: State, rc: Lane)
    requires Round(Words(), s, rc) == Round(Words(), t, rc)
    ensures s == t
  {
    hide Theta, RhoPi, Chi;
    var s1, t1 := Theta(Words(), s), Theta(Words(), t);
    var s2, t2 := RhoPi(Words(), s1), RhoPi(Words(), t1);
    var s3, t3 := Chi(Words(), s2), Chi(Words(), t2);
    IotaInjective(s3, t3, rc);
    ChiInjective(s2, t2);
    RhoPiInjective(s1, t1);
    ThetaInjective(s, t);
  }

  /** Different states stay different through all rounds. */
  lemma {:induction false} RoundsInjective(s: State, t: State, rcs: seq<Lane>)
    requires Rounds(Words(), s, rcs) == Rounds(Words(), t, rcs)
    ensures s == t
  {
    hide Round, Words;
    if |rcs| > 0 {
      var rest := rcs[..|rcs| - 1];
      RoundInjective(Rounds(Words(), s, rest), Rounds(Words(), t, rest), rcs[|rcs| - 1]);
      RoundsInjective(s, t, rest);
    }
  }
}
