/** Scalars modulo the group order l in 21-bit limbs: the folds and carries that bring 24 limbs down to the
    residue in [0, l), with no 64-bit overflow. */
module ScalarLimbs {
  import opened Arith
  import opened Field

  const ORDER: nat := 0x1000_0000_0000_0000_0000_0000_0000_0000_14de_f9de_a2f7_9cd6_5812_631a_5cf5_d3ed

  const TWO252: int := 0x1000_0000_0000_0000_0000_0000_0000_0000_0000_0000_0000_0000_0000_0000_0000_0000

  const TWO378: int :=
    0x400_0000_0000_0000_0000_0000_0000_0000_0000_0000_0000_0000_0000_0000_0000_0000_0000_0000_0000_0000_0000_0000_0000_0000

  /** Twelve centred limbs stay 2^200 short of it. */
  const TWO252_EDGE: int := 0xfff_ffff_ffff_ff00_0000_0000_0000_0000_0000_0000_0000_0000_0000_0000_0000_0000

  datatype Six<T> = Six(x0: T, x1: T, x2: T, x3: T, x4: T, x5: T)
  datatype Twelve<T> = Twelve(x0: T, x1: T, x2: T, x3: T, x4: T, x5: T, x6: T, x7: T, x8: T, x9: T, x10: T, x11: T)

  function Weigh6(t: Six<int>): int {
    t.x0 + 0x20_0000 * t.x1 + 0x400_0000_0000 * t.x2 + 0x8000_0000_0000_0000 * t.x3 + 0x10_0000_0000_0000_0000_0000 * t.x4
      + 0x200_0000_0000_0000_0000_0000_0000 * t.x5
  }

  function Weigh12(t: Twelve<int>): int {
    t.x0
    + 0x20_0000 * t.x1
    + 0x400_0000_0000 * t.x2
    + 0x8000_0000_0000_0000 * t.x3
    + 0x10_0000_0000_0000_0000_0000 * t.x4
    + 0x200_0000_0000_0000_0000_0000_0000 * t.x5
    + 0x4000_0000_0000_0000_0000_0000_0000_0000 * t.x6
    + 0x8_0000_0000_0000_0000_0000_0000_0000_0000_0000 * t.x7
    + 0x100_0000_0000_0000_0000_0000_0000_0000_0000_0000_0000 * t.x8
    + 0x2000_0000_0000_0000_0000_0000_0000_0000_0000_0000_0000_0000 * t.x9
    + 0x4_0000_0000_0000_0000_0000_0000_0000_0000_0000_0000_0000_0000_0000 * t.x10
    + 0x80_0000_0000_0000_0000_0000_0000_0000_0000_0000_0000_0000_0000_0000_0000 * t.x11
  }

  function Ints6(t: Six<int64>): Six<int> {
    Six(t.x0 as int, t.x1 as int, t.x2 as int, t.x3 as int, t.x4 as int, t.x5 as int)
  }

  function Ints12(t: Twelve<int64>): Twelve<int> {
    Twelve(t.x0 as int, t.x1 as int, t.x2 as int, t.x3 as int, t.x4 as int, t.x5 as int, t.x6 as int, t.x7 as int, t.x8 as int,
      t.x9 as int, t.x10 as int, t.x11 as int)
  }

  predicate All6(t: Six<int64>, b: int) {
    In(t.x0, b) && In(t.x1, b) && In(t.x2, b) && In(t.x3, b) && In(t.x4, b) && In(t.x5, b)
  }

  predicate All12(t: Twelve<int64>, b: int) {
    && In(t.x0, b) && In(t.x1, b) && In(t.x2, b) && In(t.x3, b) && In(t.x4, b) && In(t.x5, b)
    && In(t.x6, b) && In(t.x7, b) && In(t.x8, b) && In(t.x9, b) && In(t.x10, b) && In(t.x11, b)
  }

  // ---------------------------------------------------------------- folding

  function FoldInt(x: int, a0: int, a1: int, a2: int, a3: int, a4: int, a5: int): int {
    x + 666643 * a0 + 470296 * a1 + 654183 * a2 - 997805 * a3 + 136657 * a4 - 683901 * a5
  }

  function Folded(t: Twelve<int>, h: Six<int>): Twelve<int> {
    Twelve(FoldInt(t.x0, h.x0, 0, 0, 0, 0, 0),
           FoldInt(t.x1, h.x1, h.x0, 0, 0, 0, 0),
           FoldInt(t.x2, h.x2, h.x1, h.x0, 0, 0, 0),
           FoldInt(t.x3, h.x3, h.x2, h.x1, h.x0, 0, 0),
           FoldInt(t.x4, h.x4, h.x3, h.x2, h.x1, h.x0, 0),
           FoldInt(t.x5, h.x5, h.x4, h.x3, h.x2, h.x1, h.x0),
           FoldInt(t.x6, 0, h.x5, h.x4, h.x3, h.x2, h.x1),
           FoldInt(t.x7, 0, 0, h.x5, h.x4, h.x3, h.x2),
           FoldInt(t.x8, 0, 0, 0, h.x5, h.x4, h.x3),
           FoldInt(t.x9, 0, 0, 0, 0, h.x5, h.x4),
           FoldInt(t.x10, 0, 0, 0, 0, 0, h.x5),
           t.x11)
  }

  /** 2^252 is congruent to the six-limb constant modulo l. */
  lemma FoldedValue(t: Twelve<int>, h: Six<int>)
    ensures Weigh12(Folded(t, h)) == Weigh12(t) + TWO252 * Weigh6(h) - ORDER * Weigh6(h)
  {}

  /** What one limb receives from six limbs, each with its own part of the constant. */
  function Fold(x: int64, a0: int64, a1: int64, a2: int64, a3: int64, a4: int64, a5: int64, ghost b: int): (r: int64)
    requires In(x, b) && In(a0, b) && In(a1, b) && In(a2, b) && In(a3, b) && In(a4, b) && In(a5, b) && 0 <= b <= 0x8000_0000
    ensures In(r, 3609486 * b)
    ensures r as int == FoldInt(x as int, a0 as int, a1 as int, a2 as int, a3 as int, a4 as int, a5 as int)
  {
    x + a0 * 666643 + a1 * 470296 + a2 * 654183 - a3 * 997805 + a4 * 136657 - a5 * 683901
  }

  /** The six limbs above 2^252 folded down, highest first. */
  method FoldSix(t: Twelve<int64>, h: Six<int64>, ghost b: int) returns (r: Twelve<int64>)
    requires All12(t, b) && All6(h, b) && 0 <= b <= 0x8000_0000
    ensures Weigh12(Ints12(r)) == Weigh12(Ints12(t)) + TWO252 * Weigh6(Ints6(h)) - ORDER * Weigh6(Ints6(h))
    ensures All12(r, 3609486 * b) && r.x11 == t.x11
  {
    r := Twelve(
      Fold(t.x0, h.x0, 0, 0, 0, 0, 0, b),
      Fold(t.x1, h.x1, h.x0, 0, 0, 0, 0, b),
      Fold(t.x2, h.x2, h.x1, h.x0, 0, 0, 0, b),
      Fold(t.x3, h.x3, h.x2, h.x1, h.x0, 0, 0, b),
      Fold(t.x4, h.x4, h.x3, h.x2, h.x1, h.x0, 0, b),
      Fold(t.x5, h.x5, h.x4, h.x3, h.x2, h.x1, h.x0, b),
      Fold(t.x6, 0, h.x5, h.x4, h.x3, h.x2, h.x1, b),
      Fold(t.x7, 0, 0, h.x5, h.x4, h.x3, h.x2, b),
      Fold(t.x8, 0, 0, 0, h.x5, h.x4, h.x3, b),
      Fold(t.x9, 0, 0, 0, 0, h.x5, h.x4, b),
      Fold(t.x10, 0, 0, 0, 0, 0, h.x5, b),
      t.x11);
    FoldedValue(Ints12(t), Ints6(h));
  }

  /** One limb folded down. */
  method FoldOne(t: Twelve<int64>, h: int64) returns (r: Twelve<int64>)
    requires All12(t, 0x2_0000_0000) && In(h, 0x2000)
    ensures Weigh12(Ints12(r)) == Weigh12(Ints12(t)) + TWO252 * h as int - ORDER * h as int
    ensures r.x6 == t.x6 && r.x7 == t.x7 && r.x8 == t.x8 && r.x9 == t.x9 && r.x10 == t.x10 && r.x11 == t.x11
    ensures All12(r, 0x4_0000_0000)
  {
    r := Twelve(t.x0 + h * 666643, t.x1 + h * 470296, t.x2 + h * 654183, t.x3 - h * 997805, t.x4 + h * 136657,
      t.x5 - h * 683901,
                t.x6, t.x7, t.x8, t.x9, t.x10, t.x11);
  }

  // ---------------------------------------------------------------- carries

  /** Rounded and floored division by 2^21. */
  method Round21(x: int64, ghost k: int) returns (c: int64)
    requires In(x, 0x20_0000 * k) && 0 <= k <= 0x200_0000_0000
    ensures -0x10_0000 <= x as int - 0x20_0000 * c as int < 0x10_0000 && In(c, k + 1)
  {
    c := (x + 0x10_0000) / 0x20_0000;
  }

  method Floor21(x: int64, ghost k: int) returns (c: int64)
    requires In(x, 0x20_0000 * k)
    ensures 0 <= x as int - 0x20_0000 * c as int < 0x20_0000 && In(c, k + 1)
  {
    c := x / 0x20_0000;
  }

  /** Moving carries up one limb does not change the number. */
  function Carried(t: Twelve<int>, c0: int, c1: int, c2: int, c3: int, c4: int, c5: int, c6: int, c7: int, c8: int, c9: int,
    c10: int): Twelve<int> {
    Twelve(t.x0 - 0x20_0000 * c0, t.x1 + c0 - 0x20_0000 * c1, t.x2 + c1 - 0x20_0000 * c2, t.x3 + c2 - 0x20_0000 * c3, t.x4
      + c3 - 0x20_0000 * c4, t.x5 + c4 - 0x20_0000 * c5,
           t.x6 + c5 - 0x20_0000 * c6, t.x7 + c6 - 0x20_0000 * c7, t.x8 + c7 - 0x20_0000 * c8, t.x9 + c8 - 0x20_0000 * c9,
             t.x10 + c9 - 0x20_0000 * c10, t.x11 + c10)
  }

  lemma CarriedValue(t: Twelve<int>, c0: int, c1: int, c2: int, c3: int, c4: int, c5: int, c6: int, c7: int, c8: int, c9: int,
    c10: int)
    ensures Weigh12(Carried(t, c0, c1, c2, c3, c4, c5, c6, c7, c8, c9, c10)) == Weigh12(t)
  {}

  /** Rounded carries out of the even limbs, then out of the odd ones but the last. */
  method RoundTwelve(t: Twelve<int64>, ghost c: int, ghost b: int) returns (r: Twelve<int64>)
    requires All12(t, 0x20_0000 * c) && 1 <= c <= 0x1_0000_0000 && In(t.x11, b) && 0 <= b
    ensures Weigh12(Ints12(r)) == Weigh12(Ints12(t))
    ensures All12(r.(x11 := 0), c + 0x20_0000) && In(r.x11, b + c + 1) && In(r.x0, 0x10_0000)
  {
    var u := RoundEven(t, c, b);
    r := RoundOdd(u, c, b);
  }

  method RoundEven(t: Twelve<int64>, ghost c: int, ghost b: int) returns (r: Twelve<int64>)
    requires All12(t, 0x20_0000 * c) && 1 <= c <= 0x1_0000_0000 && In(t.x11, b) && 0 <= b
    ensures Weigh12(Ints12(r)) == Weigh12(Ints12(t))
    ensures In(r.x0, 0x10_0000) && In(r.x2, 0x10_0000) && In(r.x4, 0x10_0000) && In(r.x6, 0x10_0000) && In(r.x8, 0x10_0000)
      && In(r.x10, 0x10_0000)
    ensures In(r.x1, 0x20_0000 * (c + 0x801)) && In(r.x3, 0x20_0000 * (c + 0x801)) && In(r.x5, 0x20_0000 * (c + 0x801))
      && In(r.x7, 0x20_0000 * (c + 0x801)) && In(r.x9, 0x20_0000 * (c + 0x801)) && In(r.x11, b + c + 1)
  {
    var c0 := Round21(t.x0, c);
    var c2 := Round21(t.x2, c);
    var c4 := Round21(t.x4, c);
    var c6 := Round21(t.x6, c);
    var c8 := Round21(t.x8, c);
    var c10 := Round21(t.x10, c);
    r := Twelve(t.x0 - c0 * 0x20_0000, t.x1 + c0, t.x2 - c2 * 0x20_0000, t.x3 + c2, t.x4 - c4 * 0x20_0000, t.x5 + c4,
      t.x6 - c6 * 0x20_0000, t.x7 + c6, t.x8 - c8 * 0x20_0000, t.x9 + c8, t.x10 - c10 * 0x20_0000, t.x11 + c10);
    CarriedValue(Ints12(t), c0 as int, 0, c2 as int, 0, c4 as int, 0, c6 as int, 0, c8 as int, 0, c10 as int);
  }

  method RoundOdd(t: Twelve<int64>, ghost c: int, ghost b: int) returns (r: Twelve<int64>)
    requires In(t.x0, 0x10_0000) && In(t.x2, 0x10_0000) && In(t.x4, 0x10_0000) && In(t.x6, 0x10_0000) && In(t.x8, 0x10_0000)
      && In(t.x10, 0x10_0000) && 1 <= c <= 0x1_0000_0000
    requires In(t.x1, 0x20_0000 * (c + 0x801)) && In(t.x3, 0x20_0000 * (c + 0x801)) && In(t.x5, 0x20_0000 * (c + 0x801))
      && In(t.x7, 0x20_0000 * (c + 0x801)) && In(t.x9, 0x20_0000 * (c + 0x801)) && In(t.x11, b + c + 1)
    ensures Weigh12(Ints12(r)) == Weigh12(Ints12(t))
    ensures All12(r.(x11 := 0), c + 0x20_0000) && r.x11 == t.x11 && r.x0 == t.x0
  {
    hide Weigh12;
    var c1 := Round21(t.x1, c + 0x801);
    var c3 := Round21(t.x3, c + 0x801);
    var c5 := Round21(t.x5, c + 0x801);
    var c7 := Round21(t.x7, c + 0x801);
    var c9 := Round21(t.x9, c + 0x801);
    r := Twelve(t.x0, t.x1 - c1 * 0x20_0000, t.x2 + c1, t.x3 - c3 * 0x20_0000, t.x4 + c3, t.x5 - c5 * 0x20_0000, t.x6 + c5,
      t.x7 - c7 * 0x20_0000, t.x8 + c7, t.x9 - c9 * 0x20_0000, t.x10 + c9, t.x11);
    CarriedValue(Ints12(t), 0, c1 as int, 0, c3 as int, 0, c5 as int, 0, c7 as int, 0, c9 as int, 0);
  }

  predicate Digits6(t: Six<int64>) {
    0 <= t.x0 < 0x20_0000 && 0 <= t.x1 < 0x20_0000 && 0 <= t.x2 < 0x20_0000 && 0 <= t.x3 < 0x20_0000
      && 0 <= t.x4 < 0x20_0000 && 0 <= t.x5 < 0x20_0000
  }

  lemma Carried6(t: Six<int>, c0: int, c1: int, c2: int, c3: int, c4: int, c5: int)
    ensures Weigh6(Six(t.x0 - 0x20_0000 * c0, t.x1 + c0 - 0x20_0000 * c1, t.x2 + c1 - 0x20_0000 * c2, t.x3
      + c2 - 0x20_0000 * c3, t.x4 + c3 - 0x20_0000 * c4, t.x5 + c4 - 0x20_0000 * c5))
      == Weigh6(t) - 0x4000_0000_0000_0000_0000_0000_0000_0000 * c5
  {}

  /** Floored carries through six limbs. */
  method FloorSix(t: Six<int64>) returns (r: Six<int64>, c5: int64)
    requires All6(t, 0x4_0020_0000)
    ensures Weigh6(Ints6(r)) == Weigh6(Ints6(t)) - 0x4000_0000_0000_0000_0000_0000_0000_0000 * c5 as int && Digits6(r)
      && In(c5, 0x2003)
  {
    var c0 := Floor21(t.x0, 0x2001);
    var c1 := Floor21(t.x1 + c0, 0x2002);
    var c2 := Floor21(t.x2 + c1, 0x2002);
    var c3 := Floor21(t.x3 + c2, 0x2002);
    var c4 := Floor21(t.x4 + c3, 0x2002);
    c5 := Floor21(t.x5 + c4, 0x2002);
    r := Six(t.x0 - c0 * 0x20_0000, t.x1 + c0 - c1 * 0x20_0000, t.x2 + c1 - c2 * 0x20_0000, t.x3 + c2 - c3 * 0x20_0000, t.x4
      + c3 - c4 * 0x20_0000, t.x5 + c4 - c5 * 0x20_0000);
    Carried6(Ints6(t), c0 as int, c1 as int, c2 as int, c3 as int, c4 as int, c5 as int);
  }

  /** And through five, the last limb keeping what it gets. */
  method FloorFive(t: Six<int64>) returns (r: Six<int64>)
    requires All6(t, 0x4_0020_0000)
    ensures Weigh6(Ints6(r)) == Weigh6(Ints6(t)) && Digits6(r.(x5 := 0)) && In(r.x5, 0x4_0040_0000)
  {
    var c0 := Floor21(t.x0, 0x2001);
    var c1 := Floor21(t.x1 + c0, 0x2002);
    var c2 := Floor21(t.x2 + c1, 0x2002);
    var c3 := Floor21(t.x3 + c2, 0x2002);
    var c4 := Floor21(t.x4 + c3, 0x2002);
    r := Six(t.x0 - c0 * 0x20_0000, t.x1 + c0 - c1 * 0x20_0000, t.x2 + c1 - c2 * 0x20_0000, t.x3 + c2 - c3 * 0x20_0000, t.x4
      + c3 - c4 * 0x20_0000, t.x5 + c4);
    Carried6(Ints6(t), c0 as int, c1 as int, c2 as int, c3 as int, c4 as int, 0);
  }

  /** The floored carries out of limbs 0 to 10. */
  method FloorEleven(t: Twelve<int64>) returns (r: Twelve<int64>)
    requires All12(t, 0x4_0000_0000)
    ensures Weigh12(Ints12(r)) == Weigh12(Ints12(t)) && Canonical12(r.(x11 := 0)) && In(r.x11, 0x4_0040_0000)
  {
    var low, c := FloorSix(Six(t.x0, t.x1, t.x2, t.x3, t.x4, t.x5));
    var high := FloorFive(Six(t.x6 + c, t.x7, t.x8, t.x9, t.x10, t.x11));
    r := Twelve(low.x0, low.x1, low.x2, low.x3, low.x4, low.x5, high.x0, high.x1, high.x2, high.x3, high.x4, high.x5);
    Halves12(Ints12(t));
    Halves12(Ints12(r));
  }

  lemma Halves12(t: Twelve<int>)
    ensures Weigh12(t) == Weigh6(Six(t.x0, t.x1, t.x2, t.x3, t.x4, t.x5))
      + 0x4000_0000_0000_0000_0000_0000_0000_0000 * Weigh6(Six(t.x6, t.x7, t.x8, t.x9, t.x10, t.x11))
  {}

  // ---------------------------------------------------------------- from 24 limbs to the residue

  /** The number 24 limbs stand for. */
  function Weigh24(low: Six<int>, mid: Twelve<int>, high: Six<int>): int {
    Weigh6(low) + 0x4000_0000_0000_0000_0000_0000_0000_0000 * Weigh12(mid)
      + TWO378 * Weigh6(high)
  }

  /** The middle twelve, split over the border at 2^252. */
  lemma Resplit(low: Six<int>, m: Twelve<int>)
    ensures Weigh6(low) + 0x4000_0000_0000_0000_0000_0000_0000_0000 * Weigh12(m)
      == Weigh12(Twelve(low.x0, low.x1, low.x2, low.x3, low.x4, low.x5, m.x0, m.x1, m.x2, m.x3, m.x4, m.x5))
         + TWO252 * Weigh6(Six(m.x6, m.x7, m.x8, m.x9, m.x10, m.x11))
  {}

  /** Both rounds of folding, with the carries between them. */
  method FoldTwice(low: Six<int64>, mid: Twelve<int64>, high: Six<int64>) returns (r: Twelve<int64>, ghost q: int)
    requires All6(low, 541065216) && All12(mid, 541065216) && All6(high, 541065216)
    ensures Weigh12(Ints12(r)) == Weigh24(Ints6(low), Ints12(mid), Ints6(high)) - ORDER * q
    ensures All12(r, 3609486 * 0x8000_0000) && In(r.x11, 0x8000_0000)
  {
    var m := FoldSix(mid, high, 541065216);
    ghost var folded := Weigh12(Ints12(m));
    m := RoundTwelve(m, 931247388, 541065216);
    var t := Twelve(low.x0, low.x1, low.x2, low.x3, low.x4, low.x5, m.x0, m.x1, m.x2, m.x3, m.x4, m.x5);
    var h := Six(m.x6, m.x7, m.x8, m.x9, m.x10, m.x11);
    Resplit(Ints6(low), Ints12(m));
    r := FoldSix(t, h, 0x8000_0000);
    q := Weigh6(Ints6(h)) + 0x4000_0000_0000_0000_0000_0000_0000_0000 * Weigh6(Ints6(high));
  }

  predicate Canonical12(t: Twelve<int64>) {
    && 0 <= t.x0 < 0x20_0000 && 0 <= t.x1 < 0x20_0000 && 0 <= t.x2 < 0x20_0000 && 0 <= t.x3 < 0x20_0000
      && 0 <= t.x4 < 0x20_0000 && 0 <= t.x5 < 0x20_0000
    && 0 <= t.x6 < 0x20_0000 && 0 <= t.x7 < 0x20_0000 && 0 <= t.x8 < 0x20_0000 && 0 <= t.x9 < 0x20_0000
      && 0 <= t.x10 < 0x20_0000 && 0 <= t.x11 <= 0x20_0000
  }

  /** The rounded carries, with the one out of limb 11 apart: the rest is centred. */
  method RoundTop(t: Twelve<int64>) returns (v: Twelve<int64>, c: int64)
    requires All12(t, 3609486 * 0x8000_0000) && In(t.x11, 0x8000_0000)
    ensures Weigh12(Ints12(t)) == Weigh12(Ints12(v)) + TWO252 * c as int
    ensures All12(v, 0x2_0000_0000) && In(v.x11, 0x10_0000) && In(c, 0x2000)
  {
    var u := RoundTwelve(t, 3696113664, 0x8000_0000);
    c := Round21(u.x11, 0x1fff);
    v := u.(x11 := u.x11 - c * 0x20_0000);
    TopMoved(Ints12(u), c as int);
  }

  /** One more fold brings the number within 2^252 of zero. */
  method Shrink(t: Twelve<int64>) returns (r: Twelve<int64>, ghost q: int)
    requires All12(t, 3609486 * 0x8000_0000) && In(t.x11, 0x8000_0000)
    ensures Weigh12(Ints12(r)) == Weigh12(Ints12(t)) - ORDER * q
    ensures All12(r, 0x4_0000_0000) && -TWO252 < Weigh12(Ints12(r)) < TWO252
  {
    var v, c := RoundTop(t);
    Centred(Ints12(v));
    NearZero(Weigh12(Ints12(v)), c as int);
    r := FoldOne(v, c);
    q := c as int;
  }

  lemma NearZero(v: int, c: int)
    requires -TWO252_EDGE < v < TWO252_EDGE && -0x2000 <= c <= 0x2000
    ensures -TWO252 < v + TWO252 * c - ORDER * c < TWO252
  {}

  lemma Centred(t: Twelve<int>)
    requires -0x2_0000_0000 <= t.x0 <= 0x2_0000_0000 && -0x2_0000_0000 <= t.x1 <= 0x2_0000_0000
      && -0x2_0000_0000 <= t.x2 <= 0x2_0000_0000 && -0x2_0000_0000 <= t.x3 <= 0x2_0000_0000
      && -0x2_0000_0000 <= t.x4 <= 0x2_0000_0000 && -0x2_0000_0000 <= t.x5 <= 0x2_0000_0000
      && -0x2_0000_0000 <= t.x6 <= 0x2_0000_0000 && -0x2_0000_0000 <= t.x7 <= 0x2_0000_0000
      && -0x2_0000_0000 <= t.x8 <= 0x2_0000_0000 && -0x2_0000_0000 <= t.x9 <= 0x2_0000_0000
      && -0x2_0000_0000 <= t.x10 <= 0x2_0000_0000
    requires -0x10_0000 <= t.x11 <= 0x10_0000
    ensures -TWO252_EDGE < Weigh12(t) < TWO252_EDGE
  {}

  /** The carry out of limb 11 is 0 or -1, so folding it once more ends in [0, l). */
  lemma TopCarry(n: int, v: int, top: int)
    requires n == v + TWO252 * top && 0 <= v < TWO252 && -TWO252 < n < TWO252
    ensures (top == 0 || top == -1) && 0 <= v + TWO252 * top - ORDER * top < ORDER
  {}

  /** The last fold. */
  method Settle(t: Twelve<int64>) returns (r: Twelve<int64>, ghost q: int)
    requires All12(t, 0x4_0000_0000) && -TWO252 < Weigh12(Ints12(t)) < TWO252
    ensures Weigh12(Ints12(r)) == Weigh12(Ints12(t)) - ORDER * q
    ensures 0 <= Weigh12(Ints12(r)) < ORDER && Canonical12(r)
  {
    hide Weigh12;
    var v, top := FloorTop(t);
    CanonicalRange(Ints12(v));
    TopCarry(Weigh12(Ints12(t)), Weigh12(Ints12(v)), top as int);
    var w := FoldOne(v, top);
    r := FloorEleven(w);
    q := top as int;
    TopRange(Ints12(r));
  }

  /** All twelve floored carries, with the one out of the top apart. */
  method FloorTop(t: Twelve<int64>) returns (v: Twelve<int64>, top: int64)
    requires All12(t, 0x4_0000_0000)
    ensures Weigh12(Ints12(t)) == Weigh12(Ints12(v)) + TWO252 * top as int
    ensures Canonical12(v) && v.x11 < 0x20_0000 && In(top, 0x2003)
  {
    var u := FloorEleven(t);
    top := Floor21(u.x11, 0x2002);
    v := u.(x11 := u.x11 - top * 0x20_0000);
    TopMoved(Ints12(u), top as int);
  }

  lemma TopMoved(u: Twelve<int>, top: int)
    ensures Weigh12(u) == Weigh12(u.(x11 := u.x11 - 0x20_0000 * top)) + TWO252 * top
  {}

  lemma CanonicalRange(t: Twelve<int>)
    requires 0 <= t.x0 < 0x20_0000 && 0 <= t.x1 < 0x20_0000 && 0 <= t.x2 < 0x20_0000 && 0 <= t.x3 < 0x20_0000
      && 0 <= t.x4 < 0x20_0000 && 0 <= t.x5 < 0x20_0000 && 0 <= t.x6 < 0x20_0000 && 0 <= t.x7 < 0x20_0000
      && 0 <= t.x8 < 0x20_0000 && 0 <= t.x9 < 0x20_0000 && 0 <= t.x10 < 0x20_0000 && 0 <= t.x11 < 0x20_0000
    ensures 0 <= Weigh12(t) < TWO252
  {}

  lemma TopRange(t: Twelve<int>)
    requires 0 <= t.x0 < 0x20_0000 && 0 <= t.x1 < 0x20_0000 && 0 <= t.x2 < 0x20_0000 && 0 <= t.x3 < 0x20_0000
      && 0 <= t.x4 < 0x20_0000 && 0 <= t.x5 < 0x20_0000 && 0 <= t.x6 < 0x20_0000 && 0 <= t.x7 < 0x20_0000
      && 0 <= t.x8 < 0x20_0000 && 0 <= t.x9 < 0x20_0000 && 0 <= t.x10 < 0x20_0000
    requires 0 <= Weigh12(t) < ORDER
    ensures 0 <= t.x11 <= 0x20_0000
  {}

  /** The common tail of sc_reduce and sc_muladd. */
  method Reduce24(low: Six<int64>, mid: Twelve<int64>, high: Six<int64>, ghost n: int) returns (r: Twelve<int64>)
    requires All6(low, 541065216) && All12(mid, 541065216) && All6(high, 541065216)
    requires n == Weigh24(Ints6(low), Ints12(mid), Ints6(high))
    ensures Weigh12(Ints12(r)) == n % ORDER && Canonical12(r)
  {
    var t, q := FoldTwice(low, mid, high);
    var u, q' := Shrink(t);
    ghost var q'';
    r, q'' := Settle(u);
    ModUnique(n, q + q' + q'', Weigh12(Ints12(r)), ORDER);
  }
}
