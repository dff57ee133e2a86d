/** Field elements modulo 2^255 - 19 as ten signed limbs of 26 and 25 bits alternately: products,
    squares and the carry chain that brings them back into range. */
module Field {
  import opened Arith

  newtype int32 = x: int | -0x8000_0000 <= x < 0x8000_0000
  newtype int64 = x: int | -0x8000_0000_0000_0000 <= x < 0x8000_0000_0000_0000

  const P: nat := 0x7fff_ffff_ffff_ffff_ffff_ffff_ffff_ffff_ffff_ffff_ffff_ffff_ffff_ffff_ffff_ffed

  // ---------------------------------------------------------------- ten limbs and their value

  datatype Ten<T> = Ten(x0: T, x1: T, x2: T, x3: T, x4: T, x5: T, x6: T, x7: T, x8: T, x9: T)

  /** The number ten limbs stand for: limb i has weight 2 to the ceiling of 25.5 i. */
  function Weigh(t: Ten<int>): int {
    t.x0
    + 0x400_0000 * t.x1
    + 0x8_0000_0000_0000 * t.x2
    + 0x2000_0000_0000_0000_0000 * t.x3
    + 0x40_0000_0000_0000_0000_0000_0000 * t.x4
    + 0x1_0000_0000_0000_0000_0000_0000_0000_0000 * t.x5
    + 0x200_0000_0000_0000_0000_0000_0000_0000_0000_0000 * t.x6
    + 0x8_0000_0000_0000_0000_0000_0000_0000_0000_0000_0000_0000 * t.x7
    + 0x1000_0000_0000_0000_0000_0000_0000_0000_0000_0000_0000_0000_0000 * t.x8
    + 0x40_0000_0000_0000_0000_0000_0000_0000_0000_0000_0000_0000_0000_0000_0000 * t.x9
  }

  type Fe = Ten<int32>

  function Ints(f: Fe): Ten<int> {
    Ten(f.x0 as int, f.x1 as int, f.x2 as int, f.x3 as int, f.x4 as int, f.x5 as int, f.x6 as int, f.x7 as int, f.x8 as int,
      f.x9 as int)
  }

  function V(f: Fe): int {
    Weigh(Ints(f))
  }

  /** Equal modulo 2^255 - 19. */
  ghost predicate Congruent(a: int, b: int) {
    exists q: int :: Differ(a, b, q)
  }

  predicate Differ(a: int, b: int, q: int) {
    a == b + P * q
  }

  lemma CongruentBy(a: int, b: int, q: int)
    requires a == b + P * q
    ensures Congruent(a, b) && Congruent(b, a)
  {
    assert Differ(a, b, q) && Differ(b, a, -q);
  }

  // ---------------------------------------------------------------- schoolbook multiplication

  lemma Times(a: int, t: Ten<int>)
    ensures a * Weigh(t) == Weigh(Ten(a * t.x0, a * t.x1, a * t.x2, a * t.x3, a * t.x4, a * t.x5, a * t.x6, a * t.x7, a * t.x8,
      a * t.x9))
  {}

  /** Row i of the product, folded: 2^255 is 19 more than a multiple of p, and two odd limbs share a
      half bit. */
  lemma Row1(x: Ten<int>) returns (q: int)
    ensures 0x400_0000 * Weigh(x) == Weigh(Ten(38 * x.x9, x.x0, 2 * x.x1, x.x2, 2 * x.x3, x.x4, 2 * x.x5, x.x6, 2 * x.x7,
      x.x8)) + P * q
  {
    q := 0x2 * x.x9;
  }

  lemma Row2(x: Ten<int>) returns (q: int)
    ensures 0x8_0000_0000_0000 * Weigh(x) == Weigh(Ten(19 * x.x8, 19 * x.x9, x.x0, x.x1, x.x2, x.x3, x.x4, x.x5, x.x6, x.x7))
      + P * q
  {
    q := x.x8 + 0x400_0000 * x.x9;
  }

  lemma Row3(x: Ten<int>) returns (q: int)
    ensures 0x2000_0000_0000_0000_0000 * Weigh(x) == Weigh(Ten(38 * x.x7, 19 * x.x8, 38 * x.x9, x.x0, 2 * x.x1, x.x2, 2 * x.x3,
      x.x4, 2 * x.x5, x.x6)) + P * q
  {
    q := 0x2 * x.x7 + 0x400_0000 * x.x8 + 0x10_0000_0000_0000 * x.x9;
  }

  lemma Row4(x: Ten<int>) returns (q: int)
    ensures 0x40_0000_0000_0000_0000_0000_0000 * Weigh(x) == Weigh(Ten(19 * x.x6, 19 * x.x7, 19 * x.x8, 19 * x.x9, x.x0, x.x1,
      x.x2, x.x3, x.x4, x.x5)) + P * q
  {
    q := x.x6 + 0x400_0000 * x.x7 + 0x8_0000_0000_0000 * x.x8 + 0x2000_0000_0000_0000_0000 * x.x9;
  }

  lemma Row5(x: Ten<int>) returns (q: int)
    ensures 0x1_0000_0000_0000_0000_0000_0000_0000_0000 * Weigh(x) == Weigh(Ten(38 * x.x5, 19 * x.x6, 38 * x.x7, 19 * x.x8,
      38 * x.x9, x.x0, 2 * x.x1, x.x2, 2 * x.x3, x.x4)) + P * q
  {
    q := 0x2 * x.x5 + 0x400_0000 * x.x6 + 0x10_0000_0000_0000 * x.x7 + 0x2000_0000_0000_0000_0000 * x.x8
      + 0x80_0000_0000_0000_0000_0000_0000 * x.x9;
  }

  lemma Row6(x: Ten<int>) returns (q: int)
    ensures 0x200_0000_0000_0000_0000_0000_0000_0000_0000_0000 * Weigh(x) == Weigh(Ten(19 * x.x4, 19 * x.x5, 19 * x.x6,
      19 * x.x7, 19 * x.x8, 19 * x.x9, x.x0, x.x1, x.x2, x.x3)) + P * q
  {
    q := x.x4 + 0x400_0000 * x.x5 + 0x8_0000_0000_0000 * x.x6 + 0x2000_0000_0000_0000_0000 * x.x7
      + 0x40_0000_0000_0000_0000_0000_0000 * x.x8 + 0x1_0000_0000_0000_0000_0000_0000_0000_0000 * x.x9;
  }

  lemma Row7(x: Ten<int>) returns (q: int)
    ensures 0x8_0000_0000_0000_0000_0000_0000_0000_0000_0000_0000_0000 * Weigh(x) == Weigh(Ten(38 * x.x3, 19 * x.x4, 38 * x.x5,
      19 * x.x6, 38 * x.x7, 19 * x.x8, 38 * x.x9, x.x0, 2 * x.x1, x.x2)) + P * q
  {
    q := 0x2 * x.x3 + 0x400_0000 * x.x4 + 0x10_0000_0000_0000 * x.x5 + 0x2000_0000_0000_0000_0000 * x.x6
      + 0x80_0000_0000_0000_0000_0000_0000 * x.x7 + 0x1_0000_0000_0000_0000_0000_0000_0000_0000 * x.x8
      + 0x400_0000_0000_0000_0000_0000_0000_0000_0000_0000 * x.x9;
  }

  lemma Row8(x: Ten<int>) returns (q: int)
    ensures 0x1000_0000_0000_0000_0000_0000_0000_0000_0000_0000_0000_0000_0000 * Weigh(x) == Weigh(Ten(19 * x.x2, 19 * x.x3,
      19 * x.x4, 19 * x.x5, 19 * x.x6, 19 * x.x7, 19 * x.x8, 19 * x.x9, x.x0, x.x1)) + P * q
  {
    q := x.x2 + 0x400_0000 * x.x3 + 0x8_0000_0000_0000 * x.x4 + 0x2000_0000_0000_0000_0000 * x.x5
      + 0x40_0000_0000_0000_0000_0000_0000 * x.x6 + 0x1_0000_0000_0000_0000_0000_0000_0000_0000 * x.x7
      + 0x200_0000_0000_0000_0000_0000_0000_0000_0000_0000 * x.x8
      + 0x8_0000_0000_0000_0000_0000_0000_0000_0000_0000_0000_0000 * x.x9;
  }

  lemma Row9(x: Ten<int>) returns (q: int)
    ensures 0x40_0000_0000_0000_0000_0000_0000_0000_0000_0000_0000_0000_0000_0000_0000 * Weigh(x) == Weigh(Ten(38 * x.x1,
      19 * x.x2, 38 * x.x3, 19 * x.x4, 38 * x.x5, 19 * x.x6, 38 * x.x7, 19 * x.x8, 38 * x.x9, x.x0)) + P * q
  {
    q := 0x2 * x.x1 + 0x400_0000 * x.x2 + 0x10_0000_0000_0000 * x.x3 + 0x2000_0000_0000_0000_0000 * x.x4
      + 0x80_0000_0000_0000_0000_0000_0000 * x.x5 + 0x1_0000_0000_0000_0000_0000_0000_0000_0000 * x.x6
      + 0x400_0000_0000_0000_0000_0000_0000_0000_0000_0000 * x.x7
      + 0x8_0000_0000_0000_0000_0000_0000_0000_0000_0000_0000_0000 * x.x8
      + 0x2000_0000_0000_0000_0000_0000_0000_0000_0000_0000_0000_0000_0000 * x.x9;
  }

  function Plus(s: Ten<int>, t: Ten<int>): Ten<int> {
    Ten(s.x0 + t.x0, s.x1 + t.x1, s.x2 + t.x2, s.x3 + t.x3, s.x4 + t.x4, s.x5 + t.x5, s.x6 + t.x6, s.x7 + t.x7, s.x8 + t.x8,
      s.x9 + t.x9)
  }

  /** The ten column sums of fe_mul, rows 0 to 4 and rows 5 to 9 apart. */
  function LowColumns(f: Ten<int>, g: Ten<int>): Ten<int> {
    Ten((f.x0 * g.x0) + 38 * (f.x1 * g.x9) + 19 * (f.x2 * g.x8) + 38 * (f.x3 * g.x7) + 19 * (f.x4 * g.x6),
        (f.x0 * g.x1) + (f.x1 * g.x0) + 19 * (f.x2 * g.x9) + 19 * (f.x3 * g.x8) + 19 * (f.x4 * g.x7),
        (f.x0 * g.x2) + 2 * (f.x1 * g.x1) + (f.x2 * g.x0) + 38 * (f.x3 * g.x9) + 19 * (f.x4 * g.x8),
        (f.x0 * g.x3) + (f.x1 * g.x2) + (f.x2 * g.x1) + (f.x3 * g.x0) + 19 * (f.x4 * g.x9),
        (f.x0 * g.x4) + 2 * (f.x1 * g.x3) + (f.x2 * g.x2) + 2 * (f.x3 * g.x1) + (f.x4 * g.x0),
        (f.x0 * g.x5) + (f.x1 * g.x4) + (f.x2 * g.x3) + (f.x3 * g.x2) + (f.x4 * g.x1),
        (f.x0 * g.x6) + 2 * (f.x1 * g.x5) + (f.x2 * g.x4) + 2 * (f.x3 * g.x3) + (f.x4 * g.x2),
        (f.x0 * g.x7) + (f.x1 * g.x6) + (f.x2 * g.x5) + (f.x3 * g.x4) + (f.x4 * g.x3),
        (f.x0 * g.x8) + 2 * (f.x1 * g.x7) + (f.x2 * g.x6) + 2 * (f.x3 * g.x5) + (f.x4 * g.x4),
        (f.x0 * g.x9) + (f.x1 * g.x8) + (f.x2 * g.x7) + (f.x3 * g.x6) + (f.x4 * g.x5))
  }

  function HighColumns(f: Ten<int>, g: Ten<int>): Ten<int> {
    Ten(38 * (f.x5 * g.x5) + 19 * (f.x6 * g.x4) + 38 * (f.x7 * g.x3) + 19 * (f.x8 * g.x2) + 38 * (f.x9 * g.x1),
        19 * (f.x5 * g.x6) + 19 * (f.x6 * g.x5) + 19 * (f.x7 * g.x4) + 19 * (f.x8 * g.x3) + 19 * (f.x9 * g.x2),
        38 * (f.x5 * g.x7) + 19 * (f.x6 * g.x6) + 38 * (f.x7 * g.x5) + 19 * (f.x8 * g.x4) + 38 * (f.x9 * g.x3),
        19 * (f.x5 * g.x8) + 19 * (f.x6 * g.x7) + 19 * (f.x7 * g.x6) + 19 * (f.x8 * g.x5) + 19 * (f.x9 * g.x4),
        38 * (f.x5 * g.x9) + 19 * (f.x6 * g.x8) + 38 * (f.x7 * g.x7) + 19 * (f.x8 * g.x6) + 38 * (f.x9 * g.x5),
        (f.x5 * g.x0) + 19 * (f.x6 * g.x9) + 19 * (f.x7 * g.x8) + 19 * (f.x8 * g.x7) + 19 * (f.x9 * g.x6),
        2 * (f.x5 * g.x1) + (f.x6 * g.x0) + 38 * (f.x7 * g.x9) + 19 * (f.x8 * g.x8) + 38 * (f.x9 * g.x7),
        (f.x5 * g.x2) + (f.x6 * g.x1) + (f.x7 * g.x0) + 19 * (f.x8 * g.x9) + 19 * (f.x9 * g.x8),
        2 * (f.x5 * g.x3) + (f.x6 * g.x2) + 2 * (f.x7 * g.x1) + (f.x8 * g.x0) + 38 * (f.x9 * g.x9),
        (f.x5 * g.x4) + (f.x6 * g.x3) + (f.x7 * g.x2) + (f.x8 * g.x1) + (f.x9 * g.x0))
  }

  function Columns(f: Ten<int>, g: Ten<int>): Ten<int> {
    Plus(LowColumns(f, g), HighColumns(f, g))
  }

  lemma LowValue(f: Ten<int>, g: Ten<int>) returns (q: int)
    ensures (f.x0 * Weigh(g)) + 0x400_0000 * (f.x1 * Weigh(g)) + 0x8_0000_0000_0000 * (f.x2 * Weigh(g))
      + 0x2000_0000_0000_0000_0000 * (f.x3 * Weigh(g)) + 0x40_0000_0000_0000_0000_0000_0000 * (f.x4 * Weigh(g))
      == Weigh(LowColumns(f, g)) + P * q
  {
    Times(f.x0, g);
    Times(f.x1, g);
    var q1 := Row1(Ten(f.x1 * g.x0, f.x1 * g.x1, f.x1 * g.x2, f.x1 * g.x3, f.x1 * g.x4, f.x1 * g.x5, f.x1 * g.x6, f.x1 * g.x7,
      f.x1 * g.x8, f.x1 * g.x9));
    Times(f.x2, g);
    var q2 := Row2(Ten(f.x2 * g.x0, f.x2 * g.x1, f.x2 * g.x2, f.x2 * g.x3, f.x2 * g.x4, f.x2 * g.x5, f.x2 * g.x6, f.x2 * g.x7,
      f.x2 * g.x8, f.x2 * g.x9));
    Times(f.x3, g);
    var q3 := Row3(Ten(f.x3 * g.x0, f.x3 * g.x1, f.x3 * g.x2, f.x3 * g.x3, f.x3 * g.x4, f.x3 * g.x5, f.x3 * g.x6, f.x3 * g.x7,
      f.x3 * g.x8, f.x3 * g.x9));
    Times(f.x4, g);
    var q4 := Row4(Ten(f.x4 * g.x0, f.x4 * g.x1, f.x4 * g.x2, f.x4 * g.x3, f.x4 * g.x4, f.x4 * g.x5, f.x4 * g.x6, f.x4 * g.x7,
      f.x4 * g.x8, f.x4 * g.x9));
    q := q1 + q2 + q3 + q4;
  }

  lemma HighValue(f: Ten<int>, g: Ten<int>) returns (q: int)
    ensures 0x1_0000_0000_0000_0000_0000_0000_0000_0000 * (f.x5 * Weigh(g))
      + 0x200_0000_0000_0000_0000_0000_0000_0000_0000_0000 * (f.x6 * Weigh(g))
      + 0x8_0000_0000_0000_0000_0000_0000_0000_0000_0000_0000_0000 * (f.x7 * Weigh(g))
      + 0x1000_0000_0000_0000_0000_0000_0000_0000_0000_0000_0000_0000_0000 * (f.x8 * Weigh(g))
      + 0x40_0000_0000_0000_0000_0000_0000_0000_0000_0000_0000_0000_0000_0000_0000 * (f.x9 * Weigh(g))
      == Weigh(HighColumns(f, g)) + P * q
  {
    Times(f.x5, g);
    var q5 := Row5(Ten(f.x5 * g.x0, f.x5 * g.x1, f.x5 * g.x2, f.x5 * g.x3, f.x5 * g.x4, f.x5 * g.x5, f.x5 * g.x6, f.x5 * g.x7,
      f.x5 * g.x8, f.x5 * g.x9));
    Times(f.x6, g);
    var q6 := Row6(Ten(f.x6 * g.x0, f.x6 * g.x1, f.x6 * g.x2, f.x6 * g.x3, f.x6 * g.x4, f.x6 * g.x5, f.x6 * g.x6, f.x6 * g.x7,
      f.x6 * g.x8, f.x6 * g.x9));
    Times(f.x7, g);
    var q7 := Row7(Ten(f.x7 * g.x0, f.x7 * g.x1, f.x7 * g.x2, f.x7 * g.x3, f.x7 * g.x4, f.x7 * g.x5, f.x7 * g.x6, f.x7 * g.x7,
      f.x7 * g.x8, f.x7 * g.x9));
    Times(f.x8, g);
    var q8 := Row8(Ten(f.x8 * g.x0, f.x8 * g.x1, f.x8 * g.x2, f.x8 * g.x3, f.x8 * g.x4, f.x8 * g.x5, f.x8 * g.x6, f.x8 * g.x7,
      f.x8 * g.x8, f.x8 * g.x9));
    Times(f.x9, g);
    var q9 := Row9(Ten(f.x9 * g.x0, f.x9 * g.x1, f.x9 * g.x2, f.x9 * g.x3, f.x9 * g.x4, f.x9 * g.x5, f.x9 * g.x6, f.x9 * g.x7,
      f.x9 * g.x8, f.x9 * g.x9));
    q := q5 + q6 + q7 + q8 + q9;
  }

  /** The columns are the product, modulo p. */
  lemma ColumnsValue(f: Ten<int>, g: Ten<int>) returns (q: int)
    ensures Weigh(f) * Weigh(g) == Weigh(Columns(f, g)) + P * q
  {
    Times(Weigh(g), f);
    var low := LowValue(f, g);
    var high := HighValue(f, g);
    q := low + high;
  }

  // ---------------------------------------------------------------- fe_mul without overflow

  const EVEN_IN: int := 110729625    // 1.65 * 2^26
  const ODD_IN: int := 55364812      // 1.65 * 2^25
  const EVEN_OUT: int := 33889976    // 1.01 * 2^25
  const ODD_OUT: int := 16944988     // 1.01 * 2^24

  predicate Bounded(f: Fe, even: int, odd: int) {
    && -even <= f.x0 as int <= even && -odd <= f.x1 as int <= odd && -even <= f.x2 as int <= even
    && -odd <= f.x3 as int <= odd && -even <= f.x4 as int <= even && -odd <= f.x5 as int <= odd
    && -even <= f.x6 as int <= even && -odd <= f.x7 as int <= odd && -even <= f.x8 as int <= even
    && -odd <= f.x9 as int <= odd
  }

  /** What products accept, and what they give. */
  predicate Loose(f: Fe) {
    Bounded(f, EVEN_IN, ODD_IN)
  }

  predicate Tight(f: Fe) {
    Bounded(f, EVEN_OUT, ODD_OUT)
  }

  const LEFT: int := 221459250       // twice an even limb
  const RIGHT: int := 2103862875     // nineteen times an even limb, below 2^31
  const TERM: int := 465919894400343750

  /** One product: both operands are limbs scaled in 32 bits, the product has 64. */
  function Term(m: int32, x: int32, n: int32, y: int32): (r: int64)
    requires -LEFT <= m as int * x as int <= LEFT && -RIGHT <= n as int * y as int <= RIGHT
    ensures r as int == (m as int * n as int) * (x as int * y as int) && -TERM <= r as int <= TERM
  {
    TermBound(m as int * x as int, n as int * y as int);
    TermFactors(m as int, x as int, n as int, y as int);
    (m * x) as int64 * (n * y) as int64
  }

  lemma TermFactors(m: int, x: int, n: int, y: int)
    ensures (m * x) * (n * y) == (m * n) * (x * y)
  {
    Associate(m * x, n, y);
    Associate(m * n, x, y);
    assert (m * x) * n == (m * n) * x;
  }

  lemma TermBound(x: int, y: int)
    requires -LEFT <= x <= LEFT && -RIGHT <= y <= RIGHT
    ensures -TERM <= x * y <= TERM
  {
    var a, b := if x < 0 then -x else x, if y < 0 then -y else y;
    Monotone(a, LEFT, b);
    Monotone(b, RIGHT, LEFT);
  }

  function Column0(f: Fe, g: Fe): (r: int64)
    requires Loose(f) && Loose(g)
    ensures r as int == Columns(Ints(f), Ints(g)).x0 && -10 * TERM <= r as int <= 10 * TERM
  {
    Term(1, f.x0, 1, g.x0) + Term(2, f.x1, 19, g.x9) + Term(1, f.x2, 19, g.x8) + Term(2, f.x3, 19, g.x7) + Term(1, f.x4, 19,
      g.x6)
    + Term(2, f.x5, 19, g.x5) + Term(1, f.x6, 19, g.x4) + Term(2, f.x7, 19, g.x3) + Term(1, f.x8, 19, g.x2) + Term(2, f.x9, 19,
      g.x1)
  }

  function Column1(f: Fe, g: Fe): (r: int64)
    requires Loose(f) && Loose(g)
    ensures r as int == Columns(Ints(f), Ints(g)).x1 && -10 * TERM <= r as int <= 10 * TERM
  {
    Term(1, f.x0, 1, g.x1) + Term(1, f.x1, 1, g.x0) + Term(1, f.x2, 19, g.x9) + Term(1, f.x3, 19, g.x8) + Term(1, f.x4, 19,
      g.x7)
    + Term(1, f.x5, 19, g.x6) + Term(1, f.x6, 19, g.x5) + Term(1, f.x7, 19, g.x4) + Term(1, f.x8, 19, g.x3) + Term(1, f.x9, 19,
      g.x2)
  }

  function Column2(f: Fe, g: Fe): (r: int64)
    requires Loose(f) && Loose(g)
    ensures r as int == Columns(Ints(f), Ints(g)).x2 && -10 * TERM <= r as int <= 10 * TERM
  {
    Term(1, f.x0, 1, g.x2) + Term(2, f.x1, 1, g.x1) + Term(1, f.x2, 1, g.x0) + Term(2, f.x3, 19, g.x9) + Term(1, f.x4, 19, g.x8)
    + Term(2, f.x5, 19, g.x7) + Term(1, f.x6, 19, g.x6) + Term(2, f.x7, 19, g.x5) + Term(1, f.x8, 19, g.x4) + Term(2, f.x9, 19,
      g.x3)
  }

  function Column3(f: Fe, g: Fe): (r: int64)
    requires Loose(f) && Loose(g)
    ensures r as int == Columns(Ints(f), Ints(g)).x3 && -10 * TERM <= r as int <= 10 * TERM
  {
    Term(1, f.x0, 1, g.x3) + Term(1, f.x1, 1, g.x2) + Term(1, f.x2, 1, g.x1) + Term(1, f.x3, 1, g.x0) + Term(1, f.x4, 19, g.x9)
    + Term(1, f.x5, 19, g.x8) + Term(1, f.x6, 19, g.x7) + Term(1, f.x7, 19, g.x6) + Term(1, f.x8, 19, g.x5) + Term(1, f.x9, 19,
      g.x4)
  }

  function Column4(f: Fe, g: Fe): (r: int64)
    requires Loose(f) && Loose(g)
    ensures r as int == Columns(Ints(f), Ints(g)).x4 && -10 * TERM <= r as int <= 10 * TERM
  {
    Term(1, f.x0, 1, g.x4) + Term(2, f.x1, 1, g.x3) + Term(1, f.x2, 1, g.x2) + Term(2, f.x3, 1, g.x1) + Term(1, f.x4, 1, g.x0)
    + Term(2, f.x5, 19, g.x9) + Term(1, f.x6, 19, g.x8) + Term(2, f.x7, 19, g.x7) + Term(1, f.x8, 19, g.x6) + Term(2, f.x9, 19,
      g.x5)
  }

  function Column5(f: Fe, g: Fe): (r: int64)
    requires Loose(f) && Loose(g)
    ensures r as int == Columns(Ints(f), Ints(g)).x5 && -10 * TERM <= r as int <= 10 * TERM
  {
    Term(1, f.x0, 1, g.x5) + Term(1, f.x1, 1, g.x4) + Term(1, f.x2, 1, g.x3) + Term(1, f.x3, 1, g.x2) + Term(1, f.x4, 1, g.x1)
    + Term(1, f.x5, 1, g.x0) + Term(1, f.x6, 19, g.x9) + Term(1, f.x7, 19, g.x8) + Term(1, f.x8, 19, g.x7) + Term(1, f.x9, 19,
      g.x6)
  }

  function Column6(f: Fe, g: Fe): (r: int64)
    requires Loose(f) && Loose(g)
    ensures r as int == Columns(Ints(f), Ints(g)).x6 && -10 * TERM <= r as int <= 10 * TERM
  {
    Term(1, f.x0, 1, g.x6) + Term(2, f.x1, 1, g.x5) + Term(1, f.x2, 1, g.x4) + Term(2, f.x3, 1, g.x3) + Term(1, f.x4, 1, g.x2)
    + Term(2, f.x5, 1, g.x1) + Term(1, f.x6, 1, g.x0) + Term(2, f.x7, 19, g.x9) + Term(1, f.x8, 19, g.x8) + Term(2, f.x9, 19,
      g.x7)
  }

  function Column7(f: Fe, g: Fe): (r: int64)
    requires Loose(f) && Loose(g)
    ensures r as int == Columns(Ints(f), Ints(g)).x7 && -10 * TERM <= r as int <= 10 * TERM
  {
    Term(1, f.x0, 1, g.x7) + Term(1, f.x1, 1, g.x6) + Term(1, f.x2, 1, g.x5) + Term(1, f.x3, 1, g.x4) + Term(1, f.x4, 1, g.x3)
    + Term(1, f.x5, 1, g.x2) + Term(1, f.x6, 1, g.x1) + Term(1, f.x7, 1, g.x0) + Term(1, f.x8, 19, g.x9) + Term(1, f.x9, 19,
      g.x8)
  }

  function Column8(f: Fe, g: Fe): (r: int64)
    requires Loose(f) && Loose(g)
    ensures r as int == Columns(Ints(f), Ints(g)).x8 && -10 * TERM <= r as int <= 10 * TERM
  {
    Term(1, f.x0, 1, g.x8) + Term(2, f.x1, 1, g.x7) + Term(1, f.x2, 1, g.x6) + Term(2, f.x3, 1, g.x5) + Term(1, f.x4, 1, g.x4)
    + Term(2, f.x5, 1, g.x3) + Term(1, f.x6, 1, g.x2) + Term(2, f.x7, 1, g.x1) + Term(1, f.x8, 1, g.x0) + Term(2, f.x9, 19,
      g.x9)
  }

  function Column9(f: Fe, g: Fe): (r: int64)
    requires Loose(f) && Loose(g)
    ensures r as int == Columns(Ints(f), Ints(g)).x9 && -10 * TERM <= r as int <= 10 * TERM
  {
    Term(1, f.x0, 1, g.x9) + Term(1, f.x1, 1, g.x8) + Term(1, f.x2, 1, g.x7) + Term(1, f.x3, 1, g.x6) + Term(1, f.x4, 1, g.x5)
    + Term(1, f.x5, 1, g.x4) + Term(1, f.x6, 1, g.x3) + Term(1, f.x7, 1, g.x2) + Term(1, f.x8, 1, g.x1) + Term(1, f.x9, 1, g.x0)
  }

  // ---------------------------------------------------------------- fe_sq: each cross product once

  function Square0(f: Fe): (r: int64)
    requires Loose(f)
    ensures r as int == Columns(Ints(f), Ints(f)).x0 && -6 * TERM <= r as int <= 6 * TERM
  {
    Term(1, f.x0, 1, f.x0) + Term(2, f.x1, 38, f.x9) + Term(2, f.x2, 19, f.x8) + Term(2, f.x3, 38, f.x7) + Term(2, f.x4, 19,
      f.x6)
    + Term(1, f.x5, 38, f.x5)
  }

  function Square1(f: Fe): (r: int64)
    requires Loose(f)
    ensures r as int == Columns(Ints(f), Ints(f)).x1 && -6 * TERM <= r as int <= 6 * TERM
  {
    Term(2, f.x0, 1, f.x1) + Term(1, f.x2, 38, f.x9) + Term(2, f.x3, 19, f.x8) + Term(1, f.x4, 38, f.x7) + Term(2, f.x5, 19,
      f.x6)
  }

  function Square2(f: Fe): (r: int64)
    requires Loose(f)
    ensures r as int == Columns(Ints(f), Ints(f)).x2 && -6 * TERM <= r as int <= 6 * TERM
  {
    Term(2, f.x0, 1, f.x2) + Term(2, f.x1, 1, f.x1) + Term(2, f.x3, 38, f.x9) + Term(2, f.x4, 19, f.x8) + Term(2, f.x5, 38,
      f.x7)
    + Term(1, f.x6, 19, f.x6)
  }

  function Square3(f: Fe): (r: int64)
    requires Loose(f)
    ensures r as int == Columns(Ints(f), Ints(f)).x3 && -6 * TERM <= r as int <= 6 * TERM
  {
    Term(2, f.x0, 1, f.x3) + Term(2, f.x1, 1, f.x2) + Term(1, f.x4, 38, f.x9) + Term(2, f.x5, 19, f.x8) + Term(1, f.x6, 38,
      f.x7)
  }

  function Square4(f: Fe): (r: int64)
    requires Loose(f)
    ensures r as int == Columns(Ints(f), Ints(f)).x4 && -6 * TERM <= r as int <= 6 * TERM
  {
    Term(2, f.x0, 1, f.x4) + Term(2, f.x1, 2, f.x3) + Term(1, f.x2, 1, f.x2) + Term(2, f.x5, 38, f.x9) + Term(2, f.x6, 19, f.x8)
    + Term(1, f.x7, 38, f.x7)
  }

  function Square5(f: Fe): (r: int64)
    requires Loose(f)
    ensures r as int == Columns(Ints(f), Ints(f)).x5 && -6 * TERM <= r as int <= 6 * TERM
  {
    Term(2, f.x0, 1, f.x5) + Term(2, f.x1, 1, f.x4) + Term(2, f.x2, 1, f.x3) + Term(1, f.x6, 38, f.x9) + Term(2, f.x7, 19, f.x8)
  }

  function Square6(f: Fe): (r: int64)
    requires Loose(f)
    ensures r as int == Columns(Ints(f), Ints(f)).x6 && -6 * TERM <= r as int <= 6 * TERM
  {
    Term(2, f.x0, 1, f.x6) + Term(2, f.x1, 2, f.x5) + Term(2, f.x2, 1, f.x4) + Term(2, f.x3, 1, f.x3) + Term(2, f.x7, 38, f.x9)
    + Term(1, f.x8, 19, f.x8)
  }

  function Square7(f: Fe): (r: int64)
    requires Loose(f)
    ensures r as int == Columns(Ints(f), Ints(f)).x7 && -6 * TERM <= r as int <= 6 * TERM
  {
    Term(2, f.x0, 1, f.x7) + Term(2, f.x1, 1, f.x6) + Term(2, f.x2, 1, f.x5) + Term(2, f.x3, 1, f.x4) + Term(1, f.x8, 38, f.x9)
  }

  function Square8(f: Fe): (r: int64)
    requires Loose(f)
    ensures r as int == Columns(Ints(f), Ints(f)).x8 && -6 * TERM <= r as int <= 6 * TERM
  {
    Term(2, f.x0, 1, f.x8) + Term(2, f.x1, 2, f.x7) + Term(2, f.x2, 1, f.x6) + Term(2, f.x3, 2, f.x5) + Term(1, f.x4, 1, f.x4)
    + Term(1, f.x9, 38, f.x9)
  }

  function Square9(f: Fe): (r: int64)
    requires Loose(f)
    ensures r as int == Columns(Ints(f), Ints(f)).x9 && -6 * TERM <= r as int <= 6 * TERM
  {
    Term(2, f.x0, 1, f.x9) + Term(2, f.x1, 1, f.x8) + Term(2, f.x2, 1, f.x7) + Term(2, f.x3, 1, f.x6) + Term(2, f.x4, 1, f.x5)
  }

  // ---------------------------------------------------------------- the carry chain

  /** Rounded division by 2^26 and 2^25, as the shifts after adding half. */
  method Round26(h: int64) returns (c: int64)
    requires -14 * TERM <= h as int <= 14 * TERM
    ensures -0x200_0000 <= h as int - 0x400_0000 * c as int < 0x200_0000
  {
    c := (h + 0x200_0000) / 0x400_0000;
  }

  method Round25(h: int64) returns (c: int64)
    requires -14 * TERM <= h as int <= 14 * TERM
    ensures -0x100_0000 <= h as int - 0x200_0000 * c as int < 0x100_0000
  {
    c := (h + 0x100_0000) / 0x200_0000;
  }

  predicate Summed(h: Ten<int64>) {
    && -12 * TERM <= h.x0 as int <= 12 * TERM
    && -12 * TERM <= h.x1 as int <= 12 * TERM
    && -12 * TERM <= h.x2 as int <= 12 * TERM
    && -12 * TERM <= h.x3 as int <= 12 * TERM
    && -12 * TERM <= h.x4 as int <= 12 * TERM
    && -12 * TERM <= h.x5 as int <= 12 * TERM
    && -12 * TERM <= h.x6 as int <= 12 * TERM
    && -12 * TERM <= h.x7 as int <= 12 * TERM
    && -12 * TERM <= h.x8 as int <= 12 * TERM
    && -12 * TERM <= h.x9 as int <= 12 * TERM
  }

  function Longs(h: Ten<int64>): Ten<int> {
    Ten(h.x0 as int, h.x1 as int, h.x2 as int, h.x3 as int, h.x4 as int, h.x5 as int, h.x6 as int, h.x7 as int, h.x8 as int,
      h.x9 as int)
  }

  predicate In(x: int64, b: int) {
    -b <= x as int <= b
  }

  const HALF26: int := 0x200_0000
  const HALF25: int := 0x100_0000
  const BIG: int := 13 * TERM

  /** The first four carries. */
  method CarryLow(h: Ten<int64>) returns (r: Ten<int64>)
    requires Summed(h)
    ensures Weigh(Longs(r)) == Weigh(Longs(h))
    ensures In(r.x0, HALF26) && In(r.x1, HALF25) && In(r.x2, BIG) && In(r.x3, BIG) && In(r.x4, HALF26)
    ensures In(r.x5, HALF25) && In(r.x6, BIG) && In(r.x7, BIG) && In(r.x8, BIG) && In(r.x9, BIG)
  {
    var h0, h1, h2, h4, h5, h6 := h.x0, h.x1, h.x2, h.x4, h.x5, h.x6;
    var c0 := Round26(h0);
    h1, h0 := h1 + c0, h0 - c0 * 0x400_0000;
    var c4 := Round26(h4);
    h5, h4 := h5 + c4, h4 - c4 * 0x400_0000;
    var c1 := Round25(h1);
    h2, h1 := h2 + c1, h1 - c1 * 0x200_0000;
    var c5 := Round25(h5);
    h6, h5 := h6 + c5, h5 - c5 * 0x200_0000;
    r := Ten(h0, h1, h2, h.x3, h4, h5, h6, h.x7, h.x8, h.x9);
  }

  /** The next four; what limb 3 passes to limb 4 is small. */
  method CarryMiddle(h: Ten<int64>) returns (r: Ten<int64>)
    requires In(h.x0, HALF26) && In(h.x1, HALF25) && In(h.x2, BIG) && In(h.x3, BIG) && In(h.x4, HALF26)
    requires In(h.x5, HALF25) && In(h.x6, BIG) && In(h.x7, BIG) && In(h.x8, BIG) && In(h.x9, BIG)
    ensures Weigh(Longs(r)) == Weigh(Longs(h)) && r.x0 == h.x0 && r.x1 == h.x1 && r.x5 == h.x5 && r.x9 == h.x9
    ensures In(r.x2, HALF26) && In(r.x3, HALF25) && In(r.x4, TERM / 0x10_0000) && In(r.x6, HALF26)
    ensures In(r.x7, HALF25) && In(r.x8, 14 * TERM)
  {
    var h2, h3, h4, h6, h7, h8 := h.x2, h.x3, h.x4, h.x6, h.x7, h.x8;
    var c2 := Round26(h2);
    h3, h2 := h3 + c2, h2 - c2 * 0x400_0000;
    var c6 := Round26(h6);
    h7, h6 := h7 + c6, h6 - c6 * 0x400_0000;
    var c3 := Round25(h3);
    h4, h3 := h4 + c3, h3 - c3 * 0x200_0000;
    var c7 := Round25(h7);
    h8, h7 := h8 + c7, h7 - c7 * 0x200_0000;
    r := Ten(h.x0, h.x1, h2, h3, h4, h.x5, h6, h7, h8, h.x9);
  }

  /** The last four: the carry out of the top comes back nineteenfold at the bottom. */
  method CarryHigh(h: Ten<int64>) returns (r: Fe, ghost q: int)
    requires In(h.x0, HALF26) && In(h.x1, HALF25) && In(h.x2, HALF26) && In(h.x3, HALF25) && In(h.x4, TERM / 0x10_0000)
    requires In(h.x5, HALF25) && In(h.x6, HALF26) && In(h.x7, HALF25) && In(h.x8, 14 * TERM) && In(h.x9, BIG)
    ensures Weigh(Longs(h)) == V(r) + P * q && Tight(r)
  {
    var h0, h1, h4, h5, h8, h9 := h.x0, h.x1, h.x4, h.x5, h.x8, h.x9;
    var c4 := Round26(h4);
    h5, h4 := h5 + c4, h4 - c4 * 0x400_0000;
    var c8 := Round26(h8);
    h9, h8 := h9 + c8, h8 - c8 * 0x400_0000;
    var c9 := Round25(h9);
    h0, h9 := h0 + c9 * 19, h9 - c9 * 0x200_0000;
    var c0 := Round26(h0);
    h1, h0 := h1 + c0, h0 - c0 * 0x400_0000;
    r := Ten(h0 as int32, h1 as int32, h.x2 as int32, h.x3 as int32, h4 as int32,
             h5 as int32, h.x6 as int32, h.x7 as int32, h8 as int32, h9 as int32);
    q := c9 as int;
  }

  /** The twelve carries shared by fe_mul, fe_sq and fe_sq2: the same number modulo p, in limbs that fit
      the output bounds. */
  method Carry(h: Ten<int64>) returns (r: Fe, ghost q: int)
    requires Summed(h)
    ensures Weigh(Longs(h)) == V(r) + P * q && Tight(r)
  {
    var low := CarryLow(h);
    var middle := CarryMiddle(low);
    r, q := CarryHigh(middle);
  }

  // ---------------------------------------------------------------- products

  /** fe_mul: the product modulo p, for all limbs within 1.65 of their size, with no overflow, in limbs
      within 1.01. */
  method Mul(f: Fe, g: Fe) returns (h: Fe)
    requires Loose(f) && Loose(g)
    ensures Congruent(V(f) * V(g), V(h)) && Tight(h)
  {
    ghost var q := ColumnsValue(Ints(f), Ints(g));
    ghost var q';
    h, q' := Carry(Ten(Column0(f, g), Column1(f, g), Column2(f, g), Column3(f, g), Column4(f, g), Column5(f, g), Column6(f, g),
      Column7(f, g), Column8(f, g), Column9(f, g)));
    CongruentBy(V(f) * V(g), V(h), q + q');
  }

  method SquareColumns(f: Fe) returns (h: Ten<int64>)
    requires Loose(f)
    ensures Longs(h) == Columns(Ints(f), Ints(f))
    ensures -6 * TERM <= h.x0 as int <= 6 * TERM && -6 * TERM <= h.x1 as int <= 6 * TERM
      && -6 * TERM <= h.x2 as int <= 6 * TERM && -6 * TERM <= h.x3 as int <= 6 * TERM
      && -6 * TERM <= h.x4 as int <= 6 * TERM && -6 * TERM <= h.x5 as int <= 6 * TERM
      && -6 * TERM <= h.x6 as int <= 6 * TERM && -6 * TERM <= h.x7 as int <= 6 * TERM
      && -6 * TERM <= h.x8 as int <= 6 * TERM && -6 * TERM <= h.x9 as int <= 6 * TERM
  {
    h := Ten(Square0(f), Square1(f), Square2(f), Square3(f), Square4(f), Square5(f), Square6(f), Square7(f), Square8(f),
      Square9(f));
  }

  /** fe_sq. */
  method Sq(f: Fe) returns (h: Fe)
    requires Loose(f)
    ensures Congruent(V(f) * V(f), V(h)) && Tight(h)
  {
    ghost var q := ColumnsValue(Ints(f), Ints(f));
    var c := SquareColumns(f);
    ghost var q';
    h, q' := Carry(c);
    CongruentBy(V(f) * V(f), V(h), q + q');
  }

  /** fe_sq2: twice the square. */
  method Sq2(f: Fe) returns (h: Fe)
    requires Loose(f)
    ensures Congruent(2 * (V(f) * V(f)), V(h)) && Tight(h)
  {
    ghost var q := ColumnsValue(Ints(f), Ints(f));
    var c := SquareColumns(f);
    var d := Ten(c.x0 + c.x0, c.x1 + c.x1, c.x2 + c.x2, c.x3 + c.x3, c.x4 + c.x4, c.x5 + c.x5, c.x6 + c.x6, c.x7 + c.x7, c.x8
      + c.x8, c.x9 + c.x9);
    assert Weigh(Longs(d)) == 2 * Weigh(Longs(c));
    ghost var q';
    h, q' := Carry(d);
    CongruentBy(2 * (V(f) * V(f)), V(h), 2 * q + q');
  }
}
