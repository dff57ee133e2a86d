/** sc_muladd: the product of two scalars plus a third, reduced. */
module ScalarMulAdd {
  import opened Arith
  import opened Bytes
  import opened Field
  import opened ScalarLimbs
  import opened ScalarReduce

  // ---------------------------------------------------------------- schoolbook multiplication

  function Plus12(s: Twelve<int>, t: Twelve<int>): Twelve<int> {
    Twelve(s.x0 + t.x0, s.x1 + t.x1, s.x2 + t.x2, s.x3 + t.x3, s.x4 + t.x4, s.x5 + t.x5, s.x6 + t.x6, s.x7 + t.x7, s.x8 + t.x8,
      s.x9 + t.x9, s.x10 + t.x10, s.x11 + t.x11)
  }

  function Scale12(k: int, t: Twelve<int>): Twelve<int> {
    Twelve(k * t.x0, k * t.x1, k * t.x2, k * t.x3, k * t.x4, k * t.x5, k * t.x6, k * t.x7, k * t.x8, k * t.x9, k * t.x10,
      k * t.x11)
  }

  lemma ScaleValue(k: int, t: Twelve<int>)
    ensures k * Weigh12(t) == Weigh12(Scale12(k, t))
  {}

  /** Four rows of the product, each one limb further up, as columns below and above 2^252. */
  function Low0(r0: Twelve<int>, r1: Twelve<int>, r2: Twelve<int>, r3: Twelve<int>): Twelve<int> {
    Twelve(r0.x0, r0.x1 + r1.x0, r0.x2 + r1.x1 + r2.x0, r0.x3 + r1.x2 + r2.x1 + r3.x0, r0.x4 + r1.x3 + r2.x2 + r3.x1, r0.x5
      + r1.x4 + r2.x3 + r3.x2, r0.x6 + r1.x5 + r2.x4 + r3.x3, r0.x7 + r1.x6 + r2.x5 + r3.x4, r0.x8 + r1.x7 + r2.x6 + r3.x5,
      r0.x9 + r1.x8 + r2.x7 + r3.x6, r0.x10 + r1.x9 + r2.x8 + r3.x7, r0.x11 + r1.x10 + r2.x9 + r3.x8)
  }

  function High0(r0: Twelve<int>, r1: Twelve<int>, r2: Twelve<int>, r3: Twelve<int>): Twelve<int> {
    Twelve(r1.x11 + r2.x10 + r3.x9, r2.x11 + r3.x10, r3.x11, 0, 0, 0, 0, 0, 0, 0, 0, 0)
  }

  lemma Rows0(r0: Twelve<int>, r1: Twelve<int>, r2: Twelve<int>, r3: Twelve<int>)
    ensures Weigh12(r0) + 0x20_0000 * Weigh12(r1) + 0x400_0000_0000 * Weigh12(r2) + 0x8000_0000_0000_0000 * Weigh12(r3)
      == Weigh12(Low0(r0, r1, r2, r3)) + TWO252 * Weigh12(High0(r0, r1, r2, r3))
  {}

  function Low1(r0: Twelve<int>, r1: Twelve<int>, r2: Twelve<int>, r3: Twelve<int>): Twelve<int> {
    Twelve(0, 0, 0, 0, r0.x0, r0.x1 + r1.x0, r0.x2 + r1.x1 + r2.x0, r0.x3 + r1.x2 + r2.x1 + r3.x0, r0.x4 + r1.x3 + r2.x2
      + r3.x1, r0.x5 + r1.x4 + r2.x3 + r3.x2, r0.x6 + r1.x5 + r2.x4 + r3.x3, r0.x7 + r1.x6 + r2.x5 + r3.x4)
  }

  function High1(r0: Twelve<int>, r1: Twelve<int>, r2: Twelve<int>, r3: Twelve<int>): Twelve<int> {
    Twelve(r0.x8 + r1.x7 + r2.x6 + r3.x5, r0.x9 + r1.x8 + r2.x7 + r3.x6, r0.x10 + r1.x9 + r2.x8 + r3.x7, r0.x11 + r1.x10
      + r2.x9 + r3.x8, r1.x11 + r2.x10 + r3.x9, r2.x11 + r3.x10, r3.x11, 0, 0, 0, 0, 0)
  }

  lemma Rows1(r0: Twelve<int>, r1: Twelve<int>, r2: Twelve<int>, r3: Twelve<int>)
    ensures 0x10_0000_0000_0000_0000_0000 * Weigh12(r0) + 0x200_0000_0000_0000_0000_0000_0000 * Weigh12(r1)
      + 0x4000_0000_0000_0000_0000_0000_0000_0000 * Weigh12(r2) + 0x8_0000_0000_0000_0000_0000_0000_0000_0000_0000 * Weigh12(r3)
      == Weigh12(Low1(r0, r1, r2, r3)) + TWO252 * Weigh12(High1(r0, r1, r2, r3))
  {}

  function Low2(r0: Twelve<int>, r1: Twelve<int>, r2: Twelve<int>, r3: Twelve<int>): Twelve<int> {
    Twelve(0, 0, 0, 0, 0, 0, 0, 0, r0.x0, r0.x1 + r1.x0, r0.x2 + r1.x1 + r2.x0, r0.x3 + r1.x2 + r2.x1 + r3.x0)
  }

  function High2(r0: Twelve<int>, r1: Twelve<int>, r2: Twelve<int>, r3: Twelve<int>): Twelve<int> {
    Twelve(r0.x4 + r1.x3 + r2.x2 + r3.x1, r0.x5 + r1.x4 + r2.x3 + r3.x2, r0.x6 + r1.x5 + r2.x4 + r3.x3, r0.x7 + r1.x6 + r2.x5
      + r3.x4, r0.x8 + r1.x7 + r2.x6 + r3.x5, r0.x9 + r1.x8 + r2.x7 + r3.x6, r0.x10 + r1.x9 + r2.x8 + r3.x7, r0.x11 + r1.x10
      + r2.x9 + r3.x8, r1.x11 + r2.x10 + r3.x9, r2.x11 + r3.x10, r3.x11, 0)
  }

  lemma Rows2(r0: Twelve<int>, r1: Twelve<int>, r2: Twelve<int>, r3: Twelve<int>)
    ensures 0x100_0000_0000_0000_0000_0000_0000_0000_0000_0000_0000 * Weigh12(r0)
      + 0x2000_0000_0000_0000_0000_0000_0000_0000_0000_0000_0000_0000 * Weigh12(r1)
      + 0x4_0000_0000_0000_0000_0000_0000_0000_0000_0000_0000_0000_0000_0000 * Weigh12(r2)
      + 0x80_0000_0000_0000_0000_0000_0000_0000_0000_0000_0000_0000_0000_0000_0000 * Weigh12(r3)
      == Weigh12(Low2(r0, r1, r2, r3)) + TWO252 * Weigh12(High2(r0, r1, r2, r3))
  {}

  function PartLow0(a: Twelve<int>, b: Twelve<int>): Twelve<int> {
    Low0(Scale12(a.x0, b), Scale12(a.x1, b), Scale12(a.x2, b), Scale12(a.x3, b))
  }

  function PartHigh0(a: Twelve<int>, b: Twelve<int>): Twelve<int> {
    High0(Scale12(a.x0, b), Scale12(a.x1, b), Scale12(a.x2, b), Scale12(a.x3, b))
  }

  lemma Part0(a: Twelve<int>, b: Twelve<int>)
    ensures (a.x0 * Weigh12(b)) + 0x20_0000 * (a.x1 * Weigh12(b)) + 0x400_0000_0000 * (a.x2 * Weigh12(b))
      + 0x8000_0000_0000_0000 * (a.x3 * Weigh12(b))
      == Weigh12(PartLow0(a, b)) + TWO252 * Weigh12(PartHigh0(a, b))
  {
    ScaleValue(a.x0, b);
    ScaleValue(a.x1, b);
    ScaleValue(a.x2, b);
    ScaleValue(a.x3, b);
    Rows0(Scale12(a.x0, b), Scale12(a.x1, b), Scale12(a.x2, b), Scale12(a.x3, b));
  }

  function PartLow1(a: Twelve<int>, b: Twelve<int>): Twelve<int> {
    Low1(Scale12(a.x4, b), Scale12(a.x5, b), Scale12(a.x6, b), Scale12(a.x7, b))
  }

  function PartHigh1(a: Twelve<int>, b: Twelve<int>): Twelve<int> {
    High1(Scale12(a.x4, b), Scale12(a.x5, b), Scale12(a.x6, b), Scale12(a.x7, b))
  }

  lemma Part1(a: Twelve<int>, b: Twelve<int>)
    ensures 0x10_0000_0000_0000_0000_0000 * (a.x4 * Weigh12(b)) + 0x200_0000_0000_0000_0000_0000_0000 * (a.x5 * Weigh12(b))
      + 0x4000_0000_0000_0000_0000_0000_0000_0000 * (a.x6 * Weigh12(b))
      + 0x8_0000_0000_0000_0000_0000_0000_0000_0000_0000 * (a.x7 * Weigh12(b))
      == Weigh12(PartLow1(a, b)) + TWO252 * Weigh12(PartHigh1(a, b))
  {
    ScaleValue(a.x4, b);
    ScaleValue(a.x5, b);
    ScaleValue(a.x6, b);
    ScaleValue(a.x7, b);
    Rows1(Scale12(a.x4, b), Scale12(a.x5, b), Scale12(a.x6, b), Scale12(a.x7, b));
  }

  function PartLow2(a: Twelve<int>, b: Twelve<int>): Twelve<int> {
    Low2(Scale12(a.x8, b), Scale12(a.x9, b), Scale12(a.x10, b), Scale12(a.x11, b))
  }

  function PartHigh2(a: Twelve<int>, b: Twelve<int>): Twelve<int> {
    High2(Scale12(a.x8, b), Scale12(a.x9, b), Scale12(a.x10, b), Scale12(a.x11, b))
  }

  lemma Part2(a: Twelve<int>, b: Twelve<int>)
    ensures 0x100_0000_0000_0000_0000_0000_0000_0000_0000_0000_0000 * (a.x8 * Weigh12(b))
      + 0x2000_0000_0000_0000_0000_0000_0000_0000_0000_0000_0000_0000 * (a.x9 * Weigh12(b))
      + 0x4_0000_0000_0000_0000_0000_0000_0000_0000_0000_0000_0000_0000_0000 * (a.x10 * Weigh12(b))
      + 0x80_0000_0000_0000_0000_0000_0000_0000_0000_0000_0000_0000_0000_0000_0000 * (a.x11 * Weigh12(b))
      == Weigh12(PartLow2(a, b)) + TWO252 * Weigh12(PartHigh2(a, b))
  {
    ScaleValue(a.x8, b);
    ScaleValue(a.x9, b);
    ScaleValue(a.x10, b);
    ScaleValue(a.x11, b);
    Rows2(Scale12(a.x8, b), Scale12(a.x9, b), Scale12(a.x10, b), Scale12(a.x11, b));
  }

  function ProductLow(a: Twelve<int>, b: Twelve<int>): Twelve<int> {
    Plus12(Plus12(PartLow0(a, b), PartLow1(a, b)), PartLow2(a, b))
  }

  function ProductHigh(a: Twelve<int>, b: Twelve<int>): Twelve<int> {
    Plus12(Plus12(PartHigh0(a, b), PartHigh1(a, b)), PartHigh2(a, b))
  }

  lemma ThreePlus(s: Twelve<int>, t: Twelve<int>, u: Twelve<int>)
    ensures Weigh12(Plus12(Plus12(s, t), u)) == Weigh12(s) + Weigh12(t) + Weigh12(u)
  {}

  lemma ThreeParts(v: int, a: Twelve<int>, p0: int, p1: int, p2: int)
    requires (a.x0 * v) + 0x20_0000 * (a.x1 * v) + 0x400_0000_0000 * (a.x2 * v) + 0x8000_0000_0000_0000 * (a.x3 * v) == p0
    requires 0x10_0000_0000_0000_0000_0000 * (a.x4 * v) + 0x200_0000_0000_0000_0000_0000_0000 * (a.x5 * v)
      + 0x4000_0000_0000_0000_0000_0000_0000_0000 * (a.x6 * v)
      + 0x8_0000_0000_0000_0000_0000_0000_0000_0000_0000 * (a.x7 * v) == p1
    requires 0x100_0000_0000_0000_0000_0000_0000_0000_0000_0000_0000 * (a.x8 * v)
      + 0x2000_0000_0000_0000_0000_0000_0000_0000_0000_0000_0000_0000 * (a.x9 * v)
      + 0x4_0000_0000_0000_0000_0000_0000_0000_0000_0000_0000_0000_0000_0000 * (a.x10 * v)
      + 0x80_0000_0000_0000_0000_0000_0000_0000_0000_0000_0000_0000_0000_0000_0000 * (a.x11 * v) == p2
    ensures Weigh12(a) * v == p0 + p1 + p2
  {
    ScaleValue(v, a);
  }

  /** The columns are the product. */
  lemma ProductValue(a: Twelve<int>, b: Twelve<int>)
    ensures Weigh12(a) * Weigh12(b) == Weigh12(ProductLow(a, b)) + TWO252 * Weigh12(ProductHigh(a, b))
  {
    Part0(a, b);
    Part1(a, b);
    Part2(a, b);
    var l0, l1, l2 := Weigh12(PartLow0(a, b)), Weigh12(PartLow1(a, b)), Weigh12(PartLow2(a, b));
    var h0, h1, h2 := Weigh12(PartHigh0(a, b)), Weigh12(PartHigh1(a, b)), Weigh12(PartHigh2(a, b));
    ThreeParts(Weigh12(b), a, l0 + TWO252 * h0, l1 + TWO252 * h1, l2 + TWO252 * h2);
    ThreePlus(PartLow0(a, b), PartLow1(a, b), PartLow2(a, b));
    ThreePlus(PartHigh0(a, b), PartHigh1(a, b), PartHigh2(a, b));
  }

  // ---------------------------------------------------------------- sc_muladd

  /** Twelve loaded limbs: 21 bits each, 25 in the last. */
  predicate Loaded12(t: Twelve<int64>) {
    && 0 <= t.x0 < 0x20_0000 && 0 <= t.x1 < 0x20_0000 && 0 <= t.x2 < 0x20_0000 && 0 <= t.x3 < 0x20_0000
      && 0 <= t.x4 < 0x20_0000 && 0 <= t.x5 < 0x20_0000
    && 0 <= t.x6 < 0x20_0000 && 0 <= t.x7 < 0x20_0000 && 0 <= t.x8 < 0x20_0000 && 0 <= t.x9 < 0x20_0000
      && 0 <= t.x10 < 0x20_0000 && 0 <= t.x11 < 0x200_0000
  }

  lemma ProductRange(x: int, y: int, m: int, n: int)
    requires 0 <= x < m && 0 <= y < n
    ensures 0 <= x * y <= m * n
  {
    Monotone(x, m, y);
    Monotone(y, n, m);
    Commute(m, y);
    Grow(m, y);
    Monotone(0, x, y);
  }

  /** A product of two limbs, at most one of them the last. */
  function Term21(x: int64, y: int64): (r: int64)
    requires (0 <= x < 0x20_0000 && 0 <= y < 0x200_0000) || (0 <= x < 0x200_0000 && 0 <= y < 0x20_0000)
    ensures r as int == x as int * y as int && 0 <= r <= 0x4000_0000_0000
  {
    if x < 0x20_0000 then ProductRange(x as int, y as int, 0x20_0000, 0x200_0000); x * y
    else ProductRange(x as int, y as int, 0x200_0000, 0x20_0000); x * y
  }

  const COLUMN: int := 0x20_0000 * 402653201

  function Sum0(a: Twelve<int64>, b: Twelve<int64>, c: Twelve<int64>): (r: int64)
    requires Loaded12(a) && Loaded12(b) && Loaded12(c)
    ensures r as int == ProductLow(Ints12(a), Ints12(b)).x0 + c.x0 as int && 0 <= r as int <= COLUMN
  {
    c.x0 + Term21(a.x0, b.x0)
  }

  function Sum1(a: Twelve<int64>, b: Twelve<int64>, c: Twelve<int64>): (r: int64)
    requires Loaded12(a) && Loaded12(b) && Loaded12(c)
    ensures r as int == ProductLow(Ints12(a), Ints12(b)).x1 + c.x1 as int && 0 <= r as int <= COLUMN
  {
    c.x1 + Term21(a.x0, b.x1) + Term21(a.x1, b.x0)
  }

  function Sum2(a: Twelve<int64>, b: Twelve<int64>, c: Twelve<int64>): (r: int64)
    requires Loaded12(a) && Loaded12(b) && Loaded12(c)
    ensures r as int == ProductLow(Ints12(a), Ints12(b)).x2 + c.x2 as int && 0 <= r as int <= COLUMN
  {
    c.x2 + Term21(a.x0, b.x2) + Term21(a.x1, b.x1) + Term21(a.x2, b.x0)
  }

  function Sum3(a: Twelve<int64>, b: Twelve<int64>, c: Twelve<int64>): (r: int64)
    requires Loaded12(a) && Loaded12(b) && Loaded12(c)
    ensures r as int == ProductLow(Ints12(a), Ints12(b)).x3 + c.x3 as int && 0 <= r as int <= COLUMN
  {
    c.x3 + Term21(a.x0, b.x3) + Term21(a.x1, b.x2) + Term21(a.x2, b.x1) + Term21(a.x3, b.x0)
  }

  function Sum4(a: Twelve<int64>, b: Twelve<int64>, c: Twelve<int64>): (r: int64)
    requires Loaded12(a) && Loaded12(b) && Loaded12(c)
    ensures r as int == ProductLow(Ints12(a), Ints12(b)).x4 + c.x4 as int && 0 <= r as int <= COLUMN
  {
    c.x4 + Term21(a.x0, b.x4) + Term21(a.x1, b.x3) + Term21(a.x2, b.x2) + Term21(a.x3, b.x1) + Term21(a.x4, b.x0)
  }

  function Sum5(a: Twelve<int64>, b: Twelve<int64>, c: Twelve<int64>): (r: int64)
    requires Loaded12(a) && Loaded12(b) && Loaded12(c)
    ensures r as int == ProductLow(Ints12(a), Ints12(b)).x5 + c.x5 as int && 0 <= r as int <= COLUMN
  {
    c.x5 + Term21(a.x0, b.x5) + Term21(a.x1, b.x4) + Term21(a.x2, b.x3) + Term21(a.x3, b.x2) + Term21(a.x4, b.x1)
      + Term21(a.x5, b.x0)
  }

  function Sum6(a: Twelve<int64>, b: Twelve<int64>, c: Twelve<int64>): (r: int64)
    requires Loaded12(a) && Loaded12(b) && Loaded12(c)
    ensures r as int == ProductLow(Ints12(a), Ints12(b)).x6 + c.x6 as int && 0 <= r as int <= COLUMN
  {
    c.x6 + Term21(a.x0, b.x6) + Term21(a.x1, b.x5) + Term21(a.x2, b.x4) + Term21(a.x3, b.x3) + Term21(a.x4, b.x2)
      + Term21(a.x5, b.x1)
    + Term21(a.x6, b.x0)
  }

  function Sum7(a: Twelve<int64>, b: Twelve<int64>, c: Twelve<int64>): (r: int64)
    requires Loaded12(a) && Loaded12(b) && Loaded12(c)
    ensures r as int == ProductLow(Ints12(a), Ints12(b)).x7 + c.x7 as int && 0 <= r as int <= COLUMN
  {
    c.x7 + Term21(a.x0, b.x7) + Term21(a.x1, b.x6) + Term21(a.x2, b.x5) + Term21(a.x3, b.x4) + Term21(a.x4, b.x3)
      + Term21(a.x5, b.x2)
    + Term21(a.x6, b.x1) + Term21(a.x7, b.x0)
  }

  function Sum8(a: Twelve<int64>, b: Twelve<int64>, c: Twelve<int64>): (r: int64)
    requires Loaded12(a) && Loaded12(b) && Loaded12(c)
    ensures r as int == ProductLow(Ints12(a), Ints12(b)).x8 + c.x8 as int && 0 <= r as int <= COLUMN
  {
    c.x8 + Term21(a.x0, b.x8) + Term21(a.x1, b.x7) + Term21(a.x2, b.x6) + Term21(a.x3, b.x5) + Term21(a.x4, b.x4)
      + Term21(a.x5, b.x3)
    + Term21(a.x6, b.x2) + Term21(a.x7, b.x1) + Term21(a.x8, b.x0)
  }

  function Sum9(a: Twelve<int64>, b: Twelve<int64>, c: Twelve<int64>): (r: int64)
    requires Loaded12(a) && Loaded12(b) && Loaded12(c)
    ensures r as int == ProductLow(Ints12(a), Ints12(b)).x9 + c.x9 as int && 0 <= r as int <= COLUMN
  {
    c.x9 + Term21(a.x0, b.x9) + Term21(a.x1, b.x8) + Term21(a.x2, b.x7) + Term21(a.x3, b.x6) + Term21(a.x4, b.x5)
      + Term21(a.x5, b.x4)
    + Term21(a.x6, b.x3) + Term21(a.x7, b.x2) + Term21(a.x8, b.x1) + Term21(a.x9, b.x0)
  }

  function Sum10(a: Twelve<int64>, b: Twelve<int64>, c: Twelve<int64>): (r: int64)
    requires Loaded12(a) && Loaded12(b) && Loaded12(c)
    ensures r as int == ProductLow(Ints12(a), Ints12(b)).x10 + c.x10 as int && 0 <= r as int <= COLUMN
  {
    c.x10 + Term21(a.x0, b.x10) + Term21(a.x1, b.x9) + Term21(a.x2, b.x8) + Term21(a.x3, b.x7) + Term21(a.x4, b.x6)
      + Term21(a.x5, b.x5)
    + Term21(a.x6, b.x4) + Term21(a.x7, b.x3) + Term21(a.x8, b.x2) + Term21(a.x9, b.x1) + Term21(a.x10, b.x0)
  }

  function Sum11(a: Twelve<int64>, b: Twelve<int64>, c: Twelve<int64>): (r: int64)
    requires Loaded12(a) && Loaded12(b) && Loaded12(c)
    ensures r as int == ProductLow(Ints12(a), Ints12(b)).x11 + c.x11 as int && 0 <= r as int <= COLUMN
  {
    c.x11 + Term21(a.x0, b.x11) + Term21(a.x1, b.x10) + Term21(a.x2, b.x9) + Term21(a.x3, b.x8) + Term21(a.x4, b.x7)
      + Term21(a.x5, b.x6)
    + Term21(a.x6, b.x5) + Term21(a.x7, b.x4) + Term21(a.x8, b.x3) + Term21(a.x9, b.x2) + Term21(a.x10, b.x1) + Term21(a.x11,
      b.x0)
  }

  function Sum12(a: Twelve<int64>, b: Twelve<int64>): (r: int64)
    requires Loaded12(a) && Loaded12(b)
    ensures r as int == ProductHigh(Ints12(a), Ints12(b)).x0 && 0 <= r as int <= COLUMN
  {
    Term21(a.x1, b.x11) + Term21(a.x2, b.x10) + Term21(a.x3, b.x9) + Term21(a.x4, b.x8) + Term21(a.x5, b.x7) + Term21(a.x6,
      b.x6)
    + Term21(a.x7, b.x5) + Term21(a.x8, b.x4) + Term21(a.x9, b.x3) + Term21(a.x10, b.x2) + Term21(a.x11, b.x1)
  }

  function Sum13(a: Twelve<int64>, b: Twelve<int64>): (r: int64)
    requires Loaded12(a) && Loaded12(b)
    ensures r as int == ProductHigh(Ints12(a), Ints12(b)).x1 && 0 <= r as int <= COLUMN
  {
    Term21(a.x2, b.x11) + Term21(a.x3, b.x10) + Term21(a.x4, b.x9) + Term21(a.x5, b.x8) + Term21(a.x6, b.x7) + Term21(a.x7,
      b.x6)
    + Term21(a.x8, b.x5) + Term21(a.x9, b.x4) + Term21(a.x10, b.x3) + Term21(a.x11, b.x2)
  }

  function Sum14(a: Twelve<int64>, b: Twelve<int64>): (r: int64)
    requires Loaded12(a) && Loaded12(b)
    ensures r as int == ProductHigh(Ints12(a), Ints12(b)).x2 && 0 <= r as int <= COLUMN
  {
    Term21(a.x3, b.x11) + Term21(a.x4, b.x10) + Term21(a.x5, b.x9) + Term21(a.x6, b.x8) + Term21(a.x7, b.x7) + Term21(a.x8,
      b.x6)
    + Term21(a.x9, b.x5) + Term21(a.x10, b.x4) + Term21(a.x11, b.x3)
  }

  function Sum15(a: Twelve<int64>, b: Twelve<int64>): (r: int64)
    requires Loaded12(a) && Loaded12(b)
    ensures r as int == ProductHigh(Ints12(a), Ints12(b)).x3 && 0 <= r as int <= COLUMN
  {
    Term21(a.x4, b.x11) + Term21(a.x5, b.x10) + Term21(a.x6, b.x9) + Term21(a.x7, b.x8) + Term21(a.x8, b.x7) + Term21(a.x9,
      b.x6)
    + Term21(a.x10, b.x5) + Term21(a.x11, b.x4)
  }

  function Sum16(a: Twelve<int64>, b: Twelve<int64>): (r: int64)
    requires Loaded12(a) && Loaded12(b)
    ensures r as int == ProductHigh(Ints12(a), Ints12(b)).x4 && 0 <= r as int <= COLUMN
  {
    Term21(a.x5, b.x11) + Term21(a.x6, b.x10) + Term21(a.x7, b.x9) + Term21(a.x8, b.x8) + Term21(a.x9, b.x7) + Term21(a.x10,
      b.x6)
    + Term21(a.x11, b.x5)
  }

  function Sum17(a: Twelve<int64>, b: Twelve<int64>): (r: int64)
    requires Loaded12(a) && Loaded12(b)
    ensures r as int == ProductHigh(Ints12(a), Ints12(b)).x5 && 0 <= r as int <= COLUMN
  {
    Term21(a.x6, b.x11) + Term21(a.x7, b.x10) + Term21(a.x8, b.x9) + Term21(a.x9, b.x8) + Term21(a.x10, b.x7) + Term21(a.x11,
      b.x6)
  }

  function Sum18(a: Twelve<int64>, b: Twelve<int64>): (r: int64)
    requires Loaded12(a) && Loaded12(b)
    ensures r as int == ProductHigh(Ints12(a), Ints12(b)).x6 && 0 <= r as int <= COLUMN
  {
    Term21(a.x7, b.x11) + Term21(a.x8, b.x10) + Term21(a.x9, b.x9) + Term21(a.x10, b.x8) + Term21(a.x11, b.x7)
  }

  function Sum19(a: Twelve<int64>, b: Twelve<int64>): (r: int64)
    requires Loaded12(a) && Loaded12(b)
    ensures r as int == ProductHigh(Ints12(a), Ints12(b)).x7 && 0 <= r as int <= COLUMN
  {
    Term21(a.x8, b.x11) + Term21(a.x9, b.x10) + Term21(a.x10, b.x9) + Term21(a.x11, b.x8)
  }

  function Sum20(a: Twelve<int64>, b: Twelve<int64>): (r: int64)
    requires Loaded12(a) && Loaded12(b)
    ensures r as int == ProductHigh(Ints12(a), Ints12(b)).x8 && 0 <= r as int <= COLUMN
  {
    Term21(a.x9, b.x11) + Term21(a.x10, b.x10) + Term21(a.x11, b.x9)
  }

  function Sum21(a: Twelve<int64>, b: Twelve<int64>): (r: int64)
    requires Loaded12(a) && Loaded12(b)
    ensures r as int == ProductHigh(Ints12(a), Ints12(b)).x9 && 0 <= r as int <= COLUMN
  {
    Term21(a.x10, b.x11) + Term21(a.x11, b.x10)
  }

  function Sum22(a: Twelve<int64>, b: Twelve<int64>): (r: int64)
    requires Loaded12(a) && Loaded12(b)
    ensures r as int == ProductHigh(Ints12(a), Ints12(b)).x10 && 0 <= r as int <= 0x20_0000 * 0x2000_0000
  {
    ProductRange(a.x11 as int, b.x11 as int, 0x200_0000, 0x200_0000);
    a.x11 * b.x11
  }

  method ColumnsLow(a: Twelve<int64>, b: Twelve<int64>, c: Twelve<int64>) returns (t: Twelve<int64>)
    requires Loaded12(a) && Loaded12(b) && Loaded12(c)
    ensures Ints12(t) == Plus12(ProductLow(Ints12(a), Ints12(b)), Ints12(c)) && All12(t, COLUMN)
  {
    t := Twelve(Sum0(a, b, c), Sum1(a, b, c), Sum2(a, b, c), Sum3(a, b, c), Sum4(a, b, c), Sum5(a, b, c), Sum6(a, b, c),
      Sum7(a, b, c), Sum8(a, b, c), Sum9(a, b, c), Sum10(a, b, c), Sum11(a, b, c));
  }

  method ColumnsHigh(a: Twelve<int64>, b: Twelve<int64>) returns (t: Twelve<int64>)
    requires Loaded12(a) && Loaded12(b)
    ensures Ints12(t) == ProductHigh(Ints12(a), Ints12(b)) && All12(t, 0x20_0000 * 0x2000_0000) && t.x11 == 0
  {
    t := Twelve(Sum12(a, b), Sum13(a, b), Sum14(a, b), Sum15(a, b), Sum16(a, b), Sum17(a, b), Sum18(a, b), Sum19(a, b),
      Sum20(a, b), Sum21(a, b), Sum22(a, b), 0);
  }

  /** The 23 rounded carries of sc_muladd: even limbs, then odd ones, over both halves. */
  method RoundBoth(lo: Twelve<int64>, hi: Twelve<int64>) returns (r: Twelve<int64>, s: Twelve<int64>)
    requires All12(lo, COLUMN) && All12(hi, 0x20_0000 * 0x2000_0000) && hi.x11 == 0
    ensures Weigh12(Ints12(r)) + TWO252 * Weigh12(Ints12(s)) == Weigh12(Ints12(lo)) + TWO252 * Weigh12(Ints12(hi))
    ensures All12(r, 541065216) && All12(s, 541065216)
  {
    var u := RoundTwelve(lo, 402653201, COLUMN);
    var c := Round21(u.x11, 402653401);
    r := u.(x11 := u.x11 - c * 0x20_0000);
    TopMoved(Ints12(u), c as int);
    var v := RoundTwelve(hi, 0x2000_0000, 0);
    s := v.(x0 := v.x0 + c);
    BottomMoved(Ints12(v), c as int);
  }

  lemma BottomMoved(v: Twelve<int>, c: int)
    ensures Weigh12(v.(x0 := v.x0 + c)) == Weigh12(v) + c
  {}

  /** Two halves as six, twelve and six limbs. */
  lemma TwoTwelves(r: Twelve<int>, s: Twelve<int>)
    ensures Weigh24(Six(r.x0, r.x1, r.x2, r.x3, r.x4, r.x5), Twelve(r.x6, r.x7, r.x8, r.x9, r.x10, r.x11, s.x0, s.x1, s.x2,
      s.x3, s.x4, s.x5), Six(s.x6, s.x7, s.x8, s.x9, s.x10, s.x11))
      == Weigh12(r) + TWO252 * Weigh12(s)
  {}

  /** The value of the columns. */
  lemma ColumnsSum(a: Twelve<int>, b: Twelve<int>, c: Twelve<int>)
    ensures Weigh12(Plus12(ProductLow(a, b), c)) + TWO252 * Weigh12(ProductHigh(a, b))
      == Weigh12(a) * Weigh12(b) + Weigh12(c)
  {
    ProductValue(a, b);
    TwoPlus(ProductLow(a, b), c);
  }

  lemma TwoPlus(s: Twelve<int>, t: Twelve<int>)
    ensures Weigh12(Plus12(s, t)) == Weigh12(s) + Weigh12(t)
  {}

  method MulAddLimbs(a: Twelve<int64>, b: Twelve<int64>, c: Twelve<int64>, ghost n: int) returns (r: Twelve<int64>)
    requires Loaded12(a) && Loaded12(b) && Loaded12(c)
    requires n == Weigh12(Ints12(a)) * Weigh12(Ints12(b)) + Weigh12(Ints12(c))
    ensures Canonical12(r) && Weigh12(Ints12(r)) == n % ORDER
  {
    var lo := ColumnsLow(a, b, c);
    var hi := ColumnsHigh(a, b);
    ColumnsSum(Ints12(a), Ints12(b), Ints12(c));
    r := ReduceHalves(lo, hi, n);
  }

  method ReduceHalves(lo: Twelve<int64>, hi: Twelve<int64>, ghost n: int) returns (r: Twelve<int64>)
    requires All12(lo, COLUMN) && All12(hi, 0x20_0000 * 0x2000_0000) && hi.x11 == 0
    requires n == Weigh12(Ints12(lo)) + TWO252 * Weigh12(Ints12(hi))
    ensures Canonical12(r) && Weigh12(Ints12(r)) == n % ORDER
  {
    var x, y := RoundBoth(lo, hi);
    TwoTwelves(Ints12(x), Ints12(y));
    r := Reduce24(Six(x.x0, x.x1, x.x2, x.x3, x.x4, x.x5),
                  Twelve(x.x6, x.x7, x.x8, x.x9, x.x10, x.x11, y.x0, y.x1, y.x2, y.x3, y.x4, y.x5),
                  Six(y.x6, y.x7, y.x8, y.x9, y.x10, y.x11), n);
  }

  // ---------------------------------------------------------------- the twelve loads

  lemma WideLimb(a: byte, b: byte, c: byte, d: byte)
    ensures Word(a, b, c, d) / 128 == a as int / 128 + 0x2 * b + 0x200 * c + 0x2_0000 * d
  {
    ModUnique(Word(a, b, c, d), a as int / 128 + 0x2 * b + 0x200 * c + 0x2_0000 * d, a % 128, 128);
  }

  /** The pieces of the last eleven bytes; the last byte stays whole. */
  function CutTail(s: seq<byte>): Pieces
    requires |s| == 32
  {
    Pieces(s[21], s[22], s[23] % 32, s[23] / 32, s[24], s[25], s[26] % 4, s[26] / 4, s[27], s[28] % 128, s[28] / 128, s[29],
      s[30], s[31],
           0, 0, 0, 0, 0, 0, 0, 0, 0, 0, 0, 0, 0, 0)
  }

  lemma ElevenNat(t: seq<byte>)
    requires |t| == 11
    ensures LeNat(t) == Word(t[0], t[1], t[2], t[3]) + 0x1_0000_0000 * (Word(t[4], t[5], t[6], t[7])
      + 0x1_0000_0000 * Word(t[8], t[9], t[10], 0))
  {
    WordNat(t);
    WordNat(t[4..]);
    assert t[4..][4..] == t[8..];
    ThreeNat(t[8..]);
  }

  lemma TailCut(s: seq<byte>)
    requires |s| == 32
    ensures TailWords(CutTail(s)) == Word(s[21], s[22], s[23], s[24])
      + 0x1_0000_0000 * (Word(s[25], s[26], s[27], s[28]) + 0x1_0000_0000 * Word(s[29], s[30], s[31], 0))
  {
    assert s[23] == s[23] % 32 + 32 * (s[23] as int / 32);
    assert s[26] == s[26] % 4 + 4 * (s[26] as int / 4);
    assert s[28] == s[28] % 128 + 128 * (s[28] as int / 128);
  }

  lemma TailLimbs(g: Pieces)
    requires Clipped(g) == g
    ensures TailWords(g) == Weigh8(LimbsOf(g))
  {
    TailBytes(g);
    SameNumber(g);
  }

  lemma TailNat(s: seq<byte>)
    requires |s| == 32
    ensures LeNat(s[21..]) == Weigh8(LimbsOf(CutTail(s)))
  {
    ElevenNat(s[21..]);
    TailCut(s);
    TailLimbs(CutTail(s));
  }

  method LoadTail(s: seq<byte>) returns (t: Eight)
    requires |s| == 32
    ensures LeNat(s[21..]) == Weigh8(t)
    ensures 0 <= t.x0 < 0x20_0000 && 0 <= t.x1 < 0x20_0000 && 0 <= t.x2 < 0x20_0000 && 0 <= t.x3 < 0x200_0000
    ensures t.x4 == 0 && t.x5 == 0 && t.x6 == 0 && t.x7 == 0
  {
    TailNat(s);
    Limb0(s[21], s[22], s[23]);
    Limb1(s[23], s[24], s[25], s[26]);
    Limb2(s[26], s[27], s[28]);
    WideLimb(s[28], s[29], s[30], s[31]);
    t := Eight(Load3(s, 21) % 0x20_0000, Load4(s, 23) / 32 % 0x20_0000, Load3(s, 26) / 4 % 0x20_0000, Load4(s, 28) / 128, 0, 0,
      0, 0);
    assert t == LimbsOf(CutTail(s));
  }

  method LoadTwelve(s: seq<byte>) returns (t: Twelve<int64>)
    requires |s| == 32
    ensures Loaded12(t) && Weigh12(Ints12(t)) == LeNat(s)
  {
    assert s[0..] == s;
    var g := LoadEight(s, 0);
    LoadsRange(s, 0);
    var h := LoadTail(s);
    t := Twelve(g.x0 as int64, g.x1 as int64, g.x2 as int64, g.x3 as int64, g.x4 as int64, g.x5 as int64, g.x6 as int64,
      g.x7 as int64, h.x0 as int64, h.x1 as int64, h.x2 as int64, h.x3 as int64);
    HeadTail(Ints12(t));
    assert Head(Ints12(t)) == g && Tail(Ints12(t)) == h;
  }

  /** sc_muladd: the residue in [0, l) of ab + c, for all 32-byte inputs. */
  method ScMulAdd(a: seq<byte>, b: seq<byte>, c: seq<byte>) returns (s: seq<byte>)
    requires |a| == 32 && |b| == 32 && |c| == 32
    ensures |s| == 32 && LeNat(s) == (LeNat(a) * LeNat(b) + LeNat(c)) % ORDER
  {
    var x := LoadTwelve(a);
    var y := LoadTwelve(b);
    var z := LoadTwelve(c);
    var r := MulAddLimbs(x, y, z, LeNat(a) * LeNat(b) + LeNat(c));
    StoreValue(r);
    s := Store(r);
  }
}
