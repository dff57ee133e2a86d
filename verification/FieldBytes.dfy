/** Field elements to and from bytes: the canonical residue, and every 255-bit string. */
module FieldBytes {
  import opened Arith
  import opened Bytes
  import opened Field

  const TWO255: nat := 0x8000_0000_0000_0000_0000_0000_0000_0000_0000_0000_0000_0000_0000_0000_0000_0000

  // ---------------------------------------------------------------- reduction to the canonical residue

  /** What fe_tobytes accepts: 1.1 * 2^26 and 1.1 * 2^25. */
  predicate Encodable(h: Fe) {
    Bounded(h, 73819750, 36909875)
  }

  /** Floor division by 2^26 and 2^25: the arithmetic shifts. */
  method Shift26(x: int32) returns (q: int32)
    ensures 0 <= x as int - 0x400_0000 * q as int < 0x400_0000
  {
    q := x / 0x400_0000;
  }

  method Shift25(x: int32) returns (q: int32)
    ensures 0 <= x as int - 0x200_0000 * q as int < 0x200_0000
  {
    q := x / 0x200_0000;
  }

  /** Five shifts: the floor of five limbs plus c, by 2^128 or 2^127. */
  method EstimateLow(x0: int32, x1: int32, x2: int32, x3: int32, x4: int32, c: int32) returns (q: int32)
    requires Small(x0, 73819750) && Small(x1, 36909875) && Small(x2, 73819750) && Small(x3, 36909875) && Small(x4, 73819750)
    requires Small(c, 64)
    ensures Small(q, 64)
    ensures 0 <= x0 as int + 0x400_0000 * x1 as int + 0x8_0000_0000_0000 * x2 as int
      + 0x2000_0000_0000_0000_0000 * x3 as int + 0x40_0000_0000_0000_0000_0000_0000 * x4 as int
      + c as int - 0x1_0000_0000_0000_0000_0000_0000_0000_0000 * q as int < 0x1_0000_0000_0000_0000_0000_0000_0000_0000
  {
    var q0 := Shift26(x0 + c);
    var q1 := Shift25(x1 + q0);
    var q2 := Shift26(x2 + q1);
    var q3 := Shift25(x3 + q2);
    q := Shift26(x4 + q3);
  }

  method EstimateHigh(x5: int32, x6: int32, x7: int32, x8: int32, x9: int32, c: int32) returns (q: int32)
    requires Small(x5, 36909875) && Small(x6, 73819750) && Small(x7, 36909875) && Small(x8, 73819750) && Small(x9, 36909875)
    requires Small(c, 64)
    ensures Small(q, 2)
    ensures 0 <= x5 as int + 0x200_0000 * x6 as int + 0x8_0000_0000_0000 * x7 as int
      + 0x1000_0000_0000_0000_0000 * x8 as int + 0x40_0000_0000_0000_0000_0000_0000 * x9 as int
      + c as int - 0x8000_0000_0000_0000_0000_0000_0000_0000 * q as int < 0x8000_0000_0000_0000_0000_0000_0000_0000
  {
    var q5 := Shift25(x5 + c);
    var q6 := Shift26(x6 + q5);
    var q7 := Shift25(x7 + q6);
    var q8 := Shift26(x8 + q7);
    q := Shift25(x9 + q8);
  }

  predicate Small(x: int32, b: int) {
    -b <= x as int <= b
  }

  /** The first chain: q is the floor of (h + c) / 2^255, where c is the rounded 19 h9 / 2^25. */
  method Estimate(h: Fe) returns (q: int32, ghost c: int)
    requires Encodable(h)
    ensures 0 <= 19 * h.x9 as int + 0x100_0000 - 0x200_0000 * c < 0x200_0000
    ensures 0 <= V(h) + c - TWO255 * q as int < TWO255 && -2 <= q as int <= 2
  {
    q := Shift25(19 * h.x9 + 0x100_0000);
    c := q as int;
    q := EstimateLow(h.x0, h.x1, h.x2, h.x3, h.x4, q);
    q := EstimateHigh(h.x5, h.x6, h.x7, h.x8, h.x9, q);
  }

  const TWO230: nat := 0x40_0000_0000_0000_0000_0000_0000_0000_0000_0000_0000_0000_0000_0000_0000

  /** That estimate is exact: it is the quotient by p. The lower limbs are too small to matter, and the
      quotient is between -2 and 1. */
  lemma EstimateExact(v: int, h9: int, c: int, q: int)
    requires -4096 * TWO230 < v - TWO230 * h9 < 4096 * TWO230
    requires -2 * TWO255 <= v <= 2 * TWO255
    requires 0 <= 19 * h9 + 0x100_0000 - 0x200_0000 * c < 0x200_0000
    requires 0 <= v + c - TWO255 * q < TWO255
    ensures 0 <= v - P * q < P
  {
    var k := v / P;
    DivMod(v, P);
    assert -3 <= k <= 3;
    assert 0 <= c - 19 * k <= 19;
    assert q == k;
  }

  lemma LowLimbs(h: Fe)
    requires Encodable(h)
    ensures -4096 * TWO230 < V(h) - TWO230 * h.x9 as int < 4096 * TWO230
    ensures -2 * TWO255 <= V(h) <= 2 * TWO255
  {}

  predicate Canonical(h: Fe) {
    && 0 <= h.x0 < 0x400_0000 && 0 <= h.x1 < 0x200_0000 && 0 <= h.x2 < 0x400_0000 && 0 <= h.x3 < 0x200_0000
    && 0 <= h.x4 < 0x400_0000 && 0 <= h.x5 < 0x200_0000 && 0 <= h.x6 < 0x400_0000 && 0 <= h.x7 < 0x200_0000
    && 0 <= h.x8 < 0x400_0000 && 0 <= h.x9 < 0x200_0000
  }

  /** The second chain: add 19 q, carry upwards, drop the carry out of the top. */
  method Propagate(h: Fe, q: int32) returns (r: Fe, ghost top: int)
    requires Encodable(h) && -2 <= q <= 2
    ensures Canonical(r) && V(r) + TWO255 * top == V(h) + 19 * q as int
  {
    var h0 := h.x0 + 19 * q;
    var c0 := Shift26(h0);
    var h1 := h.x1 + c0;
    var c1 := Shift25(h1);
    var h2 := h.x2 + c1;
    var c2 := Shift26(h2);
    var h3 := h.x3 + c2;
    var c3 := Shift25(h3);
    var h4 := h.x4 + c3;
    var c4 := Shift26(h4);
    var h5 := h.x5 + c4;
    var c5 := Shift25(h5);
    var h6 := h.x6 + c5;
    var c6 := Shift26(h6);
    var h7 := h.x7 + c6;
    var c7 := Shift25(h7);
    var h8 := h.x8 + c7;
    var c8 := Shift26(h8);
    var h9 := h.x9 + c8;
    var c9 := Shift25(h9);
    r := Ten(h0 - c0 * 0x400_0000, h1 - c1 * 0x200_0000, h2 - c2 * 0x400_0000, h3 - c3 * 0x200_0000, h4 - c4 * 0x400_0000,
             h5 - c5 * 0x200_0000, h6 - c6 * 0x400_0000, h7 - c7 * 0x200_0000, h8 - c8 * 0x400_0000, h9 - c9 * 0x200_0000);
    top := c9 as int;
  }

  /** The limbs fe_tobytes writes out: those of the residue in [0, p). */
  method Reduce(h: Fe) returns (r: Fe)
    requires Encodable(h)
    ensures Canonical(r) && V(r) == V(h) % P
  {
    var q, c := Estimate(h);
    LowLimbs(h);
    EstimateExact(V(h), h.x9 as int, c, q as int);
    ghost var top;
    r, top := Propagate(h, q);
    Residue(V(h), q as int, V(r), top);
    CanonicalBound(r);
  }

  lemma CanonicalBound(r: Fe)
    requires Canonical(r)
    ensures 0 <= V(r) < TWO255
  {}

  lemma Residue(v: int, q: int, r: int, top: int)
    requires 0 <= v - P * q < P && r + TWO255 * top == v + 19 * q
    ensures 0 <= r < TWO255 ==> r == v % P
  {
    ModUnique(v, q, v - P * q, P);
  }

  // ---------------------------------------------------------------- packing

  /** 32 bytes as eight words. */
  lemma EightWords(s: seq<byte>)
    requires |s| == 32
    ensures LeNat(s) == Word(s[0], s[1], s[2], s[3])
      + 0x1_0000_0000 * (Word(s[4], s[5], s[6], s[7])
      + 0x1_0000_0000 * (Word(s[8], s[9], s[10], s[11])
      + 0x1_0000_0000 * (Word(s[12], s[13], s[14], s[15])
      + 0x1_0000_0000 * (Word(s[16], s[17], s[18], s[19])
      + 0x1_0000_0000 * (Word(s[20], s[21], s[22], s[23])
      + 0x1_0000_0000 * (Word(s[24], s[25], s[26], s[27])
      + 0x1_0000_0000 * Word(s[28], s[29], s[30], s[31])))))))
  {
    WordNat(s);
    WordNat(s[4..]);
    assert s[4..][4..] == s[8..];
    WordNat(s[8..]);
    assert s[8..][4..] == s[12..];
    WordNat(s[12..]);
    assert s[12..][4..] == s[16..];
    WordNat(s[16..]);
    assert s[16..][4..] == s[20..];
    WordNat(s[20..]);
    assert s[20..][4..] == s[24..];
    WordNat(s[24..]);
    assert s[24..][4..] == s[28..];
    WordNat(s[28..]);
    assert s[28..][4..] == [];
  }

  /** The parts of a limb that go to different bytes: below m, two bytes, and the rest. */
  datatype Cut = Cut(low: int, a: byte, b: byte, high: int)

  function CutAt(h: int, m: int): Cut
    requires m > 0
  {
    Cut(h % m, h / m % 256, h / (m * 0x100) % 256, h / (m * 0x1_0000))
  }

  function Whole(m: int, c: Cut): int {
    c.low + m * c.a + (m * 0x100) * c.b + (m * 0x1_0000) * c.high
  }

  predicate Fit(c: Cut, m: int, top: int) {
    0 <= c.low < m && 0 <= c.high < top
  }

  lemma CutSums(h: int, m: int, top: int)
    requires 0 <= h < (m * 0x1_0000) * top && m > 0
    ensures h == Whole(m, CutAt(h, m)) && Fit(CutAt(h, m), m, top)
  {
    FourPieces(h, m);
    DivMod(h, m);
    DivMod(h, m * 0x1_0000);
    var n, q := m * 0x1_0000, h / (m * 0x1_0000);
    if q >= top {
      Monotone(top, q, n);
      Commute(n, top);
      Commute(n, q);
    }
    if q < 0 {
      Grow(n, q);
    }
  }

  /** The ranges follow from where each limb meets a byte boundary. */
  predicate Cuts(c: Ten<Cut>) {
    && Fit(c.x0, 0x100, 4) && Fit(c.x1, 0x40, 8) && Fit(c.x2, 0x20, 32) && Fit(c.x3, 0x8, 64) && Fit(c.x4, 0x4, 256)
    && Fit(c.x5, 0x100, 2) && Fit(c.x6, 0x80, 8) && Fit(c.x7, 0x20, 16) && Fit(c.x8, 0x10, 64) && Fit(c.x9, 0x4, 128)
  }

  function Limbs(c: Ten<Cut>): Ten<int> {
    Ten(Whole(0x100, c.x0), Whole(0x40, c.x1), Whole(0x20, c.x2), Whole(0x8, c.x3), Whole(0x4, c.x4),
        Whole(0x100, c.x5), Whole(0x80, c.x6), Whole(0x20, c.x7), Whole(0x10, c.x8), Whole(0x4, c.x9))
  }

  function CutAll(h: Fe): Ten<Cut> {
    var t := Ints(h);
    Ten(CutAt(t.x0, 0x100), CutAt(t.x1, 0x40), CutAt(t.x2, 0x20), CutAt(t.x3, 0x8), CutAt(t.x4, 0x4),
        CutAt(t.x5, 0x100), CutAt(t.x6, 0x80), CutAt(t.x7, 0x20), CutAt(t.x8, 0x10), CutAt(t.x9, 0x4))
  }

  lemma CutsHold(h: Fe)
    requires Canonical(h)
    ensures Cuts(CutAll(h)) && Limbs(CutAll(h)) == Ints(h)
  {
    var t := Ints(h);
    CutSums(t.x0, 0x100, 4);
    CutSums(t.x1, 0x40, 8);
    CutSums(t.x2, 0x20, 32);
    CutSums(t.x3, 0x8, 64);
    CutSums(t.x4, 0x4, 256);
    CutSums(t.x5, 0x100, 2);
    CutSums(t.x6, 0x80, 8);
    CutSums(t.x7, 0x20, 16);
    CutSums(t.x8, 0x10, 64);
    CutSums(t.x9, 0x4, 128);
  }

  /** The bytes fe_tobytes writes. Where two limbs share a byte, the shifted lower bits of the second do
      not meet the upper bits of the first, so the source's bitwise or is a sum. */
  function Pack(c: Ten<Cut>): (s: seq<byte>)
    requires Cuts(c)
    ensures |s| == 32
  {
    PackLow(c) + PackHigh(c)
  }

  function PackLow(c: Ten<Cut>): (s: seq<byte>)
    requires Cuts(c)
    ensures |s| == 16
  {
    Sixteen(c.x0.low, c.x0.a, c.x0.b, c.x0.high + 4 * c.x1.low,
            c.x1.a, c.x1.b, c.x1.high + 8 * c.x2.low, c.x2.a,
            c.x2.b, c.x2.high + 32 * c.x3.low, c.x3.a, c.x3.b,
            c.x3.high + 64 * c.x4.low, c.x4.a, c.x4.b, c.x4.high)
  }

  function PackHigh(c: Ten<Cut>): (s: seq<byte>)
    requires Cuts(c)
    ensures |s| == 16
  {
    Sixteen(c.x5.low, c.x5.a, c.x5.b, c.x5.high + 2 * c.x6.low,
            c.x6.a, c.x6.b, c.x6.high + 8 * c.x7.low, c.x7.a,
            c.x7.b, c.x7.high + 16 * c.x8.low, c.x8.a, c.x8.b,
            c.x8.high + 64 * c.x9.low, c.x9.a, c.x9.b, c.x9.high)
  }

  function Sixteen(b0: byte, b1: byte, b2: byte, b3: byte, b4: byte, b5: byte, b6: byte, b7: byte,
                   b8: byte, b9: byte, b10: byte, b11: byte, b12: byte, b13: byte, b14: byte, b15: byte): (s: seq<byte>)
    ensures |s| == 16
  {
    [b0, b1, b2, b3] + [b4, b5, b6, b7] + [b8, b9, b10, b11] + [b12, b13, b14, b15]
  }

  function Four(w0: int, w1: int, w2: int, w3: int): int {
    w0 + 0x1_0000_0000 * (w1 + 0x1_0000_0000 * (w2 + 0x1_0000_0000 * w3))
  }

  lemma SixteenValue(b0: byte, b1: byte, b2: byte, b3: byte, b4: byte, b5: byte, b6: byte, b7: byte,
                     b8: byte, b9: byte, b10: byte, b11: byte, b12: byte, b13: byte, b14: byte, b15: byte)
    ensures LeNat(Sixteen(b0, b1, b2, b3, b4, b5, b6, b7, b8, b9, b10, b11, b12, b13, b14, b15)) ==
      Four(Word(b0, b1, b2, b3), Word(b4, b5, b6, b7), Word(b8, b9, b10, b11), Word(b12, b13, b14, b15))
  {
    var s := Sixteen(b0, b1, b2, b3, b4, b5, b6, b7, b8, b9, b10, b11, b12, b13, b14, b15);
    WordNat(s);
    WordNat(s[4..]);
    assert s[4..][4..] == s[8..];
    WordNat(s[8..]);
    assert s[8..][4..] == s[12..];
    WordNat(s[12..]);
    assert s[12..][4..] == [];
  }

  lemma TwoHalves(x: seq<byte>, y: seq<byte>)
    requires |x| == 16
    ensures LeNat(x + y) == LeNat(x) + 0x1_0000_0000_0000_0000_0000_0000_0000_0000 * LeNat(y)
  {
    LeConcat(x, y);
    Pow256Of16();
  }

  lemma Pow256Of16()
    ensures Pow256(16) == 0x1_0000_0000_0000_0000_0000_0000_0000_0000
  {
    Pow256Of8();
    var n: nat := 8;
    Pow256Add(n, n);
  }

  function LowWords(c: Ten<Cut>): int {
    Four(Word(c.x0.low, c.x0.a, c.x0.b, c.x0.high + 4 * c.x1.low), Word(c.x1.a, c.x1.b, c.x1.high + 8 * c.x2.low, c.x2.a),
         Word(c.x2.b, c.x2.high + 32 * c.x3.low, c.x3.a, c.x3.b), Word(c.x3.high + 64 * c.x4.low, c.x4.a, c.x4.b, c.x4.high))
  }

  lemma LowUnfold(c: Ten<Cut>)
    requires Cuts(c)
    ensures LeNat(PackLow(c)) == LowWords(c)
  {
    SixteenValue(c.x0.low, c.x0.a, c.x0.b, c.x0.high + 4 * c.x1.low, c.x1.a, c.x1.b, c.x1.high + 8 * c.x2.low, c.x2.a,
                 c.x2.b, c.x2.high + 32 * c.x3.low, c.x3.a, c.x3.b, c.x3.high + 64 * c.x4.low, c.x4.a, c.x4.b, c.x4.high);
  }

  function HighWords(c: Ten<Cut>): int {
    Four(Word(c.x5.low, c.x5.a, c.x5.b, c.x5.high + 2 * c.x6.low), Word(c.x6.a, c.x6.b, c.x6.high + 8 * c.x7.low, c.x7.a),
         Word(c.x7.b, c.x7.high + 16 * c.x8.low, c.x8.a, c.x8.b), Word(c.x8.high + 64 * c.x9.low, c.x9.a, c.x9.b, c.x9.high))
  }

  lemma HighUnfold(c: Ten<Cut>)
    requires Cuts(c)
    ensures LeNat(PackHigh(c)) == HighWords(c)
  {
    SixteenValue(c.x5.low, c.x5.a, c.x5.b, c.x5.high + 2 * c.x6.low, c.x6.a, c.x6.b, c.x6.high + 8 * c.x7.low, c.x7.a,
                 c.x7.b, c.x7.high + 16 * c.x8.low, c.x8.a, c.x8.b, c.x8.high + 64 * c.x9.low, c.x9.a, c.x9.b, c.x9.high);
  }

  lemma PackSum(c: Ten<Cut>)
    ensures Weigh(Limbs(c)) == LowWords(c) + 0x1_0000_0000_0000_0000_0000_0000_0000_0000 * HighWords(c)
  {}

  /** The bytes stand for the limbs. */
  lemma PackValue(c: Ten<Cut>)
    requires Cuts(c)
    ensures LeNat(Pack(c)) == Weigh(Limbs(c))
  {
    LowUnfold(c);
    HighUnfold(c);
    PackSum(c);
    TwoHalves(PackLow(c), PackHigh(c));
  }

  /** fe_tobytes: the 32 bytes of the residue in [0, p), for every input within its bounds. */
  method ToBytes(h: Fe) returns (s: seq<byte>)
    requires Encodable(h)
    ensures |s| == 32 && LeNat(s) == V(h) % P
  {
    var r := Reduce(h);
    CutsHold(r);
    var c := CutAll(r);
    s := Pack(c);
    PackValue(c);
  }

  // ---------------------------------------------------------------- unpacking

  /** The ten loads of fe_frombytes; the top bit of the last byte is masked off. */
  function Loaded(s: seq<byte>): Ten<int>
    requires |s| == 32
  {
    Ten(Load4(s, 0), Load3(s, 4) * 0x40, Load3(s, 7) * 0x20, Load3(s, 10) * 0x8, Load3(s, 13) * 0x4,
        Load4(s, 16), Load3(s, 20) * 0x80, Load3(s, 23) * 0x20, Load3(s, 26) * 0x10, Load3(s, 29) % 0x80_0000 * 0x4)
  }

  lemma TopBit(a: byte, b: byte, c: byte)
    ensures Word(a, b, c, 0) % 0x80_0000 == Word(a, b, c % 128, 0)
  {
    ModUnique(Word(a, b, c, 0), c / 128, Word(a, b, c % 128, 0), 0x80_0000);
  }

  /** The words of a string whose last byte is lo + 128 hi, regrouped into the loads. */
  lemma Regroup(s: seq<byte>, lo: int, hi: int)
    requires |s| == 32
    ensures Word(s[0], s[1], s[2], s[3])
      + 0x1_0000_0000 * (Word(s[4], s[5], s[6], s[7])
      + 0x1_0000_0000 * (Word(s[8], s[9], s[10], s[11])
      + 0x1_0000_0000 * (Word(s[12], s[13], s[14], s[15])
      + 0x1_0000_0000 * (Word(s[16], s[17], s[18], s[19])
      + 0x1_0000_0000 * (Word(s[20], s[21], s[22], s[23])
      + 0x1_0000_0000 * (Word(s[24], s[25], s[26], s[27])
      + 0x1_0000_0000 * Word(s[28], s[29], s[30], lo + 128 * hi)))))))
      == Weigh(Ten(Load4(s, 0), Load3(s, 4) * 0x40, Load3(s, 7) * 0x20, Load3(s, 10) * 0x8, Load3(s, 13) * 0x4, Load4(s, 16),
                   Load3(s, 20) * 0x80, Load3(s, 23) * 0x20, Load3(s, 26) * 0x10, Word(s[29], s[30], lo, 0) * 0x4)) + TWO255 * hi
  {}

  lemma LoadedValue(s: seq<byte>)
    requires |s| == 32
    ensures LeNat(s) == Weigh(Loaded(s)) + TWO255 * (s[31] as int / 128)
  {
    EightWords(s);
    TopBit(s[29], s[30], s[31]);
    Regroup(s, s[31] % 128, s[31] as int / 128);
    assert s[31] == s[31] % 128 + 128 * (s[31] as int / 128);
  }

  lemma LoadedRange(s: seq<byte>)
    requires |s| == 32
    ensures LoadRange(Loaded(s)) && 0 <= Weigh(Loaded(s))
  {}

  lemma LoadedBound(s: seq<byte>)
    requires |s| == 32
    ensures Weigh(Loaded(s)) < TWO255
  {
    LoadedValue(s);
    LeNatBound(s);
    var n: nat := 16;
    Pow256Of16();
    Pow256Add(n, n);
    TopBit(s[29], s[30], s[31]);
    if s[31] < 128 {
      EightWords(s);
    } else {
      assert s[31] as int / 128 == 1;
    }
  }

  /** fe_frombytes: the low 255 bits modulo p, in limbs within the bounds of a product's result. */
  method FromBytes(s: seq<byte>) returns (h: Fe)
    requires |s| == 32
    ensures Tight(h) && Congruent(LeNat(s) % TWO255, V(h))
  {
    LoadedValue(s);
    LoadedRange(s);
    LoadedBound(s);
    ModUnique(LeNat(s), s[31] as int / 128, Weigh(Loaded(s)), TWO255);
    ghost var q;
    h, q := CarryLoaded(Loaded(s));
    CongruentBy(Weigh(Loaded(s)), V(h), q);
  }

  predicate LoadRange(t: Ten<int>) {
    && 0 <= t.x0 < 0x1_0000_0000 && 0 <= t.x1 < 0x4000_0000 && 0 <= t.x2 < 0x2000_0000 && 0 <= t.x3 < 0x800_0000
    && 0 <= t.x4 < 0x400_0000 && 0 <= t.x5 < 0x1_0000_0000 && 0 <= t.x6 < 0x8000_0000 && 0 <= t.x7 < 0x2000_0000
    && 0 <= t.x8 < 0x1000_0000 && 0 <= t.x9 < 0x200_0000
  }

  /** The ten carries: out of the odd limbs, then out of the even ones. */
  method CarryLoaded(t: Ten<int>) returns (r: Fe, ghost q: int)
    requires LoadRange(t)
    ensures Weigh(t) == V(r) + P * q && Tight(r)
  {
    var h;
    h, q := CarryOdd(t);
    r := CarryEven(h);
  }

  method CarryOdd(t: Ten<int>) returns (h: Ten<int64>, ghost q: int)
    requires LoadRange(t)
    ensures Weigh(t) == Weigh(Longs(h)) + P * q
    ensures In(h.x0, 0x2_0000_0000) && In(h.x2, 0x2_0000_0000) && In(h.x4, 0x2_0000_0000) && In(h.x6, 0x2_0000_0000)
    ensures In(h.x8, 0x2_0000_0000)
    ensures In(h.x1, HALF25) && In(h.x3, HALF25) && In(h.x5, HALF25) && In(h.x7, HALF25) && In(h.x9, HALF25)
  {
    var c9 := Round25(t.x9 as int64);
    var c1 := Round25(t.x1 as int64);
    var c3 := Round25(t.x3 as int64);
    var c5 := Round25(t.x5 as int64);
    var c7 := Round25(t.x7 as int64);
    h := Ten(t.x0 as int64 + c9 * 19, t.x1 as int64 - c1 * 0x200_0000, t.x2 as int64 + c1, t.x3 as int64 - c3 * 0x200_0000,
             t.x4 as int64 + c3, t.x5 as int64 - c5 * 0x200_0000, t.x6 as int64 + c5, t.x7 as int64 - c7 * 0x200_0000,
             t.x8 as int64 + c7, t.x9 as int64 - c9 * 0x200_0000);
    q := c9 as int;
  }

  method CarryEven(h: Ten<int64>) returns (r: Fe)
    requires In(h.x0, 0x2_0000_0000) && In(h.x2, 0x2_0000_0000) && In(h.x4, 0x2_0000_0000) && In(h.x6, 0x2_0000_0000)
    requires In(h.x8, 0x2_0000_0000)
    requires In(h.x1, HALF25) && In(h.x3, HALF25) && In(h.x5, HALF25) && In(h.x7, HALF25) && In(h.x9, HALF25)
    ensures Weigh(Longs(h)) == V(r) && Tight(r)
  {
    var c0 := Round26(h.x0);
    var c2 := Round26(h.x2);
    var c4 := Round26(h.x4);
    var c6 := Round26(h.x6);
    var c8 := Round26(h.x8);
    r := Ten((h.x0 - c0 * 0x400_0000) as int32, (h.x1 + c0) as int32, (h.x2 - c2 * 0x400_0000) as int32, (h.x3 + c2) as int32,
             (h.x4 - c4 * 0x400_0000) as int32, (h.x5 + c4) as int32, (h.x6 - c6 * 0x400_0000) as int32, (h.x7 + c6) as int32,
             (h.x8 - c8 * 0x400_0000) as int32, (h.x9 + c8) as int32);
  }

  lemma CongruentMod(a: int, b: int)
    requires Congruent(a, b)
    ensures a % P == b % P
  {
    var q :| Differ(a, b, q);
    ModShift(b, q, P);
  }

  /** fe_tobytes after fe_frombytes: the low 255 bits, reduced modulo p. */
  method Normalise(s: seq<byte>) returns (t: seq<byte>)
    requires |s| == 32
    ensures |t| == 32 && LeNat(t) == LeNat(s) % TWO255 % P
  {
    var h := FromBytes(s);
    t := ToBytes(h);
    CongruentMod(LeNat(s) % TWO255, V(h));
  }
}
