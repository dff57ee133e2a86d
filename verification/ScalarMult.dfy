/** Scalar multiplication on the curve: the loops, over formal multiples of the points. A combination
    (a, b) stands for aA + bB, so equality here holds in every commutative group. */
module ScalarMult {
  import opened Arith
  import opened Bytes
  import opened SlidingWindow

  datatype Combo = Combo(a: int, b: int)

  function Add(p: Combo, q: Combo): Combo {
    Combo(p.a + q.a, p.b + q.b)
  }

  function Sub(p: Combo, q: Combo): Combo {
    Combo(p.a - q.a, p.b - q.b)
  }

  function Double(p: Combo): Combo {
    Combo(2 * p.a, 2 * p.b)
  }

  // ---------------------------------------------------------------- aA + bB

  /** The precomputed odd multiples of B. */
  function OddMultiple(j: nat): Combo {
    Combo(0, 2 * j + 1)
  }

  /** The odd multiples A, 3A, ..., 15A. */
  predicate OddMultiples(t: seq<Combo>) {
    |t| == 8 && forall j :: 0 <= j < |t| ==> t[j] == Combo(2 * j + 1, 0)
  }

  method OddTable(a: Combo) returns (t: seq<Combo>)
    requires a == Combo(1, 0)
    ensures OddMultiples(t)
  {
    var twice := Double(a);
    var t1 := Next(twice, a, 1);
    var t2 := Next(twice, t1, 3);
    var t3 := Next(twice, t2, 5);
    var t4 := Next(twice, t3, 7);
    var t5 := Next(twice, t4, 9);
    var t6 := Next(twice, t5, 11);
    var t7 := Next(twice, t6, 13);
    t := [a, t1, t2, t3, t4, t5, t6, t7];
  }

  method Next(twice: Combo, p: Combo, ghost n: int) returns (q: Combo)
    requires twice == Combo(2, 0) && p == Combo(n, 0)
    ensures q == Combo(n + 2, 0)
  {
    q := Add(twice, p);
  }

  /** One step of the loop: double, then add what the two digits stand for. */
  method Horner(r: Combo, x: int, y: int, t: seq<Combo>) returns (q: Combo)
    requires Digit(x) && Digit(y) && OddMultiples(t)
    ensures q == Combo(2 * r.a + x, 2 * r.b + y)
  {
    q := Double(r);
    if x > 0 {
      q := Add(q, t[x / 2]);
    } else if x < 0 {
      q := Sub(q, t[(-x) / 2]);
    }
    if y > 0 {
      q := Add(q, OddMultiple(y / 2));
    } else if y < 0 {
      q := Sub(q, OddMultiple((-y) / 2));
    }
  }

  /** The first loop: the highest position with a digit. */
  method TopDigit(aslide: array<int>, bslide: array<int>) returns (i: int)
    requires aslide.Length == bslide.Length
    ensures -1 <= i < aslide.Length && forall k :: i < k < aslide.Length ==> aslide[k] == 0 && bslide[k] == 0
  {
    i := aslide.Length - 1;
    while i >= 0
      invariant -1 <= i < aslide.Length
      invariant forall k :: i < k < aslide.Length ==> aslide[k] == 0 && bslide[k] == 0
    {
      if aslide[i] != 0 || bslide[i] != 0 {
        break;
      }
      i := i - 1;
    }
  }

  lemma ValStep(x: seq<int>, i: nat)
    requires i < |x|
    ensures Val(x[i..]) == x[i] + 2 * Val(x[i + 1..])
  {
    assert x[i..][1..] == x[i + 1..];
  }

  /** The second loop: double and add. */
  method DoubleAndAdd(aslide: array<int>, bslide: array<int>, t: seq<Combo>) returns (r: Combo)
    requires aslide.Length == bslide.Length && OddMultiples(t)
    requires forall k :: 0 <= k < aslide.Length ==> Digit(aslide[k]) && Digit(bslide[k])
    ensures r == Combo(Val(aslide[..]), Val(bslide[..]))
  {
    r := Combo(0, 0);
    var i := TopDigit(aslide, bslide);
    ZerosVal(aslide[i + 1..]);
    ZerosVal(bslide[i + 1..]);
    while i >= 0
      invariant -1 <= i < aslide.Length
      invariant r.a == Val(aslide[i + 1..]) && r.b == Val(bslide[i + 1..])
    {
      ValStep(aslide[..], i);
      ValStep(bslide[..], i);
      r := Horner(r, aslide[i], bslide[i], t);
      i := i - 1;
    }
  }

  /** ge_double_scalarmult_vartime: exactly aA + bB, and every table index is in range. */
  method DoubleScalarMult(a: seq<byte>, b: seq<byte>) returns (r: Combo)
    requires TopClear(a) && TopClear(b)
    ensures r == Combo(LeNat(a), LeNat(b))
  {
    var aslide := Slide(a);
    var bslide := Slide(b);
    var t := OddTable(Combo(1, 0));
    r := DoubleAndAdd(aslide, bslide, t);
  }

  // ---------------------------------------------------------------- radix 16

  function Val16(e: seq<int>): int {
    if |e| == 0 then 0 else e[0] + 16 * Val16(e[1..])
  }

  function Pow16(n: nat): (r: nat)
    ensures r > 0
  {
    if n == 0 then 1 else 16 * Pow16(n - 1)
  }

  lemma {:induction false} Val16Concat(x: seq<int>, y: seq<int>)
    ensures Val16(x + y) == Val16(x) + Pow16(|x|) * Val16(y)
  {
    if |x| == 0 {
      assert x + y == y;
    } else {
      assert (x + y)[1..] == x[1..] + y;
      Val16Concat(x[1..], y);
      Associate(16, Pow16(|x| - 1), Val16(y));
    }
  }

  function Nibbles(a: seq<byte>): (e: seq<int>)
    ensures |e| == 2 * |a| && forall k :: 0 <= k < |e| ==> 0 <= e[k] <= 15
  {
    if |a| == 0 then [] else [a[0] % 16, a[0] / 16] + Nibbles(a[1..])
  }

  lemma {:induction false} NibblesVal(a: seq<byte>)
    ensures Val16(Nibbles(a)) == LeNat(a)
  {
    if |a| > 0 {
      NibblesVal(a[1..]);
      var e := Nibbles(a);
      assert e[1..][1..] == Nibbles(a[1..]);
    }
  }

  lemma {:induction false} NibblesAt(a: seq<byte>, i: nat)
    requires i < |a|
    ensures Nibbles(a)[2 * i] == a[i] % 16 && Nibbles(a)[2 * i + 1] == a[i] / 16
  {
    if i > 0 {
      NibblesAt(a[1..], i - 1);
      assert Nibbles(a)[2 * i] == Nibbles(a[1..])[2 * (i - 1)];
    }
  }

  predicate Small(e: seq<int>) {
    forall k :: 0 <= k < |e| ==> -8 <= e[k] <= 8
  }

  /** The carry chain at position i: the digits below are small and the carry is still to be added. */
  ghost predicate Carrying(v: int, e: seq<int>, i: nat, carry: int) {
    && i <= |e| && 0 <= carry <= 1 && Small(e[..i])
    && v == Val16(e[..i]) + Pow16(i) * (carry + Val16(e[i..]))
  }

  lemma CarryStep(v: int, e: seq<int>, i: nat, carry: int)
    requires Carrying(v, e, i, carry) && i < |e| && 0 <= e[i] <= 15
    ensures var x := e[i] + carry; var c := (x + 8) / 16;
      Carrying(v, e[i := x - 16 * c], i + 1, c)
  {
    var x := e[i] + carry;
    var c := (x + 8) / 16;
    var f := e[i := x - 16 * c];
    assert f[..i + 1] == e[..i] + [f[i]];
    Val16Concat(e[..i], [f[i]]);
    assert Val16([f[i]]) == f[i];
    var rest := Val16(e[i + 1..]);
    assert e[i..][1..] == e[i + 1..] && f[i + 1..] == e[i + 1..];
    Regroup(Pow16(i), carry, e[i], f[i], c, rest);
  }

  lemma Regroup(p: int, carry: int, x: int, y: int, c: int, rest: int)
    requires y == x + carry - 16 * c
    ensures p * (carry + (x + 16 * rest)) == p * y + (16 * p) * (c + rest)
  {
    assert carry + (x + 16 * rest) == y + 16 * (c + rest);
    Distribute(p, y, 16 * (c + rest));
    Associate(p, 16, c + rest);
  }

  /** The recoding at the head of ge_scalarmult_base: digits from -8 to 8 standing for the scalar. */
  method Recode16(a: seq<byte>) returns (e: array<int>)
    requires |a| == 32 && a[31] <= 127
    ensures e.Length == 64 && Val16(e[..]) == LeNat(a) && Small(e[..])
  {
    e := new int[64];
    var i := 0;
    while i < 32
      invariant 0 <= i <= 32 && e[..2 * i] == Nibbles(a)[..2 * i]
    {
      NibblesAt(a, i);
      e[2 * i] := a[i] % 16;
      e[2 * i + 1] := a[i] / 16;
      i := i + 1;
    }
    assert e[..] == Nibbles(a);
    NibblesVal(a);
    NibblesAt(a, 31);
    ghost var v := LeNat(a);
    Propagate(e, v);
  }

  method Propagate(e: array<int>, ghost v: int)
    requires e.Length == 64 && Val16(e[..]) == v && (forall k :: 0 <= k < 64 ==> 0 <= e[k] <= 15) && e[63] <= 7
    modifies e
    ensures Val16(e[..]) == v && Small(e[..])
  {
    var carry := 0;
    var i := 0;
    assert e[..][0..] == e[..];
    while i < 63
      invariant 0 <= i <= 63 && Carrying(v, e[..], i, carry)
      invariant (forall k :: i <= k < 64 ==> 0 <= e[k] <= 15) && e[63] <= 7
    {
      ghost var was := e[..];
      CarryStep(v, was, i, carry);
      e[i] := e[i] + carry;
      carry := (e[i] + 8) / 16;
      e[i] := e[i] - 16 * carry;
      assert e[..] == was[i := was[i] + e[i] - was[i]];
      i := i + 1;
    }
    ghost var was := e[..];
    e[63] := e[63] + carry;
    LastCarry(v, was, carry, e[..]);
  }

  lemma LastCarry(v: int, e: seq<int>, carry: int, f: seq<int>)
    requires |e| == 64 && Carrying(v, e, 63, carry) && 0 <= e[63] <= 7 && f == e[63 := e[63] + carry]
    ensures Val16(f) == v && Small(f)
  {
    assert e[63..] == [e[63]] && f == e[..63] + [e[63] + carry];
    Val16Concat(e[..63], [e[63] + carry]);
    assert Val16(e[63..]) == e[63];
  }

  // ---------------------------------------------------------------- aB from the table

  /** negative: the sign bit after widening to 64 bits. */
  function Negative(b: int): int
    requires -128 <= b <= 127
  {
    (if b < 0 then TWO64 + b else b) / 0x8000_0000_0000_0000
  }

  /** equal: the exclusive or of the two bytes, less one, is negative only if they are the same. */
  function Equal(b: bv8, c: bv8): bv64 {
    (((b ^ c) as bv64) - 1) >> 63
  }

  lemma EqualMeaning(b: bv8, c: bv8)
    ensures Equal(b, c) == if b == c then 1 else 0
  {
    assert b == c <==> b ^ c == 0;
    WidenNonZero(b ^ c);
  }

  lemma WidenNonZero(x: bv8)
    ensures ((x as bv64) - 1) >> 63 == if x == 0 then 1 else 0
  {}

  /** The precomputed table: entry j of row pos is (j + 1) 256^pos B. Multiples of B are integers. */
  function TableEntry(pos: nat, j: nat): int {
    (j + 1) * Pow256(pos)
  }

  function Cmov(t: int, u: int, b: bool): int {
    if b then u else t
  }

  /** A digit as a signed char, and the byte arithmetic that takes its size. */
  function AsByte(b: int): bv8
    requires -128 <= b <= 127
  {
    (if b < 0 then 256 + b else b) as bv8
  }

  function Size(d: bv8, negative: bv8): bv8 {
    d - (((0 - negative) & d) << 1)
  }

  function Abs(b: int): nat {
    if b < 0 then -b else b
  }

  lemma SizeOf(b: int)
    requires -8 <= b <= 8
    ensures Size(AsByte(b), if b < 0 then 1 else 0) == AsByte(Abs(b))
  {
    if {
      case b == -8 => assert AsByte(b) == 0xF8;
      case b == -7 => assert AsByte(b) == 0xF9;
      case b == -6 => assert AsByte(b) == 0xFA;
      case b == -5 => assert AsByte(b) == 0xFB;
      case b == -4 => assert AsByte(b) == 0xFC;
      case b == -3 => assert AsByte(b) == 0xFD;
      case b == -2 => assert AsByte(b) == 0xFE;
      case b == -1 => assert AsByte(b) == 0xFF;
      case b >= 0 =>
    }
  }

  /** The comparison of bytes is that of sizes. */
  lemma Compares(b: int, i: nat)
    requires -8 <= b <= 8 && i <= 8
    ensures Equal(Size(AsByte(b), if b < 0 then 1 else 0), AsByte(i)) == (if Abs(b) == i then 1 else 0)
  {
    SizeOf(b);
    EqualMeaning(AsByte(Abs(b)), AsByte(i));
    SmallBack(Abs(b));
    SmallBack(i);
  }

  lemma SmallBack(x: nat)
    requires x <= 8
    ensures AsByte(x) as int == x
  {
    if {
      case x == 0 =>
      case x == 1 =>
      case x == 2 =>
      case x == 3 =>
      case x == 4 =>
      case x == 5 =>
      case x == 6 =>
      case x == 7 =>
      case x == 8 =>
    }
  }

  /** The row of the table, entry after entry: the one whose number is the digit's size is kept. */
  method Scan(pos: nat, babs: bv8, ghost b: int) returns (t: int)
    requires -8 <= b <= 8 && babs == Size(AsByte(b), if b < 0 then 1 else 0)
    ensures t == Abs(b) * Pow256(pos)
  {
    t := 0;
    var i := 1;
    while i <= 8
      invariant 1 <= i <= 9 && t == if Abs(b) < i then Abs(b) * Pow256(pos) else 0
    {
      Compares(b, i);
      t := Cmov(t, TableEntry(pos, i - 1), Equal(babs, AsByte(i)) == 1);
      i := i + 1;
    }
  }

  /** select: the table entry for the digit's size, negated for a negative digit, zero for zero. */
  method Select(pos: nat, b: int) returns (t: int)
    requires -8 <= b <= 8
    ensures t == b * Pow256(pos)
  {
    var negative := if Negative(b) == 1 then 1 else 0;
    var babs := Size(AsByte(b), negative);
    t := Scan(pos, babs, b);
    t := Cmov(t, -t, negative == 1);
  }

  /** The digits at odd places, and at even places, each as a number in radix 256. */
  function Odds(e: seq<int>): int {
    if |e| < 2 then 0 else e[1] + 256 * Odds(e[2..])
  }

  function Evens(e: seq<int>): int {
    if |e| < 2 then 0 else e[0] + 256 * Evens(e[2..])
  }

  lemma {:induction false} EvensAndOdds(e: seq<int>)
    requires |e| % 2 == 0
    ensures Val16(e) == Evens(e) + 16 * Odds(e)
  {
    if |e| > 0 {
      EvensAndOdds(e[2..]);
      assert e[1..][1..] == e[2..];
      assert Val16(e) == e[0] + 16 * (e[1] + 16 * Val16(e[2..]));
    }
  }

  lemma {:induction false} AppendPair(e: seq<int>, x: int, y: int)
    requires |e| % 2 == 0
    ensures Odds(e + [x, y]) == Odds(e) + y * Pow256(|e| / 2)
    ensures Evens(e + [x, y]) == Evens(e) + x * Pow256(|e| / 2)
  {
    if |e| == 0 {
      assert e + [x, y] == [x, y];
      assert [x, y][2..] == [];
    } else {
      AppendPair(e[2..], x, y);
      assert (e + [x, y])[2..] == e[2..] + [x, y];
      Associate(256, y, Pow256(|e| / 2 - 1));
      Associate(256, x, Pow256(|e| / 2 - 1));
    }
  }

  /** ge_scalarmult_base: exactly aB, for every scalar with a[31] <= 127. */
  method ScalarMultBase(a: seq<byte>) returns (h: int)
    requires |a| == 32 && a[31] <= 127
    ensures h == LeNat(a)
  {
    var e := Recode16(a);
    h := AddDigits(e, true, 0);
    h := h + h;
    h := h + h;
    h := h + h;
    h := h + h;
    h := AddDigits(e, false, h);
    EvensAndOdds(e[..]);
  }

  function Part(e: seq<int>, odd: bool): int {
    if odd then Odds(e) else Evens(e)
  }

  lemma PairStep(e: seq<int>, m: nat, odd: bool)
    requires 2 * m + 2 <= |e|
    ensures Part(e[..2 * m + 2], odd) == Part(e[..2 * m], odd) + e[2 * m + if odd then 1 else 0] * Pow256(m)
  {
    assert e[..2 * m + 2] == e[..2 * m] + [e[2 * m], e[2 * m + 1]];
    AppendPair(e[..2 * m], e[2 * m], e[2 * m + 1]);
    assert |e[..2 * m]| / 2 == m;
  }

  /** One of the two loops: the digits at odd places, or those at even places. */
  method AddDigits(e: array<int>, odd: bool, start: int) returns (h: int)
    requires e.Length % 2 == 0 && Small(e[..])
    ensures h == start + Part(e[..], odd)
  {
    h := start;
    var first := if odd then 1 else 0;
    var i := first;
    ghost var m: nat := 0;
    while i < e.Length
      invariant i == 2 * m + first && 2 * m <= e.Length
      invariant h == start + Part(e[..2 * m], odd)
    {
      PairStep(e[..], m, odd);
      assert e[..][..2 * m] == e[..2 * m] && e[..][..2 * m + 2] == e[..2 * m + 2];
      assert e[i] == e[..][i] && i / 2 == m;
      var t := Select(i / 2, e[i]);
      h := h + t;
      i := i + 2;
      m := m + 1;
    }
    assert e[..2 * m] == e[..];
  }
}
