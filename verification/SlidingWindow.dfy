/** Signed sliding-window recoding of a scalar: digits that are zero or odd and at most 15 in size,
    standing for the same number. */
module SlidingWindow {
  import opened Arith
  import opened Bytes

  /** The number a digit string stands for, least significant digit first. */
  function Val(d: seq<int>): int {
    if |d| == 0 then 0 else d[0] + 2 * Val(d[1..])
  }

  predicate Bits(d: seq<int>) {
    forall k :: 0 <= k < |d| ==> 0 <= d[k] <= 1
  }

  predicate Digit(d: int) {
    d == 0 || (d % 2 == 1 && -15 <= d <= 15)
  }

  lemma {:induction false} ValConcat(a: seq<int>, b: seq<int>)
    ensures Val(a + b) == Val(a) + Pow2(|a|) * Val(b)
  {
    if |a| == 0 {
      assert a + b == b;
    } else {
      assert (a + b)[1..] == a[1..] + b;
      ValConcat(a[1..], b);
      Associate(2, Pow2(|a| - 1), Val(b));
    }
  }

  lemma ValSplit(d: seq<int>, i: nat)
    requires i <= |d|
    ensures Val(d) == Val(d[..i]) + Pow2(i) * Val(d[i..])
  {
    assert d == d[..i] + d[i..];
    ValConcat(d[..i], d[i..]);
  }

  lemma {:induction false} ZerosVal(d: seq<int>)
    requires forall k :: 0 <= k < |d| ==> d[k] == 0
    ensures Val(d) == 0
  {
    if |d| > 0 {
      ZerosVal(d[1..]);
    }
  }

  /** A digit, a run of zeros, and the rest. */
  lemma Gap(d: seq<int>, b: nat)
    requires 1 <= b <= |d| && forall k :: 1 <= k < b ==> d[k] == 0
    ensures Val(d) == d[0] + Pow2(b) * Val(d[b..])
  {
    ValSplit(d, b);
    ZerosVal(d[..b][1..]);
  }

  // ---------------------------------------------------------------- the bits of the scalar

  /** x >> n */
  function Shr(x: nat, n: nat): nat {
    if n == 0 then x else Shr(x / 2, n - 1)
  }

  /** The n low bits of x. */
  function LowBits(x: nat, n: nat): (d: seq<int>)
    ensures |d| == n && Bits(d)
  {
    if n == 0 then [] else [x % 2] + LowBits(x / 2, n - 1)
  }

  function BitsOf(a: seq<byte>): (d: seq<int>)
    ensures |d| == 8 * |a| && Bits(d)
  {
    if |a| == 0 then [] else LowBits(a[0], 8) + BitsOf(a[1..])
  }

  lemma {:induction false} LowBitsVal(x: nat, n: nat)
    requires x < Pow2(n)
    ensures Val(LowBits(x, n)) == x
  {
    if n > 0 {
      LowBitsVal(x / 2, n - 1);
      assert LowBits(x, n)[1..] == LowBits(x / 2, n - 1);
    }
  }

  lemma {:induction false} LowBitsAt(x: nat, n: nat, k: nat)
    requires k < n
    ensures LowBits(x, n)[k] == Shr(x, k) % 2
  {
    if k > 0 {
      LowBitsAt(x / 2, n - 1, k - 1);
    }
  }

  lemma {:induction false} BitsOfVal(a: seq<byte>)
    ensures Val(BitsOf(a)) == LeNat(a)
  {
    if |a| > 0 {
      var n: nat := 8;
      SmallPowers();
      BitsOfVal(a[1..]);
      LowBitsVal(a[0], n);
      ValConcat(LowBits(a[0], n), BitsOf(a[1..]));
    }
  }

  lemma SmallPowers()
    ensures Pow2(0) == 1 && Pow2(1) == 2 && Pow2(2) == 4 && Pow2(3) == 8 && Pow2(4) == 16
    ensures Pow2(5) == 32 && Pow2(6) == 64 && Pow2(7) == 128 && Pow2(8) == 256
  {}

  /** Bit i is in byte i >> 3 at place i & 7. */
  lemma {:induction false} BitsAt(a: seq<byte>, i: nat)
    requires i < 8 * |a|
    ensures BitsOf(a)[i] == Shr(a[i / 8], i % 8) % 2
  {
    if i < 8 {
      var n: nat := 8;
      LowBitsAt(a[0], n, i);
    } else {
      BitsAt(a[1..], i - 8);
      assert i / 8 == (i - 8) / 8 + 1 && i % 8 == (i - 8) % 8;
      assert a[i / 8] == a[1..][(i - 8) / 8];
      assert BitsOf(a)[i] == BitsOf(a[1..])[i - 8];
    }
  }

  // ---------------------------------------------------------------- the carry

  /** Add one to a bit string, dropping a carry out of the top. */
  function Incremented(d: seq<int>): (r: seq<int>)
    ensures |r| == |d|
  {
    if |d| == 0 then [] else if d[0] == 0 then [1] + d[1..] else [0] + Incremented(d[1..])
  }

  lemma {:induction false} IncrementedVal(d: seq<int>)
    requires Bits(d)
    ensures Bits(Incremented(d)) && 0 <= Val(d) < Pow2(|d|)
    ensures Val(Incremented(d)) == if Val(d) + 1 == Pow2(|d|) then 0 else Val(d) + 1
  {
    if |d| > 0 {
      IncrementedVal(d[1..]);
      assert Incremented(d)[1..] == if d[0] == 0 then d[1..] else Incremented(d[1..]);
    }
  }

  lemma IncrementedStep(s: seq<int>, k: nat)
    requires k < |s|
    ensures s[k] == 0 ==> s[..k] + Incremented(s[k..]) == s[k := 1]
    ensures s[k] != 0 ==> s[..k] + Incremented(s[k..]) == s[k := 0][..k + 1] + Incremented(s[k := 0][k + 1..])
  {
    assert s[k..][1..] == s[k + 1..];
    assert s[k := 0][k + 1..] == s[k + 1..];
  }

  /** The innermost loop of slide. */
  method Carry(r: array<int>, start: nat)
    requires start <= r.Length
    modifies r
    ensures r[..] == old(r[..start]) + Incremented(old(r[start..]))
  {
    ghost var goal := r[..start] + Incremented(r[start..]);
    var k := start;
    while k < r.Length
      invariant start <= k <= r.Length && r[..][..k] + Incremented(r[..][k..]) == goal
    {
      IncrementedStep(r[..], k);
      ghost var was := r[..];
      if r[k] == 0 {
        r[k] := 1;
        assert r[..] == was[k := 1];
        return;
      }
      r[k] := 0;
      assert r[..] == was[k := 0];
      k := k + 1;
    }
    assert r[..][..k] == r[..] && r[..][k..] == [];
  }

  // ---------------------------------------------------------------- one window

  /** What is left from position i on: the carry fits if eight times the value stays below the top. */
  predicate Room(d: seq<int>) {
    8 * Val(d) < Pow2(|d|) + 4
  }

  /** Under that bound a carry out of the top cannot happen. */
  lemma CarryFits(d: seq<int>, b: nat)
    requires 1 <= b <= 6 && b < |d| && Bits(d[b..]) && (forall k :: 1 <= k < b ==> d[k] == 0) && Room(d)
    requires d[0] % 2 == 1 && d[0] + Pow2(b) > 15
    ensures Val(d[b..]) + 1 != Pow2(|d| - b)
  {
    Gap(d, b);
    SmallPowers();
    Pow2Add(b, |d| - b);
    if Val(d[b..]) + 1 == Pow2(|d| - b) {
      Distribute(Pow2(b), Val(d[b..]), 1);
      Pow2Add(b + 1, |d| - b - 1);
      Grow(Pow2(b + 1), Pow2(|d| - b - 1));
    }
  }

  /** The window at distance b: the digit is odd and in range, zeros up to b, bits from there on, and
      the number is still v. */
  predicate Window(v: int, d: seq<int>, b: nat) {
    && 1 <= b <= |d| && Val(d) == v && d[0] % 2 == 1 && -15 <= d[0] <= 15
    && (forall k :: 1 <= k < b ==> d[k] == 0) && Bits(d[b..])
  }

  lemma Skip(v: int, d: seq<int>, b: nat)
    requires Window(v, d, b) && b < |d| && d[b] == 0
    ensures Window(v, d, b + 1)
  {
    assert d[b + 1..] == d[b..][1..];
  }

  lemma Merge(v: int, d: seq<int>, b: nat)
    requires Window(v, d, b) && b < |d| && d[b] == 1 && d[0] + Pow2(b) <= 15
    ensures Window(v, d[0 := d[0] + Pow2(b)][b := 0], b + 1)
  {
    var e := d[0 := d[0] + Pow2(b)][b := 0];
    Gap(d, b);
    Gap(e, b);
    assert d[b..][1..] == e[b..][1..];
    assert e[b + 1..] == d[b..][1..];
    assert Val(d[b..]) == 1 + Val(e[b..]);
    Distribute(Pow2(b), 1, Val(e[b..]));
  }

  lemma Borrow(v: int, d: seq<int>, b: nat)
    requires Window(v, d, b) && b < |d| && d[b] == 1 && d[0] - Pow2(b) >= -15
    requires Val(d[b..]) + 1 != Pow2(|d| - b)
    ensures Window(v, d[0 := d[0] - Pow2(b)][..b] + Incremented(d[b..]), b + 1)
  {
    var high := d[b..];
    var e := d[0 := d[0] - Pow2(b)][..b] + Incremented(high);
    IncrementedVal(high);
    BorrowVal(d, b, d[0 := d[0] - Pow2(b)][..b], Incremented(high));
    assert high[0] == 1;
    assert e[b + 1..] == Incremented(high)[1..];
  }

  lemma BorrowVal(d: seq<int>, b: nat, low: seq<int>, high: seq<int>)
    requires 1 <= b < |d| && (forall k :: 1 <= k < b ==> d[k] == 0)
    requires |low| == b && low[0] == d[0] - Pow2(b) && (forall k :: 1 <= k < b ==> low[k] == 0)
    requires |high| == |d| - b && Val(high) == Val(d[b..]) + 1
    ensures Val(low + high) == Val(d)
  {
    Gap(d, b);
    GapConcat(low, high);
    Balance(Val(d), Val(low + high), Pow2(b), Val(d[b..]), Val(high), d[0]);
  }

  lemma GapConcat(low: seq<int>, high: seq<int>)
    requires |low| >= 1 && forall k :: 1 <= k < |low| ==> low[k] == 0
    ensures Val(low + high) == low[0] + Pow2(|low|) * Val(high)
  {
    ValConcat(low, high);
    ZerosVal(low[1..]);
  }

  lemma Balance(v: int, w: int, p: int, x: int, y: int, d: int)
    requires y == x + 1 && v == d + p * x && w == d - p + p * y
    ensures v == w
  {
    Distribute(p, x, 1);
  }

  /** Where neither branch keeps the digit in range, four zeros are already behind it. */
  lemma BreakLate(x: int, b: nat)
    requires 1 <= b <= 6 && x % 2 == 1 && x + Pow2(b) > 15 && x - Pow2(b) < -15
    ensures b >= 5
  {
    SmallPowers();
  }

  method MergeAt(r: array<int>, i: nat, b: nat, ghost v: int)
    requires i < r.Length && Window(v, r[i..], b) && i + b < r.Length && r[i + b] == 1 && r[i] + Pow2(b) <= 15
    modifies r
    ensures r[..i] == old(r[..i]) && Window(v, r[i..], b + 1)
  {
    ghost var d := r[i..];
    Merge(v, d, b);
    r[i] := r[i] + Pow2(b);
    r[i + b] := 0;
    assert r[i..] == d[0 := d[0] + Pow2(b)][b := 0];
  }

  method BorrowAt(r: array<int>, i: nat, b: nat, ghost v: int)
    requires i < r.Length && Window(v, r[i..], b) && i + b < r.Length && r[i + b] == 1 && b <= 6 && Room(r[i..])
    requires r[i] + Pow2(b) > 15 && r[i] - Pow2(b) >= -15
    modifies r
    ensures r[..i] == old(r[..i]) && Window(v, r[i..], b + 1)
  {
    ghost var d := r[i..];
    CarryFits(d, b);
    Borrow(v, d, b);
    r[i] := r[i] - Pow2(b);
    assert r[i..] == d[0 := d[0] - Pow2(b)] && r[i + b..] == d[b..];
    ghost var was := r[..];
    Carry(r, i + b);
    assert r[i..] == was[i..i + b] + Incremented(d[b..]);
    assert was[i..i + b] == d[0 := d[0] - Pow2(b)][..b];
  }

  /** The loop over b: the digit at i absorbs what follows as long as it stays within 15. */
  method Absorb(r: array<int>, i: nat)
    requires i < r.Length && Bits(r[i..]) && r[i] == 1 && Room(r[i..])
    modifies r
    ensures r[..i] == old(r[..i])
    ensures exists b :: Window(old(Val(r[i..])), r[i..], b) && (b >= 5 || i + b == r.Length)
  {
    ghost var v := Val(r[i..]);
    var b := 1;
    while b <= 6 && i + b < r.Length
      invariant 1 <= b <= 7 && i + b <= r.Length && r[..i] == old(r[..i])
      invariant Window(v, r[i..], b)
    {
      assert r[i..][b] == r[i + b] && 0 <= r[i..][b..][0] <= 1;
      if r[i + b] != 0 {
        if r[i] + Pow2(b) <= 15 {
          MergeAt(r, i, b, v);
        } else if r[i] - Pow2(b) >= -15 {
          BorrowAt(r, i, b, v);
        } else {
          BreakLate(r[i], b);
          break;
        }
      } else {
        Skip(v, r[i..], b);
      }
      b := b + 1;
    }
  }

  // ---------------------------------------------------------------- the whole recoding

  /** Position i of the outer loop: the digits below are done, bits from i on, the next z of them zero,
      and what is done is less than half of 2^(i + z). */
  ghost predicate Recoded(v: int, d: seq<int>, i: nat, z: nat) {
    && i <= |d| && Val(d) == v && Bits(d[i..])
    && (forall k :: 0 <= k < i ==> Digit(d[k]))
    && (forall k :: i <= k < i + z && k < |d| ==> d[k] == 0)
    && -(Pow2(i + z) as int) < 2 * Val(d[..i]) < Pow2(i + z)
  }

  lemma Advance(v: int, d: seq<int>, i: nat, z: nat)
    requires Recoded(v, d, i, z) && i < |d| && d[i] == 0
    ensures Recoded(v, d, i + 1, if z > 0 then z - 1 else 0)
  {
    assert d[i + 1..] == d[i..][1..];
    ValSplit(d[..i + 1], i);
    assert d[..i + 1][..i] == d[..i] && d[..i + 1][i..] == [0];
  }

  /** The bound the window needs, from the bound on the scalar. */
  lemma RoomLeft(v: int, d: seq<int>, i: nat)
    requires Recoded(v, d, i, 0) && |d| >= 3 && v < Pow2(|d| - 3)
    ensures Room(d[i..])
  {
    ValSplit(d, i);
    var p, h := Pow2(i), Val(d[i..]);
    Pow2Add(3, |d| - 3);
    SmallPowers();
    Pow2Add(i, |d| - i);
    var m := Pow2(|d| - i);
    assert 8 * v < p * m;
    ScaledBound(p, h, m, Val(d[..i]), v);
  }

  lemma ScaledBound(p: int, h: int, m: int, low: int, v: int)
    requires p > 0 && v == low + p * h && 8 * v < p * m && -p < 2 * low
    ensures 8 * h < m + 4
  {
    if 8 * h >= m + 4 {
      Monotone(m + 4, 8 * h, p);
      Distribute(p, m, 4);
      Associate(p, 8, h);
      Commute(p, m + 4);
      Commute(p, 8 * h);
    }
  }

  lemma Settle(v: int, d: seq<int>, e: seq<int>, i: nat, b: nat)
    requires Recoded(v, d, i, 0) && i < |d| == |e| && e[..i] == d[..i]
    requires Window(Val(d[i..]), e[i..], b) && (b >= 5 || i + b == |d|)
    ensures Recoded(v, e, i + 1, 4)
  {
    hide Pow2, Val;
    ValSplit(d, i);
    ValSplit(e, i);
    assert forall k :: i < k < i + b ==> e[k] == e[i..][k - i];
    assert forall k :: i + b <= k < |e| ==> e[k] == e[i..][b..][k - i - b];
    ValSplit(e[..i + 1], i);
    assert e[..i + 1][..i] == d[..i] && e[..i + 1][i..] == [e[i]];
    Pow2Add(i, 5);
    SmallPowers();
    Digit15(Pow2(i), e[i]);
    OneDigit(e[i]);
  }

  lemma OneDigit(x: int)
    ensures Val([x]) == x
  {}

  lemma Digit15(p: int, x: int)
    requires p > 0 && -15 <= x <= 15
    ensures -15 * p <= p * x <= 15 * p
  {
    Monotone(-15, x, p);
    Monotone(x, 15, p);
  }

  /** A scalar with its three top bits clear: below 2^253 for 32 bytes. */
  predicate TopClear(a: seq<byte>) {
    |a| == 32 && LeNat(a) < Pow2(8 * |a| - 3)
  }

  /** slide: for every scalar below 2^253 the digits are zero or odd and at most 15 in size, and stand for
      the scalar; no carry runs off the end. */
  method Slide(a: seq<byte>) returns (r: array<int>)
    requires TopClear(a)
    ensures r.Length == 256 && Val(r[..]) == LeNat(a)
    ensures forall k :: 0 <= k < 256 ==> Digit(r[k])
  {
    r := new int[256];
    var i := 0;
    while i < 256
      invariant 0 <= i <= 256 && r[..i] == BitsOf(a)[..i]
    {
      r[i] := Shr(a[i / 8], i % 8) % 2;
      BitsAt(a, i);
      i := i + 1;
    }
    assert r[..] == BitsOf(a);
    BitsOfVal(a);
    Recode(r, LeNat(a));
  }

  method Recode(r: array<int>, ghost v: nat)
    requires Bits(r[..]) && Val(r[..]) == v && r.Length >= 3 && v < Pow2(r.Length - 3)
    modifies r
    ensures Val(r[..]) == v && forall k :: 0 <= k < r.Length ==> Digit(r[k])
  {
    var i := 0;
    ghost var z: nat := 0;
    assert r[..][0..] == r[..];
    while i < r.Length
      invariant 0 <= i <= r.Length && Recoded(v, r[..], i, z)
    {
      if r[i] != 0 {
        assert z == 0;
        RoomLeft(v, r[..], i);
        ghost var d := r[..];
        assert d[i..] == r[i..] && d[i..][0] == r[i];
        Absorb(r, i);
        ghost var b :| Window(Val(d[i..]), r[i..], b) && (b >= 5 || i + b == r.Length);
        assert r[..][i..] == r[i..] && r[..][..i] == d[..i];
        Settle(v, d, r[..], i, b);
        z := 4;
      } else {
        Advance(v, r[..], i, z);
        z := if z > 0 then z - 1 else 0;
      }
      i := i + 1;
    }
  }
}
