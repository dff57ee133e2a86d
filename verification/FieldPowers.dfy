/** The squaring chains: fe_invert raises to p - 2 and fe_pow22523 to (p - 5) / 8. */
module FieldPowers {
  import opened Arith
  import opened Field
  import opened GroupFormulas

  function Pw(z: int, n: nat): int {
    if n == 0 then 1 else z * Pw(z, n - 1)
  }

  lemma {:induction false} PwAdd(z: int, a: nat, b: nat)
    ensures Pw(z, a) * Pw(z, b) == Pw(z, a + b)
  {
    if a > 0 {
      PwAdd(z, a - 1, b);
      Associate(z, Pw(z, a - 1), Pw(z, b));
    }
  }

  /** f is z to the n, with limbs a product accepts. */
  ghost predicate Power(f: Fe, z: int, n: nat) {
    Loose(f) && Is(f, Pw(z, n))
  }

  method MulPower(f: Fe, g: Fe, ghost z: int, ghost a: nat, ghost b: nat) returns (h: Fe)
    requires Power(f, z, a) && Power(g, z, b)
    ensures Power(h, z, a + b)
  {
    h := MulAs(f, g, Pw(z, a), Pw(z, b));
    PwAdd(z, a, b);
    SizedLoose(h, 1);
  }

  method SqPower(f: Fe, ghost z: int, ghost a: nat) returns (h: Fe)
    requires Power(f, z, a)
    ensures Power(h, z, 2 * a)
  {
    h := SqAs(f, Pw(z, a));
    PwAdd(z, a, a);
    SizedLoose(h, 1);
  }

  /** A squaring, then the loop of n - 1 more. */
  method Squarings(f: Fe, n: nat, ghost z: int, ghost a: nat) returns (h: Fe)
    requires Power(f, z, a) && n >= 1
    ensures Power(h, z, Pow2(n) * a)
  {
    h := SqPower(f, z, a);
    var i := 1;
    while i < n
      invariant 1 <= i <= n && Power(h, z, Pow2(i) * a)
    {
      h := SqPower(h, z, Pow2(i) * a);
      Associate(2, Pow2(i), a);
      i := i + 1;
    }
  }

  /** The exponent whose binary form is k ones. */
  function Ones(k: nat): nat {
    Pow2(k) - 1
  }

  lemma OnesJoin(a: nat, b: nat)
    ensures Pow2(b) * Ones(a) + Ones(b) == Ones(a + b)
  {
    Pow2Add(b, a);
    Distribute(Pow2(b), Pow2(a), 1);
  }

  /** From exponents of a ones and of b ones to one of a + b ones. */
  method Join(f: Fe, g: Fe, b: nat, ghost a: nat, ghost z: int) returns (h: Fe)
    requires b >= 1 && Power(f, z, Ones(a)) && Power(g, z, Ones(b))
    ensures Power(h, z, Ones(a + b))
  {
    OnesJoin(a, b);
    var t := Squarings(f, b, z, Ones(a));
    h := MulPower(t, g, z, Pow2(b) * Ones(a), Ones(b));
  }

  /** The common start of both chains: z^11 and z^31. */
  method Start(f: Fe, ghost z: int) returns (z11: Fe, z31: Fe)
    requires Power(f, z, 1)
    ensures Power(z11, z, 11) && Power(z31, z, Ones(5))
  {
    var t0 := SqPower(f, z, 1);
    var t1 := Squarings(t0, 2, z, 2);
    assert Pow2(2) * 2 == 8;
    t1 := MulPower(f, t1, z, 1, 8);
    z11 := MulPower(t0, t1, z, 2, 9);
    var t2 := SqPower(z11, z, 11);
    z31 := MulPower(t1, t2, z, 9, 22);
    assert Ones(5) == 31;
  }

  /** The common middle: an exponent of 250 ones. */
  method Middle(z31: Fe, ghost z: int) returns (h: Fe)
    requires Power(z31, z, Ones(5))
    ensures Power(h, z, Ones(250))
  {
    var t10 := Join(z31, z31, 5, 5, z);
    var t20 := Join(t10, t10, 10, 10, z);
    var t40 := Join(t20, t20, 20, 20, z);
    var t50 := Join(t40, t10, 10, 40, z);
    var t100 := Join(t50, t50, 50, 50, z);
    var t200 := Join(t100, t100, 100, 100, z);
    h := Join(t200, t50, 50, 200, z);
  }

  lemma PowersMultiply(a: nat, b: nat, v: nat, w: nat)
    requires Pow2(a) == v && Pow2(b) == w
    ensures Pow2(a + b) == v * w
  {
    Pow2Add(a, b);
  }

  lemma Exponents()
    ensures 32 * Ones(250) + 11 == P - 2 && 4 * Ones(250) + 1 == (P - 5) / 8
  {
    var n: nat := 25;
    assert Pow2(5) == 32;
    PowersMultiply(5, 5, 32, 32);
    PowersMultiply(10, 10, 0x400, 0x400);
    PowersMultiply(20, 5, 0x10_0000, 32);
    PowersMultiply(n, n, 0x200_0000, 0x200_0000);
    PowersMultiply(50, 50, 0x4_0000_0000_0000, 0x4_0000_0000_0000);
    PowersMultiply(100, n, 0x10_0000_0000_0000_0000_0000_0000, 0x200_0000);
    PowersMultiply(125, 125, 0x2000_0000_0000_0000_0000_0000_0000_0000, 0x2000_0000_0000_0000_0000_0000_0000_0000);
  }

  /** fe_invert: z to the p - 2. */
  method Invert(f: Fe, ghost z: int) returns (h: Fe)
    requires Loose(f) && Is(f, z)
    ensures Is(h, Pw(z, P - 2)) && Loose(h)
  {
    assert Pw(z, 1) == z;
    var z11, z31 := Start(f, z);
    var t := Middle(z31, z);
    Exponents();
    t := Squarings(t, 5, z, Ones(250));
    assert Pow2(5) * Ones(250) == 32 * Ones(250);
    h := MulPower(t, z11, z, 32 * Ones(250), 11);
  }

  /** fe_pow22523: z to the (p - 5) / 8. */
  method Pow22523(f: Fe, ghost z: int) returns (h: Fe)
    requires Loose(f) && Is(f, z)
    ensures Is(h, Pw(z, (P - 5) / 8)) && Loose(h)
  {
    assert Pw(z, 1) == z;
    var z11, z31 := Start(f, z);
    var t := Middle(z31, z);
    Exponents();
    t := Squarings(t, 2, z, Ones(250));
    assert Pow2(2) * Ones(250) == 4 * Ones(250);
    h := MulPower(t, f, z, 4 * Ones(250), 1);
  }
}
