/** The backing-store page allocator: a coprime stride over the backing region.

    pswap_init draws a random stride coprime to the number of pages; every allocation hands out
    the current offset and steps by the stride, and an allocation fails once the next offset
    would be zero again. */
module SlotAllocator {
  import opened Arith
  import opened Bytes

  const PAGE: nat := 4096

  // ---------------------------------------------------------------- divisibility

  ghost predicate Divides(d: int, a: int) {
    exists k: int :: a == d * k
  }

  ghost predicate IsGcd(g: nat, a: nat, b: nat) {
    && Divides(g, a) && Divides(g, b)
    && forall d: nat :: Divides(d, a) && Divides(d, b) ==> Divides(d, g)
  }

  lemma DividesWitness(d: int, a: int, k: int)
    requires a == d * k
    ensures Divides(d, a)
  {}

  lemma DividesSum(d: int, a: int, b: int, m: int)
    requires Divides(d, a) && Divides(d, b)
    ensures Divides(d, a + m * b)
  {
    var i: int :| a == d * i;
    var j: int :| b == d * j;
    assert a + m * b == d * (i + m * j);
  }

  /** One step of Euclid's loop keeps the set of common divisors. */
  lemma GcdStep(g: nat, a: nat, b: nat)
    requires b > 0
    requires IsGcd(g, b, a % b)
    ensures IsGcd(g, a, b)
  {
    var q := a / b;
    DivMod(a, b);
    Commute(b, q);
    DividesSum(g, a % b, b, q);
    forall d: nat | Divides(d, a) && Divides(d, b)
      ensures Divides(d, g)
    {
      DividesSum(d, a, b, -q);
    }
  }

  lemma GcdBase(a: nat)
    ensures IsGcd(a, a, 0)
  {
    DividesWitness(a, a, 1);
    DividesWitness(a, 0, 0);
  }

  /** Euclid's algorithm as a recursion. */
  function Euclid(a: nat, b: nat): (g: nat)
    decreases b
  {
    if b == 0 then a else Euclid(b, a % b)
  }

  /** Euclid's recursion computes the greatest common divisor. */
  lemma {:induction false} EuclidIsGcd(a: nat, b: nat)
    ensures IsGcd(Euclid(a, b), a, b)
    decreases b
  {
    if b == 0 {
      GcdBase(a);
    } else {
      EuclidIsGcd(b, a % b);
      GcdStep(Euclid(a, b), a, b);
    }
  }

  /** Bezout: the greatest common divisor is an integer combination. */
  lemma {:induction false} Bezout(a: nat, b: nat) returns (x: int, y: int)
    ensures a * x + b * y == Euclid(a, b)
    decreases b
  {
    if b == 0 {
      x, y := 1, 0;
    } else {
      var u, v := Bezout(b, a % b);
      DivMod(a, b);
      x, y := v, u - (a / b) * v;
      BezoutStep(a, b, a / b, a % b, u, v);
    }
  }

  lemma BezoutStep(a: int, b: int, q: int, r: int, u: int, v: int)
    requires a == b * q + r
    ensures a * v + b * (u - q * v) == b * u + r * v
  {
    Distribute(b, u, q * v);
    Associate(b, q, v);
    assert a * v == (b * q) * v + r * v;
  }

  /** The source's loop. */
  method GcdLoop(a0: nat, b0: nat) returns (g: nat)
    ensures g == Euclid(a0, b0)
    ensures IsGcd(g, a0, b0)
  {
    var a, b := a0, b0;
    while b != 0
      invariant Euclid(a, b) == Euclid(a0, b0)
      decreases b
    {
      var tmp := b;
      b := a % b;
      a := tmp;
    }
    EuclidIsGcd(a0, b0);
    g := a;
  }

  /** n - 1 is coprime to n, so the search below always has an acceptable draw. */
  lemma PredecessorCoprime(n: nat)
    requires n >= 2
    ensures Euclid(n - 1, n) == 1
  {
    EuclidIsGcd(n - 1, n);
    var g := Euclid(n - 1, n);
    DividesSum(g, n, n - 1, -1);
    assert n + -1 * (n - 1) == 1;
    var k: int :| 1 == g * k;
    assert g == 1;
  }

  datatype Draw = Exhausted | Found(stride: nat)

  /** The candidate one random number yields. */
  function Candidate(n: nat, rnd: nat): (r: nat)
    requires n >= 2
    ensures n / 2 <= r < n
  {
    n / 2 + rnd % (n / 2)
  }

  /** find_coprime_of, drawing from a given sequence of random numbers. */
  method FindCoprime(n: nat, rnd: seq<nat>) returns (d: Draw)
    requires n >= 2
    ensures d.Found? ==> n / 2 <= d.stride < n && IsGcd(1, d.stride, n) && Euclid(d.stride, n) == 1
    ensures d.Exhausted? <==> forall i :: 0 <= i < |rnd| ==> Euclid(Candidate(n, rnd[i]), n) != 1
  {
    var i := 0;
    while i < |rnd|
      invariant 0 <= i <= |rnd|
      invariant forall j :: 0 <= j < i ==> Euclid(Candidate(n, rnd[j]), n) != 1
    {
      var res := n / 2 + rnd[i] % (n / 2);
      var g := GcdLoop(res, n);
      if g == 1 {
        return Found(res);
      }
      i := i + 1;
    }
    d := Exhausted;
  }

  /** Half of an odd n is coprime to n. */
  lemma HalfCoprime(n: nat)
    requires n >= 3 && n % 2 == 1
    ensures Euclid(n / 2, n) == 1
  {
    EuclidIsGcd(n / 2, n);
    var g := Euclid(n / 2, n);
    DividesSum(g, n, n / 2, -2);
    assert n + -2 * (n / 2) == 1;
    var k: int :| 1 == g * k;
    assert g == 1;
  }

  /** Whatever the number of pages, some draw ends the search: n - 1 for an even n, n / 2 for an odd one. */
  lemma SearchCanEnd(n: nat) returns (r: nat)
    requires n >= 2
    ensures Euclid(Candidate(n, r), n) == 1
  {
    r := if n % 2 == 0 then n / 2 - 1 else 0;
    SmallMod(r, n / 2);
    if n % 2 == 0 {
      PredecessorCoprime(n);
    } else {
      HalfCoprime(n);
    }
  }

  // ---------------------------------------------------------------- the stride walk

  /** The page index the k-th allocation hands out. */
  function Index(stride: nat, n: nat, k: nat): (r: nat)
    requires n > 0
    ensures r < n
  {
    (k * stride) % n
  }

  lemma IndexStep(stride: nat, n: nat, k: nat)
    requires n > 0
    ensures Index(stride, n, k + 1) == (Index(stride, n, k) + stride) % n
  {
    var p := k * stride;
    DivMod(p, n);
    assert (k + 1) * stride == p + stride;
    ModShift(p % n + stride, p / n, n);
  }

  lemma CombinationMultiple(stride: int, n: int, m: int, x: int, y: int, q: int)
    requires stride * x + n * y == 1 && m * stride == n * q
    ensures m == n * (q * x + m * y)
  {
    Distribute(m, stride * x, n * y);
    Associate(m, stride, x);
    Associate(n, q, x);
    Associate(m, n, y);
    Distribute(n, q * x, m * y);
  }

  /** Euclid's lemma for a coprime stride: m steps come back to the start only if n divides m. */
  lemma CoprimeReturn(stride: nat, n: nat, m: nat, q: int)
    requires n > 0 && Euclid(stride, n) == 1
    requires m * stride == n * q
    ensures m % n == 0
  {
    var x, y := Bezout(stride, n);
    CombinationMultiple(stride, n, m, x, y, q);
    ModUnique(m, q * x + m * y, 0, n);
  }

  lemma SameIndex(stride: nat, n: nat, j: nat, k: nat) returns (q: int)
    requires n > 0 && j <= k && Index(stride, n, j) == Index(stride, n, k)
    ensures (k - j) * stride == n * q
  {
    DivMod(j * stride, n);
    DivMod(k * stride, n);
    q := (k * stride) / n - (j * stride) / n;
    Distribute(n, (k * stride) / n, (j * stride) / n);
    Distribute(stride, k, j);
    Commute(stride, k);
    Commute(stride, j);
    Commute(stride, k - j);
  }

  /** The stride visits every index once before it comes back: positions below n are distinct. */
  lemma IndexInjective(stride: nat, n: nat, j: nat, k: nat)
    requires n > 0 && Euclid(stride, n) == 1
    requires j < k < n
    ensures Index(stride, n, j) != Index(stride, n, k)
  {
    if Index(stride, n, j) == Index(stride, n, k) {
      var q := SameIndex(stride, n, j, k);
      CoprimeReturn(stride, n, k - j, q);
      SmallMod(k - j, n);
    }
  }

  lemma FullTurn(stride: nat, n: nat)
    requires n > 0
    ensures Index(stride, n, n) == 0 && Index(stride, n, 0) == 0
  {
    ModUnique(n * stride, stride, 0, n);
  }

  /** The walk is back at zero exactly after n steps, never earlier. */
  lemma IndexZero(stride: nat, n: nat, k: nat)
    requires n > 0 && Euclid(stride, n) == 1
    requires 0 < k <= n
    ensures Index(stride, n, k) == 0 <==> k == n
  {
    FullTurn(stride, n);
    if k < n {
      IndexInjective(stride, n, 0, k);
    }
  }

  lemma Aligned(base: nat, i: nat)
    requires base % PAGE == 0
    ensures (base + i * PAGE) % PAGE == 0
  {
    ModShift(base, i, PAGE);
  }

  /** The addresses the first `calls` allocations hand out, in order. */
  function Walk(base: nat, stride: nat, n: nat, calls: nat): (s: seq<nat>)
    requires n > 0
    ensures |s| == calls
  {
    seq(calls, k requires 0 <= k => base + Index(stride, n, k) * PAGE)
  }

  /** All pages of a walk shorter than n are distinct, aligned and inside the region. */
  lemma WalkDistinct(base: nat, stride: nat, n: nat, calls: nat)
    requires n > 0 && Euclid(stride, n) == 1 && calls <= n && base % PAGE == 0
    ensures var w := Walk(base, stride, n, calls);
      && (forall i, j :: 0 <= i < j < calls ==> w[i] != w[j])
      && (forall i :: 0 <= i < calls ==> w[i] % PAGE == 0 && base <= w[i] < base + n * PAGE)
  {
    forall i, j | 0 <= i < j < calls
      ensures Walk(base, stride, n, calls)[i] != Walk(base, stride, n, calls)[j]
    {
      IndexInjective(stride, n, i, j);
    }
    forall i | 0 <= i < calls
      ensures Walk(base, stride, n, calls)[i] % PAGE == 0
    {
      Aligned(base, Index(stride, n, i));
    }
  }

  /** The next page of a walk is not among the earlier ones. */
  lemma WalkFresh(base: nat, stride: nat, n: nat, calls: nat)
    requires n > 0 && Euclid(stride, n) == 1 && calls < n && base % PAGE == 0
    ensures var page := base + Index(stride, n, calls) * PAGE;
      && page !in Walk(base, stride, n, calls)
      && Walk(base, stride, n, calls + 1) == Walk(base, stride, n, calls) + [page]
      && page % PAGE == 0 && base <= page < base + n * PAGE
  {
    WalkDistinct(base, stride, n, calls + 1);
    var w := Walk(base, stride, n, calls + 1);
    var page := base + Index(stride, n, calls) * PAGE;
    assert w[..calls] == Walk(base, stride, n, calls) && w[calls] == page;
  }

  class Slots {
    const base: nat
    const pages: nat
    const stride: nat
    var offset: nat
    var calls: nat                // successful allocations so far
    ghost var handed: set<nat>    // what they handed out

    ghost predicate Valid()
      reads this
    {
      && 1 < pages
      && base % PAGE == 0 && 0 < base
      && base + 2 * pages * PAGE <= TWO64
      && 0 < stride < pages && Euclid(stride, pages) == 1
      && calls < pages
      && offset == Index(stride, pages, calls) * PAGE
      && handed == (set p | p in Walk(base, stride, pages, calls))
    }

    function Remaining(): (r: int)
      reads this
    {
      pages - 1 - calls
    }

    /** pswap_init with the stride the search found. */
    constructor (base: nat, pages: nat, stride: nat)
      requires 1 < pages && base % PAGE == 0 && 0 < base && base + 2 * pages * PAGE <= TWO64
      requires 0 < stride < pages && Euclid(stride, pages) == 1
      ensures Valid() && handed == {} && Remaining() == pages - 1
      ensures this.base == base && this.pages == pages && this.stride == stride
    {
      this.base, this.pages, this.stride := base, pages, stride;
      offset, calls, handed := 0, 0, {};
    }

    /** Everything handed out is an aligned page of the region. */
    lemma HandedInRegion()
      requires Valid()
      ensures forall p :: p in handed ==> p % PAGE == 0 && base <= p < base + pages * PAGE
    {
      WalkDistinct(base, stride, pages, calls);
    }

    /** paging_alloc_backing_page: a page never handed out before, or 0 once n - 1 pages are out.
        The arithmetic stays below 2^64. */
    method Alloc() returns (page: nat)
      requires Valid()
      modifies this
      ensures Valid()
      ensures page == 0 <==> old(Remaining()) == 0
      ensures page == 0 ==> calls == old(calls) && offset == old(offset) && handed == old(handed)
      ensures page != 0 ==> page == base + old(offset)
      ensures page != 0 ==> handed == old(handed) + {page} && Remaining() == old(Remaining()) - 1
      ensures page != 0 ==> page !in old(handed) && page % PAGE == 0 && base <= page < base + pages * PAGE
    {
      var sum := offset + stride * PAGE;
      assert sum < 2 * pages * PAGE < TWO64;
      var update := sum % (pages * PAGE);
      NextOffset(stride, pages, calls);
      if update == 0 {
        return 0;
      }
      page := base + offset;
      WalkFresh(base, stride, pages, calls);
      offset := update;
      calls := calls + 1;
      handed := handed + {page};
    }
  }

  /** The source's byte-offset update is one step of the walk, and it is zero exactly at the end. */
  lemma NextOffset(stride: nat, n: nat, k: nat)
    requires n > 0 && Euclid(stride, n) == 1 && k < n
    ensures (Index(stride, n, k) * PAGE + stride * PAGE) % (n * PAGE) == Index(stride, n, k + 1) * PAGE
    ensures Index(stride, n, k + 1) == 0 <==> k + 1 == n
  {
    IndexStep(stride, n, k);
    ScaledMod(Index(stride, n, k) + stride, n);
    IndexZero(stride, n, k + 1);
  }

  lemma ScaledMod(x: nat, n: nat)
    requires n > 0
    ensures (x * PAGE) % (n * PAGE) == (x % n) * PAGE
  {
    DivMod(x, n);
    Associate(n, PAGE, x / n);
    ModUnique(x * PAGE, x / n, (x % n) * PAGE, n * PAGE);
  }
}
