/** The point formulas: every product gets operands within its input bounds, also where a difference
    feeds another difference, and the results are the numerators and denominators of the twisted
    Edwards addition law (section 5.1.4 of RFC 8032). */
module GroupFormulas {
  import opened Arith
  import opened Field

  // ---------------------------------------------------------------- arithmetic with known residues

  /** f stands for a modulo p. */
  ghost predicate Is(f: Fe, a: int) {
    Congruent(V(f), a)
  }

  /** f's limbs are at most k times the size of a product's. */
  predicate Sized(f: Fe, k: int) {
    Bounded(f, k * EVEN_OUT, k * ODD_OUT)
  }

  lemma SizedLoose(f: Fe, k: int)
    requires Sized(f, k) && 0 <= k <= 3
    ensures Loose(f)
  {}

  lemma Quotient(a: int, b: int) returns (q: int)
    requires Congruent(a, b)
    ensures a == b + P * q
  {
    q :| Differ(a, b, q);
  }

  lemma CongruentSum(a: int, b: int, c: int, d: int)
    requires Congruent(a, b) && Congruent(c, d)
    ensures Congruent(a + c, b + d) && Congruent(a - c, b - d)
  {
    var q := Quotient(a, b);
    var r := Quotient(c, d);
    CongruentBy(a + c, b + d, q + r);
    CongruentBy(a - c, b - d, q - r);
  }

  lemma CongruentProduct(a: int, b: int, c: int, d: int)
    requires Congruent(a, b) && Congruent(c, d)
    ensures Congruent(a * c, b * d)
  {
    var q := Quotient(a, b);
    var r := Quotient(c, d);
    Expand(b, P, q, d, r);
    CongruentBy(a * c, b * d, b * r + q * d + P * (q * r));
  }

  lemma Expand(b: int, p: int, q: int, d: int, r: int)
    ensures (b + p * q) * (d + p * r) == b * d + p * (b * r + q * d + p * (q * r))
  {
    var x := p * q;
    Distribute(b + x, d, p * r);
    Distribute(d, b, x);
    Distribute(p * r, b, x);
    assert (b + p * q) * (d + p * r) == b * d + x * d + b * (p * r) + x * (p * r);
    Associate(p, q, d);
    Associate(b, p, r);
    Associate(p * q, p, r);
    Associate(p, q, r);
    Distribute(p, b * r + q * d, p * (q * r));
    Distribute(p, b * r, q * d);
  }

  lemma CongruentTrans(a: int, b: int, c: int)
    requires Congruent(a, b) && Congruent(b, c)
    ensures Congruent(a, c)
  {
    var q := Quotient(a, b);
    var r := Quotient(b, c);
    CongruentBy(a, c, q + r);
  }

  lemma CongruentSym(a: int, b: int)
    requires Congruent(a, b)
    ensures Congruent(b, a)
  {
    var q := Quotient(a, b);
    CongruentBy(a, b, q);
  }

  method MulAs(f: Fe, g: Fe, ghost a: int, ghost b: int) returns (h: Fe)
    requires Loose(f) && Loose(g) && Is(f, a) && Is(g, b)
    ensures Sized(h, 1) && Is(h, a * b)
  {
    h := Mul(f, g);
    CongruentSym(V(f) * V(g), V(h));
    CongruentProduct(V(f), a, V(g), b);
    CongruentTrans(V(h), V(f) * V(g), a * b);
  }

  method SqAs(f: Fe, ghost a: int) returns (h: Fe)
    requires Loose(f) && Is(f, a)
    ensures Sized(h, 1) && Is(h, a * a)
  {
    h := Sq(f);
    CongruentSym(V(f) * V(f), V(h));
    CongruentProduct(V(f), a, V(f), a);
    CongruentTrans(V(h), V(f) * V(f), a * a);
  }

  method Sq2As(f: Fe, ghost a: int) returns (h: Fe)
    requires Loose(f) && Is(f, a)
    ensures Sized(h, 1) && Is(h, 2 * (a * a))
  {
    h := Sq2(f);
    CongruentSym(2 * (V(f) * V(f)), V(h));
    CongruentProduct(V(f), a, V(f), a);
    CongruentSum(V(f) * V(f), a * a, V(f) * V(f), a * a);
    CongruentTrans(V(h), 2 * (V(f) * V(f)), 2 * (a * a));
  }

  /** fe_add: limb by limb, no carry. */
  method Add(f: Fe, g: Fe, ghost j: int, ghost k: int) returns (h: Fe)
    requires Sized(f, j) && Sized(g, k) && 0 <= j && 0 <= k && j + k <= 3
    ensures Sized(h, j + k) && V(h) == V(f) + V(g)
  {
    h := Ten(f.x0 + g.x0, f.x1 + g.x1, f.x2 + g.x2, f.x3 + g.x3, f.x4 + g.x4,
             f.x5 + g.x5, f.x6 + g.x6, f.x7 + g.x7, f.x8 + g.x8, f.x9 + g.x9);
  }

  /** fe_sub. */
  method Sub(f: Fe, g: Fe, ghost j: int, ghost k: int) returns (h: Fe)
    requires Sized(f, j) && Sized(g, k) && 0 <= j && 0 <= k && j + k <= 3
    ensures Sized(h, j + k) && V(h) == V(f) - V(g)
  {
    h := Ten(f.x0 - g.x0, f.x1 - g.x1, f.x2 - g.x2, f.x3 - g.x3, f.x4 - g.x4,
             f.x5 - g.x5, f.x6 - g.x6, f.x7 - g.x7, f.x8 - g.x8, f.x9 - g.x9);
  }

  lemma SumIs(h: Fe, f: Fe, g: Fe, a: int, b: int)
    requires V(h) == V(f) + V(g) && Is(f, a) && Is(g, b)
    ensures Is(h, a + b)
  {
    CongruentSum(V(f), a, V(g), b);
  }

  lemma DifferenceIs(h: Fe, f: Fe, g: Fe, a: int, b: int)
    requires V(h) == V(f) - V(g) && Is(f, a) && Is(g, b)
    ensures Is(h, a - b)
  {
    CongruentSum(V(f), a, V(g), b);
  }

  method AddAs(f: Fe, g: Fe, ghost a: int, ghost b: int, ghost j: int, ghost k: int) returns (h: Fe)
    requires Sized(f, j) && Sized(g, k) && Is(f, a) && Is(g, b) && 0 <= j && 0 <= k && j + k <= 3
    ensures Sized(h, j + k) && Is(h, a + b)
  {
    h := Add(f, g, j, k);
    SumIs(h, f, g, a, b);
  }

  method SubAs(f: Fe, g: Fe, ghost a: int, ghost b: int, ghost j: int, ghost k: int) returns (h: Fe)
    requires Sized(f, j) && Sized(g, k) && Is(f, a) && Is(g, b) && 0 <= j && 0 <= k && j + k <= 3
    ensures Sized(h, j + k) && Is(h, a - b)
  {
    h := Sub(f, g, j, k);
    DifferenceIs(h, f, g, a, b);
  }

  // ---------------------------------------------------------------- points

  datatype P2 = P2(X: Fe, Y: Fe, Z: Fe)
  datatype P3 = P3(X: Fe, Y: Fe, Z: Fe, T: Fe)
  datatype P1P1 = P1P1(X: Fe, Y: Fe, Z: Fe, T: Fe)
  datatype Cached = Cached(YplusX: Fe, YminusX: Fe, Z: Fe, T2d: Fe)
  datatype Precomp = Precomp(yplusx: Fe, yminusx: Fe, xy2d: Fe)

  /** Coordinates as integers modulo p; t is the extended coordinate xy/z. */
  datatype Point = Point(x: int, y: int, z: int, t: int)

  ghost predicate IsP2(p: P2, a: Point) {
    && Sized(p.X, 1) && Sized(p.Y, 1) && Sized(p.Z, 1)
    && Is(p.X, a.x) && Is(p.Y, a.y) && Is(p.Z, a.z)
  }

  ghost predicate IsP3(p: P3, a: Point) {
    IsP2(P2(p.X, p.Y, p.Z), a) && Sized(p.T, 1) && Is(p.T, a.t)
  }

  /** A completed point: the affine coordinates are x/z and y/t. */
  ghost predicate IsP1P1(p: P1P1, a: Point) {
    && Loose(p.X) && Loose(p.Y) && Loose(p.Z) && Loose(p.T)
    && Is(p.X, a.x) && Is(p.Y, a.y) && Is(p.Z, a.z) && Is(p.T, a.t)
  }

  ghost predicate IsCached(q: Cached, b: Point, d2: int) {
    && Sized(q.YplusX, 2) && Sized(q.YminusX, 2) && Sized(q.Z, 1) && Sized(q.T2d, 1)
    && Is(q.YplusX, b.y + b.x) && Is(q.YminusX, b.y - b.x) && Is(q.Z, b.z) && Is(q.T2d, b.t * d2)
  }

  /** A table entry: z is one and the extended coordinate is xy. */
  ghost predicate IsPrecomp(q: Precomp, b: Point, d2: int) {
    && Sized(q.yplusx, 1) && Sized(q.yminusx, 1) && Sized(q.xy2d, 1) && b.z == 1
    && Is(q.yplusx, b.y + b.x) && Is(q.yminusx, b.y - b.x) && Is(q.xy2d, b.t * d2)
  }

  /** The addition law: numerators 2(x1 y2 + x2 y1) and 2(y1 y2 + x1 x2), denominators 2 z1 z2 plus and
      minus 2d t1 t2. */
  function Sum(a: Point, b: Point, d2: int): Point {
    Point(2 * (a.x * b.y + b.x * a.y), 2 * (a.y * b.y + a.x * b.x),
          2 * (a.z * b.z) + d2 * (a.t * b.t), 2 * (a.z * b.z) - d2 * (a.t * b.t))
  }

  function Negated(b: Point): Point {
    Point(-b.x, b.y, b.z, -b.t)
  }

  /** Doubling: numerators 2xy and y^2 + x^2, denominators y^2 - x^2 and 2z^2 - (y^2 - x^2). */
  function Twice(a: Point): Point {
    Point(2 * (a.x * a.y), a.y * a.y + a.x * a.x, a.y * a.y - a.x * a.x, 2 * (a.z * a.z) - (a.y * a.y - a.x * a.x))
  }

  /** Clearing the denominators of a completed point. */
  function Cleared(a: Point): Point {
    Point(a.x * a.t, a.y * a.z, a.z * a.t, a.x * a.y)
  }

  /** The extended coordinate of a cleared point is its xy/z. */
  lemma ClearedExtended(a: Point)
    ensures var c := Cleared(a); c.t * c.z == c.x * c.y
  {
    FourFactors(a.x, a.y, a.z, a.t);
  }

  lemma FourFactors(x: int, y: int, z: int, t: int)
    ensures (x * y) * (z * t) == (x * t) * (y * z)
  {
    Associate(x * y, t, z);
    assert (x * y) * t == (x * t) * y;
    Associate(x * t, y, z);
  }

  // ---------------------------------------------------------------- the formulas

  /** ge_add with a cached operand; ge_sub is the same with the two cached sums and the two results
      exchanged. */
  method AddCached(p: P3, q: Cached, ghost a: Point, ghost b: Point, ghost d2: int) returns (r: P1P1)
    requires IsP3(p, a) && IsCached(q, b, d2)
    ensures IsP1P1(r, Sum(a, b, d2))
  {
    var x := AddAs(p.Y, p.X, a.y, a.x, 1, 1);
    var y := SubAs(p.Y, p.X, a.y, a.x, 1, 1);
    SizedLoose(x, 2);
    SizedLoose(y, 2);
    SizedLoose(q.YplusX, 2);
    SizedLoose(q.YminusX, 2);
    var z := MulAs(x, q.YplusX, a.y + a.x, b.y + b.x);
    y := MulAs(y, q.YminusX, a.y - a.x, b.y - b.x);
    SizedLoose(q.T2d, 1);
    SizedLoose(p.T, 1);
    var t := MulAs(q.T2d, p.T, b.t * d2, a.t);
    SizedLoose(p.Z, 1);
    SizedLoose(q.Z, 1);
    x := MulAs(p.Z, q.Z, a.z, b.z);
    r := Complete(z, y, x, t, (a.y + a.x) * (b.y + b.x), (a.y - a.x) * (b.y - b.x), a.z * b.z, b.t * d2 * a.t);
    SumIdentity(a, b, d2);
  }

  /** The common tail: the difference and the sum of the products, and twice z1 z2 plus and minus the
      t product. */
  method Complete(z: Fe, y: Fe, x: Fe, t: Fe, ghost zv: int, ghost yv: int, ghost xv: int, ghost tv: int) returns (r: P1P1)
    requires Sized(z, 1) && Sized(y, 1) && Sized(x, 1) && Sized(t, 1) && Is(z, zv) && Is(y, yv) && Is(x, xv) && Is(t, tv)
    ensures IsP1P1(r, Point(zv - yv, zv + yv, xv + xv + tv, xv + xv - tv))
  {
    var t0 := AddAs(x, x, xv, xv, 1, 1);
    var rx := SubAs(z, y, zv, yv, 1, 1);
    var ry := AddAs(z, y, zv, yv, 1, 1);
    var rz := AddAs(t0, t, xv + xv, tv, 2, 1);
    var rt := SubAs(t0, t, xv + xv, tv, 2, 1);
    SizedLoose(rx, 2);
    SizedLoose(ry, 2);
    SizedLoose(rz, 3);
    SizedLoose(rt, 3);
    r := P1P1(rx, ry, rz, rt);
  }

  lemma SumIdentity(a: Point, b: Point, d2: int)
    ensures var zv, yv := (a.y + a.x) * (b.y + b.x), (a.y - a.x) * (b.y - b.x);
      Sum(a, b, d2) == Point(zv - yv, zv + yv, a.z * b.z + a.z * b.z + b.t * d2 * a.t, a.z * b.z + a.z * b.z - b.t * d2 * a.t)
  {
    CrossSum(a.x, a.y, b.x, b.y);
    Associate(d2, a.t, b.t);
    Associate(b.t * d2, a.t, 1);
    assert d2 * (a.t * b.t) == b.t * d2 * a.t;
  }

  lemma CrossSum(x1: int, y1: int, x2: int, y2: int)
    ensures (y1 + x1) * (y2 + x2) == y1 * y2 + y1 * x2 + x1 * y2 + x1 * x2
    ensures (y1 - x1) * (y2 - x2) == y1 * y2 - y1 * x2 - x1 * y2 + x1 * x2
  {
    Distribute(y1 + x1, y2, x2);
    Distribute(y1 - x1, y2, x2);
    Distribute(y2, y1, x1);
    Distribute(x2, y1, x1);
  }

  lemma NegatedIdentity(a: Point, b: Point, d2: int)
    ensures var zv, yv, tv := (a.y + a.x) * (b.y - b.x), (a.y - a.x) * (b.y + b.x), b.t * d2 * a.t;
      Sum(a, Negated(b), d2) == Point(zv - yv, zv + yv, a.z * b.z + a.z * b.z - tv, a.z * b.z + a.z * b.z + tv)
  {
    SumIdentity(a, Negated(b), d2);
    assert b.y - (-b.x) == b.y + b.x && b.y + (-b.x) == b.y - b.x;
    Associate(-b.t, d2, a.t);
    Associate(b.t, d2, a.t);
    assert (-b.t) * (d2 * a.t) == -(b.t * (d2 * a.t));
  }

  /** ge_sub. */
  method SubCached(p: P3, q: Cached, ghost a: Point, ghost b: Point, ghost d2: int) returns (r: P1P1)
    requires IsP3(p, a) && IsCached(q, b, d2)
    ensures IsP1P1(r, Sum(a, Negated(b), d2))
  {
    var x := AddAs(p.Y, p.X, a.y, a.x, 1, 1);
    var y := SubAs(p.Y, p.X, a.y, a.x, 1, 1);
    SizedLoose(x, 2);
    SizedLoose(y, 2);
    SizedLoose(q.YplusX, 2);
    SizedLoose(q.YminusX, 2);
    var z := MulAs(x, q.YminusX, a.y + a.x, b.y - b.x);
    y := MulAs(y, q.YplusX, a.y - a.x, b.y + b.x);
    SizedLoose(q.T2d, 1);
    SizedLoose(p.T, 1);
    var t := MulAs(q.T2d, p.T, b.t * d2, a.t);
    SizedLoose(p.Z, 1);
    SizedLoose(q.Z, 1);
    x := MulAs(p.Z, q.Z, a.z, b.z);
    var c := Complete(z, y, x, t, (a.y + a.x) * (b.y - b.x), (a.y - a.x) * (b.y + b.x), a.z * b.z, b.t * d2 * a.t);
    r := P1P1(c.X, c.Y, c.T, c.Z);
    NegatedIdentity(a, b, d2);
  }

  /** ge_madd and ge_msub: the operand has z = 1, so twice z1 needs no product. */
  method AddPrecomp(p: P3, q: Precomp, ghost a: Point, ghost b: Point, ghost d2: int) returns (r: P1P1)
    requires IsP3(p, a) && IsPrecomp(q, b, d2)
    ensures IsP1P1(r, Sum(a, b, d2))
  {
    var x := AddAs(p.Y, p.X, a.y, a.x, 1, 1);
    var y := SubAs(p.Y, p.X, a.y, a.x, 1, 1);
    SizedLoose(x, 2);
    SizedLoose(y, 2);
    SizedLoose(q.yplusx, 1);
    SizedLoose(q.yminusx, 1);
    var z := MulAs(x, q.yplusx, a.y + a.x, b.y + b.x);
    y := MulAs(y, q.yminusx, a.y - a.x, b.y - b.x);
    SizedLoose(q.xy2d, 1);
    SizedLoose(p.T, 1);
    var t := MulAs(q.xy2d, p.T, b.t * d2, a.t);
    r := Complete(z, y, p.Z, t, (a.y + a.x) * (b.y + b.x), (a.y - a.x) * (b.y - b.x), a.z * b.z, b.t * d2 * a.t);
    SumIdentity(a, b, d2);
  }

  method SubPrecomp(p: P3, q: Precomp, ghost a: Point, ghost b: Point, ghost d2: int) returns (r: P1P1)
    requires IsP3(p, a) && IsPrecomp(q, b, d2)
    ensures IsP1P1(r, Sum(a, Negated(b), d2))
  {
    var x := AddAs(p.Y, p.X, a.y, a.x, 1, 1);
    var y := SubAs(p.Y, p.X, a.y, a.x, 1, 1);
    SizedLoose(x, 2);
    SizedLoose(y, 2);
    SizedLoose(q.yplusx, 1);
    SizedLoose(q.yminusx, 1);
    var z := MulAs(x, q.yminusx, a.y + a.x, b.y - b.x);
    y := MulAs(y, q.yplusx, a.y - a.x, b.y + b.x);
    SizedLoose(q.xy2d, 1);
    SizedLoose(p.T, 1);
    var t := MulAs(q.xy2d, p.T, b.t * d2, a.t);
    var c := Complete(z, y, p.Z, t, (a.y + a.x) * (b.y - b.x), (a.y - a.x) * (b.y + b.x), a.z * b.z, b.t * d2 * a.t);
    r := P1P1(c.X, c.Y, c.T, c.Z);
    NegatedIdentity(a, b, d2);
  }

  /** ge_p2_dbl: here a difference is taken of a difference and of a sum, and still fits. */
  method Double(p: P2, ghost a: Point) returns (r: P1P1)
    requires IsP2(p, a)
    ensures IsP1P1(r, Twice(a))
  {
    var x, z, t, t0 := DoubleHead(p, a);
    r := DoubleTail(x, z, t, t0, a.x * a.x, a.y * a.y, 2 * (a.z * a.z), (a.x + a.y) * (a.x + a.y));
    CrossSum(a.y, a.x, a.y, a.x);
  }

  method DoubleHead(p: P2, ghost a: Point) returns (x: Fe, z: Fe, t: Fe, t0: Fe)
    requires IsP2(p, a)
    ensures Sized(x, 1) && Sized(z, 1) && Sized(t, 1) && Sized(t0, 1)
    ensures Is(x, a.x * a.x) && Is(z, a.y * a.y) && Is(t, 2 * (a.z * a.z)) && Is(t0, (a.x + a.y) * (a.x + a.y))
  {
    SizedLoose(p.X, 1);
    SizedLoose(p.Y, 1);
    SizedLoose(p.Z, 1);
    x := SqAs(p.X, a.x);
    z := SqAs(p.Y, a.y);
    t := Sq2As(p.Z, a.z);
    var y := AddAs(p.X, p.Y, a.x, a.y, 1, 1);
    SizedLoose(y, 2);
    t0 := SqAs(y, a.x + a.y);
  }

  method DoubleTail(x: Fe, z: Fe, t: Fe, t0: Fe, ghost xv: int, ghost zv: int, ghost tv: int, ghost t0v: int) returns (r: P1P1)
    requires Sized(x, 1) && Sized(z, 1) && Sized(t, 1) && Sized(t0, 1) && Is(x, xv) && Is(z, zv) && Is(t, tv) && Is(t0, t0v)
    ensures IsP1P1(r, Point(t0v - (zv + xv), zv + xv, zv - xv, tv - (zv - xv)))
  {
    var ry := AddAs(z, x, zv, xv, 1, 1);
    var rz := SubAs(z, x, zv, xv, 1, 1);
    var rx := SubAs(t0, ry, t0v, zv + xv, 1, 2);
    var rt := SubAs(t, rz, tv, zv - xv, 1, 2);
    SizedLoose(rx, 3);
    SizedLoose(ry, 2);
    SizedLoose(rz, 2);
    SizedLoose(rt, 3);
    r := P1P1(rx, ry, rz, rt);
  }

  /** ge_p1p1_to_p3; ge_p1p1_to_p2 leaves the last product out. */
  method ToP3(p: P1P1, ghost a: Point) returns (r: P3)
    requires IsP1P1(p, a)
    ensures IsP3(r, Cleared(a))
  {
    var x := MulAs(p.X, p.T, a.x, a.t);
    var y := MulAs(p.Y, p.Z, a.y, a.z);
    var z := MulAs(p.Z, p.T, a.z, a.t);
    var t := MulAs(p.X, p.Y, a.x, a.y);
    r := P3(x, y, z, t);
  }

  method ToP2(p: P1P1, ghost a: Point) returns (r: P2)
    requires IsP1P1(p, a)
    ensures IsP2(r, Cleared(a))
  {
    var x := MulAs(p.X, p.T, a.x, a.t);
    var y := MulAs(p.Y, p.Z, a.y, a.z);
    var z := MulAs(p.Z, p.T, a.z, a.t);
    r := P2(x, y, z);
  }

  /** ge_p3_to_cached. */
  method ToCached(p: P3, d2: Fe, ghost a: Point, ghost d2v: int) returns (q: Cached)
    requires IsP3(p, a) && Sized(d2, 1) && Is(d2, d2v)
    ensures IsCached(q, a, d2v)
  {
    var plus := AddAs(p.Y, p.X, a.y, a.x, 1, 1);
    var minus := SubAs(p.Y, p.X, a.y, a.x, 1, 1);
    SizedLoose(p.T, 1);
    SizedLoose(d2, 1);
    var t := MulAs(p.T, d2, a.t, d2v);
    q := Cached(plus, minus, p.Z, t);
  }

  // ---------------------------------------------------------------- the constants

  const D: Fe := Ten(-10913610, 13857413, -15372611, 6949391, 114729, -8787816, -6275908, -3247719, -18696448, -12055116)
  const D2: Fe := Ten(-21827239, -5839606, -30745221, 13898782, 229458, 15978800, -12551817, -6495438, 29715968, 9444199)
  const SQRTM1: Fe := Ten(-32595792, -7943725, 9377950, 3500415, 12389472, -272473, -25146209, -2005654, 326686, 11406482)

  /** The limbs of the source's constants: d is -121665/121666, d2 is twice d, sqrtm1 squares to -1, and
      all fit where a product's result is expected. */
  lemma CurveConstants()
    ensures Congruent(V(D) * 121666, -121665) && Congruent(V(D2), 2 * V(D)) && Congruent(V(SQRTM1) * V(SQRTM1), -1)
    ensures Sized(D, 1) && Sized(D2, 1) && Sized(SQRTM1, 1)
  {
    CongruentBy(V(D) * 121666, -121665, -43711);
    CongruentBy(V(D2), 2 * V(D), 1);
    SquareOf(V(SQRTM1), 0x2b83_2480_4fc1_df0b_2b4d_0099_3dfb_d7a7_2f43_1806_ad2f_e478_c4ee_1b27_4a0e_a0b0);
    CongruentBy(V(SQRTM1) * V(SQRTM1), -1, 0xeca_a2e2_f6a2_302c_cedb_31ac_0572_0688_238c_ed20_78f3_eb0e_c9f2_2e8f_6219_72e5);
  }

  lemma SquareOf(x: int, v: int)
    requires x == v
    ensures x * x == v * v
  {}
}
