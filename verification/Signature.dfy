/** Ed25519 with SHA3-512: key pairs, signing and verifying. The curve's points form a cyclic group of order 8l;
    a point is its residue modulo 8l in terms of a generator whose eighth multiple is the base point. So every
    point there is can be decoded, those with a small-order part included. The hash and the point encoding are
    parameters. */
module Signature {
  import opened Arith
  import opened Bytes
  import opened SlidingWindow
  import opened ScalarMult
  import opened ScalarLimbs
  import opened ScalarReduce
  import opened ScalarMulAdd

  /** A 64-byte hash, and an encoding of points in 32 bytes that decoding undoes. */
  datatype Scheme = Scheme(hash: seq<byte> -> seq<byte>, encode: nat -> seq<byte>, decode: seq<byte> -> Decoded)

  datatype Decoded = Bad | Point(x: nat)

  /** The number of points, and the base point. */
  const POINTS: nat := 8 * ORDER
  const BASE: nat := 8

  ghost predicate Valid(s: Scheme) {
    && (forall m :: |s.hash(m)| == 64)
    && (forall x: nat :: |s.encode(x)| == 32)
    && (forall x: nat :: x < POINTS ==> s.decode(s.encode(x)) == Point(x))
    && (forall b :: s.decode(b).Point? ==> s.decode(b).x < POINTS)
  }

  // ---------------------------------------------------------------- the scalars meet their loops' bounds

  /** 2^253 as the bound of a 32-byte string whose last byte is below 32. */
  lemma TopByte(a: seq<byte>)
    requires |a| == 32
    ensures LeNat(a) < 32 * Pow256(31) <==> a[31] < 32
    ensures LeNat(a) >= a[31] * Pow256(31)
  {
    assert a == a[..31] + [a[31]];
    LeConcat(a[..31], [a[31]]);
    assert LeNat([a[31]]) == a[31];
    LeNatBound(a[..31]);
    var p := Pow256(31);
    Commute(p, a[31]);
    if a[31] < 32 {
      Monotone(a[31], 31, p);
    } else {
      Monotone(32, a[31], p);
    }
  }

  lemma {:induction false} PowersAgree(n: nat)
    ensures Pow256(n) == Pow2(8 * n)
  {
    if n > 0 {
      PowersAgree(n - 1);
      Pow2Add(8, 8 * (n - 1));
      SmallPowers();
    }
  }

  lemma ThreeBitsLess(n: nat)
    ensures Pow2(8 * (n + 1) - 3) == 32 * Pow256(n)
  {
    PowersAgree(n);
    Pow2Add(5, 8 * n);
    SmallPowers();
  }

  lemma TopClearByte(a: seq<byte>)
    requires |a| == 32
    ensures TopClear(a) <==> a[31] < 32
  {
    TopByte(a);
    ThreeBitsLess(31);
  }

  lemma OrderBound()
    ensures ORDER < 32 * Pow256(31)
  {
    Pow256Of8();
    var n: nat := 8;
    Powers256(n, n, TWO64, TWO64);
    Powers256(16, n, 0x1_0000_0000_0000_0000_0000_0000_0000_0000, TWO64);
    assert Pow256(32) == 256 * Pow256(31);
    Powers256(24, n, 0x1_0000_0000_0000_0000_0000_0000_0000_0000_0000_0000_0000_0000, TWO64);
  }

  lemma Powers256(a: nat, b: nat, v: nat, w: nat)
    requires Pow256(a) == v && Pow256(b) == w
    ensures Pow256(a + b) == v * w
  {
    Pow256Add(a, b);
  }

  /** A reduced scalar has its three top bits clear. */
  lemma ReducedTopClear(a: seq<byte>)
    requires |a| == 32 && LeNat(a) < ORDER
    ensures TopClear(a) && a[31] < 32
  {
    OrderBound();
    TopByte(a);
    TopClearByte(a);
  }

  // ---------------------------------------------------------------- what the three operations compute

  /** The clamping of the private scalar: three low bits cleared, bit 254 set, bit 255 cleared. */
  function Clamp(k: seq<byte>): (r: seq<byte>)
    requires |k| == 64
    ensures |r| == 64
  {
    k[0 := k[0] - k[0] % 8][31 := k[31] % 64 + 64]
  }

  lemma LeEnds(b: seq<byte>)
    requires |b| == 32
    ensures LeNat(b) == b[0] + 256 * LeNat(b[1..31]) + b[31] * Pow256(31)
    ensures b[0] + 256 * LeNat(b[1..31]) < Pow256(31)
  {
    assert b == b[..31] + [b[31]] && b[..31] == [b[0]] + b[1..31];
    LeConcat(b[..31], [b[31]]);
    LeConcat([b[0]], b[1..31]);
    assert LeNat([b[31]]) == b[31] && LeNat([b[0]]) == b[0];
    assert Pow256(1) == 256;
    Commute(b[31], Pow256(31));
    LeNatBound(b[..31]);
  }

  /** The scalar of a key: 2^254, and of the hashed seed's low 254 bits all but the lowest three. */
  lemma ClampedScalar(k: seq<byte>)
    requires |k| == 64
    ensures var h := LeNat(k[..32]); LeNat(Clamp(k)[..32]) == Pow2(254) + h % Pow2(254) - h % 8
    ensures Clamp(k)[32..] == k[32..]
  {
    hide Pow2, Pow256, LeNat;
    var b, c := k[..32], Clamp(k)[..32];
    LeEnds(b);
    LeEnds(c);
    assert c[1..31] == b[1..31];
    TopPower(31);
    ClampedValue(b[0], LeNat(b[1..31]), b[31], Pow256(31));
  }

  lemma TopPower(n: nat)
    ensures Pow2(8 * n + 6) == 64 * Pow256(n) && (n > 0 ==> Pow256(n) % 8 == 0)
  {
    hide Pow2, Pow256;
    Pow2Add(6, 8 * n);
    PowersAgree(n);
    SixBits();
    if n > 0 {
      Eightfold(n);
    }
  }

  lemma SixBits()
    ensures Pow2(6) == 64
  {}

  lemma Eightfold(n: nat)
    requires n > 0
    ensures Pow256(n) % 8 == 0
  {
    ModUnique(Pow256(n), 32 * Pow256(n - 1), 0, 8);
  }

  lemma ClampedValue(b: nat, mid: nat, top: nat, p: nat)
    requires b + 256 * mid < p && p % 8 == 0
    ensures var h := b + 256 * mid + top * p;
      b - b % 8 + 256 * mid + (top % 64 + 64) * p == 64 * p + h % (64 * p) - h % 8
  {
    ModBytes(b + 256 * mid, top, p);
    LowBits(b, mid, top, p);
    Distribute(p, top % 64, 64);
    Commute(p, top % 64 + 64);
    Commute(p, top % 64);
  }

  lemma ModBytes(low: nat, top: nat, p: nat)
    requires low < p
    ensures (low + top * p) % (64 * p) == low + top % 64 * p
  {
    DivMod(top, 64);
    var q, r := top / 64, top % 64;
    assert top * p == 64 * q * p + r * p;
    Associate(q, 64, p);
    Monotone(r + 1, 64, p);
    ModUnique(low + top * p, q, low + r * p, 64 * p);
  }

  lemma LowBits(b: nat, mid: nat, top: nat, p: nat)
    requires p % 8 == 0
    ensures (b + 256 * mid + top * p) % 8 == b % 8
  {
    assert p == 8 * (p / 8);
    Associate(top, 8, p / 8);
    ModShift(b, 32 * mid + top * (p / 8), 8);
  }

  function KeyOf(s: Scheme, seed: seq<byte>): seq<byte>
    requires |s.hash(seed)| == 64
  {
    Clamp(s.hash(seed))
  }

  function Scalar(k: seq<byte>): nat
    requires |k| >= 32
  {
    LeNat(k[..32])
  }

  function PublicOf(s: Scheme, k: seq<byte>): seq<byte>
    requires |k| >= 32
  {
    s.encode(Scalar(k) * BASE % POINTS)
  }

  function Nonce(s: Scheme, k: seq<byte>, m: seq<byte>): nat
    requires |k| == 64
  {
    LeNat(s.hash(k[32..] + m)) % ORDER
  }

  function Challenge(s: Scheme, r: seq<byte>, pub: seq<byte>, m: seq<byte>): nat {
    LeNat(s.hash(r + pub + m)) % ORDER
  }

  /** What ed25519_sign writes: the encoded nonce point, and the scalar (h a + r) mod l in 32 bytes. */
  predicate IsSigned(s: Scheme, k: seq<byte>, pub: seq<byte>, m: seq<byte>, sig: seq<byte>)
    requires |k| == 64
  {
    var r := Nonce(s, k, m);
    && |sig| == 64 && sig[..32] == s.encode(r * BASE)
    && LeNat(sig[32..]) == (Challenge(s, s.encode(r * BASE), pub, m) * Scalar(k) + r) % ORDER
  }

  /** Written out: the nonce is the hash of the key's second half and the message, the challenge that of the
      signature's first half, the public key and the message, both modulo l. */
  lemma SignedMeans(s: Scheme, k: seq<byte>, pub: seq<byte>, m: seq<byte>, sig: seq<byte>, x: seq<byte>, y: seq<byte>)
    requires |k| == 64 && |pub| == 32 && IsSigned(s, k, pub, m, sig)
    requires |x| == 32 + |m| && x[..32] == k[32..] && x[32..] == m
    requires |y| == 64 + |m| && y[..32] == sig[..32] && y[32..64] == pub && y[64..] == m
    ensures var r, h := LeNat(s.hash(x)) % ORDER, LeNat(s.hash(y)) % ORDER;
      sig[..32] == s.encode(8 * r) && LeNat(sig[32..]) == (h * LeNat(k[..32]) + r) % ORDER
  {
    assert x == k[32..] + m;
    assert y == sig[..32] + pub + m;
  }

  /** The nonce is in the signature: two keys give one message the same first half exactly if their second
      halves hash with it to the same residue, and keys with equal first halves give it the same signature
      exactly then. */
  lemma NonceSeen(s: Scheme, k: seq<byte>, k': seq<byte>, pub: seq<byte>, m: seq<byte>, sig: seq<byte>, sig': seq<byte>)
    requires Valid(s) && |k| == |k'| == 64 && IsSigned(s, k, pub, m, sig) && IsSigned(s, k', pub, m, sig')
    ensures sig[..32] == sig'[..32] <==> LeNat(s.hash(k[32..] + m)) % ORDER == LeNat(s.hash(k'[32..] + m)) % ORDER
    ensures k[..32] == k'[..32] ==>
      (sig == sig' <==> LeNat(s.hash(k[32..] + m)) % ORDER == LeNat(s.hash(k'[32..] + m)) % ORDER)
  {
    var r, r' := Nonce(s, k, m), Nonce(s, k', m);
    assert s.decode(s.encode(r * BASE)) == Point(r * BASE) && s.decode(s.encode(r' * BASE)) == Point(r' * BASE);
    if r == r' && k[..32] == k'[..32] {
      LeNatRoundTrip(sig[32..]);
      LeNatRoundTrip(sig'[32..]);
      assert sig == sig[..32] + sig[32..] && sig' == sig'[..32] + sig'[32..];
    }
  }

  /** That determines the signature. */
  lemma SignedUnique(s: Scheme, k: seq<byte>, pub: seq<byte>, m: seq<byte>, x: seq<byte>, y: seq<byte>)
    requires |k| == 64 && IsSigned(s, k, pub, m, x) && IsSigned(s, k, pub, m, y)
    ensures x == y
  {
    LeNatRoundTrip(x[32..]);
    LeNatRoundTrip(y[32..]);
    assert x == x[..32] + x[32..] && y == y[..32] + y[32..];
  }

  /** What ed25519_verify accepts: the second half has its top bits clear, the public key decodes, and the
      first half encodes SB - hA. */
  predicate Accepts(s: Scheme, sig: seq<byte>, pub: seq<byte>, m: seq<byte>)
    requires |sig| == 64
  {
    && sig[63] < 32
    && s.decode(pub).Point?
    && var h := Challenge(s, sig[..32], pub, m);
       s.encode((LeNat(sig[32..]) * BASE - h * s.decode(pub).x) % POINTS) == sig[..32]
  }

  /** Written out, with the hash that signing takes too. */
  lemma AcceptsMeans(s: Scheme, sig: seq<byte>, pub: seq<byte>, m: seq<byte>, y: seq<byte>)
    requires |sig| == 64 && |pub| == 32
    requires |y| == 64 + |m| && y[..32] == sig[..32] && y[32..64] == pub && y[64..] == m
    ensures Accepts(s, sig, pub, m) <==>
      && sig[63] < 32 && s.decode(pub).Point?
      && s.encode((8 * LeNat(sig[32..]) - LeNat(s.hash(y)) % ORDER * s.decode(pub).x) % (8 * ORDER)) == sig[..32]
  {
    assert y == sig[..32] + pub + m;
  }

  /** Beside an accepted signature, exactly those with the same first half are accepted whose scalar is the
      same modulo l and has its top bits clear: the scalar is not required to be reduced. */
  lemma AcceptedScalars(s: Scheme, sig: seq<byte>, sig': seq<byte>, pub: seq<byte>, m: seq<byte>)
    requires Valid(s) && |sig| == |sig'| == 64 && sig[..32] == sig'[..32] && Accepts(s, sig, pub, m)
    ensures Accepts(s, sig', pub, m) <==> sig'[63] < 32 && LeNat(sig'[32..]) % ORDER == LeNat(sig[32..]) % ORDER
  {
    var a, a' := LeNat(sig[32..]), LeNat(sig'[32..]);
    var z := Challenge(s, sig[..32], pub, m) * s.decode(pub).x;
    var p, p' := (a * BASE - z) % POINTS, (a' * BASE - z) % POINTS;
    assert s.decode(s.encode(p)) == Point(p) && s.decode(s.encode(p')) == Point(p');
    SameMultiples(a, a', z, ORDER, BASE);
  }

  /** c-fold multiples less z are equal modulo c n exactly if the factors are equal modulo n. */
  lemma SameMultiples(a: int, a': int, z: int, n: nat, c: nat)
    requires n > 0 && c > 0
    ensures c * n > 0 && ((a * c - z) % (c * n) == (a' * c - z) % (c * n) <==> a % n == a' % n)
  {
    ScaleMod(a - a', n, c);
    Differ(a, a', c);
    ModDifference(a * c - z, a' * c - z, c * n);
    ModDifference(a, a', n);
    Zero((a - a') % n, c);
  }

  lemma Zero(x: int, c: int)
    requires c > 0
    ensures x * c == 0 <==> x == 0
  {}

  lemma ModDifference(x: int, y: int, n: int)
    requires n > 0
    ensures x % n == y % n <==> (x - y) % n == 0
  {
    DivMod(x, n);
    DivMod(y, n);
    DivMod(x - y, n);
    if x % n == y % n {
      Distribute(n, x / n, y / n);
      ModUnique(x - y, x / n - y / n, 0, n);
    } else if (x - y) % n == 0 {
      Distribute(n, (x - y) / n, y / n);
      ModUnique(x, (x - y) / n + y / n, y % n, n);
    }
  }

  /** Every signature under a generated key is accepted. */
  lemma SignedAccepted(s: Scheme, seed: seq<byte>, m: seq<byte>, sig: seq<byte>)
    requires Valid(s)
    requires var k := KeyOf(s, seed); IsSigned(s, k, PublicOf(s, k), m, sig)
    ensures Accepts(s, sig, PublicOf(s, KeyOf(s, seed)), m)
  {
    var k := KeyOf(s, seed);
    var pub := PublicOf(s, k);
    ReducedTopClear(sig[32..]);
    var r := Nonce(s, k, m);
    CancelScaled(Challenge(s, s.encode(r * BASE), pub, m), Scalar(k), r, ORDER, BASE);
  }

  /** (ha + r) - h(a mod n) is r modulo n. */
  lemma Cancel(h: nat, a: nat, r: nat, n: nat)
    requires r < n
    ensures ((h * a + r) % n - h * (a % n)) % n == r
  {
    var x := h * a + r;
    DivMod(x, n);
    DivMod(a, n);
    Distribute(h, n * (a / n), a % n);
    Associate(h, n, a / n);
    var q := h * (a / n) - x / n;
    Distribute(n, h * (a / n), x / n);
    assert x % n - h * (a % n) == r + n * q;
    ModUnique(r + n * q, q, r, n);
  }

  /** The same for c-fold multiples modulo c n. */
  lemma CancelScaled(h: nat, a: nat, r: nat, n: nat, c: nat)
    requires r < n && c > 0
    ensures ((h * a + r) % n * c - h * (a * c % (c * n))) % (c * n) == r * c
  {
    var x := (h * a + r) % n - h * (a % n);
    Cancel(h, a, r, n);
    ScaleMod(a, n, c);
    ScaleMod(x, n, c);
    Associate(h, a % n, c);
    Differ((h * a + r) % n, h * (a % n), c);
  }

  lemma Differ(x: int, y: int, c: int)
    ensures x * c - y * c == (x - y) * c
  {}

  lemma ScaleMod(x: int, n: nat, c: nat)
    requires n > 0 && c > 0
    ensures c * n > 0 && x * c % (c * n) == x % n * c
  {
    DivMod(x, n);
    Split3(x, x / n, x % n, n, c);
    Bounded(x % n, n, c);
    ModUnique(x * c, x / n, x % n * c, c * n);
  }

  lemma Split3(x: int, q: int, r: int, n: int, c: int)
    requires x == n * q + r
    ensures x * c == r * c + c * n * q
  {
    assert x * c == n * q * c + r * c;
    assert n * q * c == c * n * q;
  }

  lemma Bounded(r: nat, n: nat, c: nat)
    requires r < n && c > 0
    ensures 0 <= r * c < c * n
  {
    assert (r + 1) * c <= n * c;
  }

  // ---------------------------------------------------------------- the operations

  /** sc_reduce on a copy of a hash. */
  method Reduced(b: seq<byte>) returns (r: seq<byte>)
    requires |b| == 64
    ensures |r| == 32 && LeNat(r) == LeNat(b) % ORDER && TopClear(r) && r[31] < 32
  {
    var a := new byte[64](i requires 0 <= i < 64 => b[i]);
    assert a[..] == b;
    ScReduce(a);
    r := a[..32];
    ReducedTopClear(r);
  }

  /** ed25519_create_keypair. */
  method CreateKeypair(s: Scheme, seed: seq<byte>) returns (pub: seq<byte>, k: seq<byte>)
    requires Valid(s)
    ensures k == KeyOf(s, seed) && pub == PublicOf(s, k)
  {
    k := s.hash(seed);
    k := k[0 := k[0] - k[0] % 8];
    k := k[31 := k[31] % 64];
    k := k[31 := k[31] + 64];
    var a := ScalarMultBase(k[..32]);
    pub := s.encode(a * BASE % POINTS);
  }

  /** ed25519_sign. */
  method Sign(s: Scheme, m: seq<byte>, pub: seq<byte>, k: seq<byte>) returns (sig: seq<byte>)
    requires Valid(s) && |k| == 64
    ensures IsSigned(s, k, pub, m, sig)
  {
    var r := Reduced(s.hash(k[32..] + m));
    var p := ScalarMultBase(r);
    var e := s.encode(p * BASE);
    var h := Reduced(s.hash(e + pub + m));
    var t := ScMulAdd(h, k[..32], r);
    sig := e + t;
    assert sig[..32] == e && sig[32..] == t;
  }

  lemma Opposite(a: int, x: int)
    ensures a * -x == -(a * x)
  {}

  /** ed25519_verify. The decoder gives the negated public key. */
  method Verify(s: Scheme, sig: seq<byte>, m: seq<byte>, pub: seq<byte>) returns (ok: bool)
    requires Valid(s) && |sig| == 64
    ensures ok <==> Accepts(s, sig, pub, m)
  {
    hide LeNat, Pow2, Pow256, InBits;
    if sig[63] / 32 != 0 {
      return false;
    }
    var a := s.decode(pub);
    if a.Bad? {
      return false;
    }
    var h := Reduced(s.hash(sig[..32] + pub + m));
    TopClearByte(sig[32..]);
    var r := DoubleScalarMult(h, sig[32..]);
    var minus := -(a.x as int);
    var checker := s.encode((r.a * minus + r.b * BASE) % POINTS);
    Opposite(r.a, a.x);
    SameBits(checker, sig[..32]);
    ok := ConsttimeEqual(InBits(checker), InBits(sig[..32]));
  }

  function InBits(s: seq<byte>): (r: seq<bv8>)
    ensures |r| == |s|
  {
    seq(|s|, i requires 0 <= i < |s| => Bits8(s[i]))
  }

  lemma SameBits(x: seq<byte>, y: seq<byte>)
    ensures InBits(x) == InBits(y) <==> x == y
  {
    if InBits(x) == InBits(y) {
      forall i | 0 <= i < |x|
        ensures |InBits(x)| == |x| && |InBits(y)| == |y| && x[i] == y[i]
      {
        assert InBits(x)[i] == InBits(y)[i];
        Bits8Injective(x[i], y[i]);
      }
      assert |InBits(x)| == |x| && |InBits(y)| == |y|;
    }
  }

  /** consttime_equal: the collected differences vanish only if there are none. */
  method ConsttimeEqual(x: seq<bv8>, y: seq<bv8>) returns (eq: bool)
    requires |x| == |y| == 32
    ensures eq <==> x == y
  {
    var r: bv8 := x[0] ^ y[0];
    var i := 1;
    while i < 32
      invariant 1 <= i <= 32 && (r == 0 <==> x[..i] == y[..i])
    {
      Collect(r, x[i], y[i]);
      r := r | (x[i] ^ y[i]);
      assert x[..i + 1] == x[..i] + [x[i]] && y[..i + 1] == y[..i] + [y[i]];
      i := i + 1;
    }
    assert x[..32] == x && y[..32] == y;
    eq := r == 0;
  }

  lemma Collect(r: bv8, a: bv8, b: bv8)
    ensures r | (a ^ b) == 0 <==> r == 0 && a == b
  {}

  /** A key pair, a signature with it and its verification: accepted, for every seed and message. */
  method SignAndVerify(s: Scheme, seed: seq<byte>, m: seq<byte>) returns (pub: seq<byte>, sig: seq<byte>, ok: bool)
    requires Valid(s)
    ensures ok && |sig| == 64 && pub == PublicOf(s, KeyOf(s, seed)) && IsSigned(s, KeyOf(s, seed), pub, m, sig)
  {
    var k;
    pub, k := CreateKeypair(s, seed);
    sig := Sign(s, m, pub, k);
    ok := Verify(s, sig, m, pub);
    SignedAccepted(s, seed, m, sig);
  }
}
