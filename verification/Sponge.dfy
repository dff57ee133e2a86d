/** SHA-3 as a stream: however a message is split into updates, the digest is that of the padded-block
    sponge (sections 4 and 6.1 of FIPS 202). The permutation acts on the 200 bytes of the state. */
module Sponge {
  import opened Arith

  const SIZE: nat := 200

  type Block = seq<bv8>

  ghost predicate Permutation(f: Block -> Block) {
    forall s :: |s| == SIZE ==> |f(s)| == SIZE
  }

  // ---------------------------------------------------------------- the sponge on padded blocks

  /** x exclusive-ored into the front of s. */
  function Xor(s: Block, x: Block): (r: Block)
    requires |x| <= |s|
    ensures |r| == |s|
  {
    seq(|s|, i requires 0 <= i < |s| => if i < |x| then s[i] ^ x[i] else s[i])
  }

  /** Whole blocks of `rate` bytes; a shorter rest is left out. */
  function Absorb(f: Block -> Block, rate: nat, s: Block, m: seq<bv8>): (r: Block)
    requires 0 < rate <= SIZE && |s| == SIZE && Permutation(f)
    ensures |r| == SIZE
    decreases |m|
  {
    if |m| < rate then s else Absorb(f, rate, f(Xor(s, m[..rate])), m[rate..])
  }

  /** 0x06, zeros, 0x80, filling k bytes; one byte 0x86 if that is all there is. */
  function PadTo(k: nat): (p: seq<bv8>)
    requires k > 0
    ensures |p| == k
  {
    seq(k, i => if k == 1 then 0x86 else if i == 0 then 0x06 else if i == k - 1 then 0x80 else 0)
  }

  function Padding(rate: nat, n: nat): (p: seq<bv8>)
    requires rate > 0
    ensures |p| == rate - n % rate
  {
    PadTo(rate - n % rate)
  }

  function Zero(): (s: Block)
    ensures |s| == SIZE
  {
    seq(SIZE, _ => 0)
  }

  function Digest(f: Block -> Block, mdlen: nat, m: seq<bv8>): seq<bv8>
    requires mdlen < 100 && Permutation(f)
  {
    var rate := SIZE - 2 * mdlen;
    Absorb(f, rate, Zero(), m + Padding(rate, |m|))[..mdlen]
  }

  /** A message shorter than the rate: the permutation is applied once, to the message, its padding and zeros. */
  lemma ShortDigest(f: Block -> Block, mdlen: nat, m: seq<bv8>)
    requires mdlen < 100 && Permutation(f) && |m| < 200 - 2 * mdlen
    ensures |m + PadTo(200 - 2 * mdlen - |m|) + seq(2 * mdlen, _ => 0)| == SIZE
    ensures Digest(f, mdlen, m) == f(m + PadTo(200 - 2 * mdlen - |m|) + seq(2 * mdlen, _ => 0))[..mdlen]
  {
    var rate := SIZE - 2 * mdlen;
    var b := m + Padding(rate, |m|);
    var s := b + seq(2 * mdlen, _ => 0);
    SmallMod(|m|, rate);
    forall i | 0 <= i < SIZE
      ensures Xor(Zero(), b)[i] == s[i]
    {
      if i < |b| {
        ZeroXor(b[i]);
      }
    }
    assert Xor(Zero(), b) == s;
    OneBlock(f, rate, Zero(), b);
  }

  lemma ZeroXor(x: bv8)
    ensures 0 ^ x == x
  {}

  // ---------------------------------------------------------------- the stream

  /** The state after m: the full blocks absorbed, the rest exclusive-ored in front. */
  function Streamed(f: Block -> Block, rate: nat, m: seq<bv8>): (r: Block)
    requires 0 < rate <= SIZE && Permutation(f)
    ensures |r| == SIZE
  {
    Xor(Absorb(f, rate, Zero(), m), Rest(rate, m))
  }

  function Rest(rate: nat, m: seq<bv8>): (r: seq<bv8>)
    requires rate > 0
    ensures |r| < rate && |r| <= |m|
    decreases |m|
  {
    if |m| < rate then m else Rest(rate, m[rate..])
  }

  lemma {:induction false} RestLength(rate: nat, m: seq<bv8>)
    requires rate > 0
    ensures |Rest(rate, m)| == |m| % rate
    decreases |m|
  {
    if |m| >= rate {
      RestLength(rate, m[rate..]);
      ModShift(|m| - rate, 1, rate);
    }
  }

  /** Appending to a message that leaves no full block behind. */
  lemma {:induction false} AbsorbAppend(f: Block -> Block, rate: nat, s: Block, m: seq<bv8>, x: seq<bv8>)
    requires 0 < rate <= SIZE && |s| == SIZE && Permutation(f)
    ensures Absorb(f, rate, s, m + x) == Absorb(f, rate, Absorb(f, rate, s, m), Rest(rate, m) + x)
    ensures Rest(rate, m + x) == Rest(rate, Rest(rate, m) + x)
    decreases |m|
  {
    if |m| >= rate {
      assert (m + x)[..rate] == m[..rate] && (m + x)[rate..] == m[rate..] + x;
      AbsorbAppend(f, rate, f(Xor(s, m[..rate])), m[rate..], x);
    }
  }

  /** One byte exclusive-ored in. */
  function PutByte(s: Block, pt: nat, x: bv8): (r: Block)
    requires pt < |s|
    ensures |r| == |s|
  {
    s[pt := s[pt] ^ x]
  }

  /** One byte of sha3_update. */
  function Feed(f: Block -> Block, rate: nat, s: Block, pt: nat, x: bv8): (Block, nat)
    requires pt < rate <= SIZE && |s| == SIZE
  {
    var t := PutByte(s, pt, x);
    if pt + 1 >= rate then (f(t), 0) else (t, pt + 1)
  }

  lemma Fed(f: Block -> Block, rate: nat, s: Block, pt: nat, x: bv8)
    requires pt < rate <= SIZE && |s| == SIZE
    ensures var t := PutByte(s, pt, x); Feed(f, rate, s, pt, x) == if pt + 1 >= rate then (f(t), 0) else (t, pt + 1)
  {}

  lemma XorZero(x: bv8)
    ensures x ^ 0 == x
  {}

  lemma XorAppend(s: Block, r: seq<bv8>, x: bv8)
    requires |r| < |s|
    ensures Xor(s, r + [x]) == PutByte(Xor(s, r), |r|, x)
  {}

  lemma XorNothing(s: Block)
    ensures Xor(s, []) == s
  {}

  /** Feeding a byte is appending it to the message. */
  lemma FeedIsAppend(f: Block -> Block, rate: nat, m: seq<bv8>, x: bv8)
    requires 0 < rate <= SIZE && Permutation(f)
    ensures Feed(f, rate, Streamed(f, rate, m), |Rest(rate, m)|, x) == (Streamed(f, rate, m + [x]), |Rest(rate, m + [x])|)
  {
    hide Absorb, Rest, Xor, PutByte;
    var s, r := Absorb(f, rate, Zero(), m), Rest(rate, m);
    var b := r + [x];
    AbsorbAppend(f, rate, Zero(), m, [x]);
    XorAppend(s, r, x);
    if |b| < rate {
      ShortBlock(f, rate, s, b);
    } else {
      OneBlock(f, rate, s, b);
      XorNothing(f(Xor(s, b)));
    }
  }

  lemma ShortBlock(f: Block -> Block, rate: nat, s: Block, b: seq<bv8>)
    requires 0 < rate <= SIZE && |s| == SIZE && Permutation(f) && |b| < rate
    ensures Absorb(f, rate, s, b) == s && Rest(rate, b) == b
  {}

  /** The two pad bytes of sha3_final, at pt and at the end of the rate. */
  function Padded(s: Block, pt: nat, rate: nat): (r: Block)
    requires pt < rate <= |s|
    ensures |r| == |s|
  {
    PutByte(PutByte(s, pt, 0x06), rate - 1, 0x80)
  }

  lemma BothBytes(x: bv8)
    ensures x ^ 0x06 ^ 0x80 == x ^ 0x86
  {}

  lemma PadBytes(a: Block, r: seq<bv8>, k: nat)
    requires k > 0 && |r| + k <= |a|
    ensures Padded(Xor(a, r), |r|, |r| + k) == Xor(a, r + PadTo(k))
  {
    var x, y, b := Padded(Xor(a, r), |r|, |r| + k), Xor(a, r + PadTo(k)), r + PadTo(k);
    forall i | 0 <= i < |a|
      ensures x[i] == y[i]
    {
      if |r| <= i < |r| + k {
        assert b[i] == PadTo(k)[i - |r|];
        BothBytes(a[i]);
        XorZero(a[i]);
      } else if i < |r| {
        assert b[i] == r[i];
      }
    }
  }

  /** The two pad bytes on the streamed state are the padding block, also where they coincide. */
  lemma PadIsBlock(f: Block -> Block, rate: nat, m: seq<bv8>)
    requires 0 < rate <= SIZE && Permutation(f)
    ensures f(Padded(Streamed(f, rate, m), |Rest(rate, m)|, rate)) == Absorb(f, rate, Zero(), m + Padding(rate, |m|))
  {
    var a, r := Absorb(f, rate, Zero(), m), Rest(rate, m);
    var k := rate - |r|;
    RestLength(rate, m);
    AbsorbAppend(f, rate, Zero(), m, PadTo(k));
    PadBytes(a, r, k);
    OneBlock(f, rate, a, r + PadTo(k));
  }

  lemma OneBlock(f: Block -> Block, rate: nat, s: Block, b: seq<bv8>)
    requires 0 < rate <= SIZE && |s| == SIZE && Permutation(f) && |b| == rate
    ensures Absorb(f, rate, s, b) == f(Xor(s, b)) && Rest(rate, b) == []
  {
    assert b[..rate] == b && b[rate..] == [];
  }

  // ---------------------------------------------------------------- the context

  /** sha3_ctx_t, with the message fed so far. */
  class Hasher {
    const f: Block -> Block
    const mdlen: nat
    const rate: nat
    var st: Block
    var pt: nat
    ghost var message: seq<bv8>

    ghost predicate Valid()
      reads this
    {
      && Permutation(f) && mdlen < 100 && rate == SIZE - 2 * mdlen
      && st == Streamed(f, rate, message) && pt == |Rest(rate, message)|
    }

    /** sha3_init. */
    constructor (f: Block -> Block, mdlen: nat)
      requires Permutation(f) && mdlen < 100
      ensures Valid() && message == [] && this.mdlen == mdlen && this.f == f
    {
      this.f, this.mdlen, this.rate := f, mdlen, SIZE - 2 * mdlen;
      st, pt, message := Zero(), 0, [];
      new;
      XorNothing(Zero());
    }

    /** sha3_update: the message grows by the data, whatever was fed before. */
    method Update(data: seq<bv8>)
      requires Valid()
      modifies this`st, this`pt, this`message
      ensures Valid() && message == old(message) + data
    {
      hide Absorb, Xor, Rest, Streamed, Feed, PutByte;
      var s, j := st, pt;
      ghost var start := message;
      ghost var m := message;
      var i := 0;
      while i < |data|
        invariant 0 <= i <= |data| && m == start + data[..i]
        invariant s == Streamed(f, rate, m) && j == |Rest(rate, m)|
      {
        FeedIsAppend(f, rate, m, data[i]);
        assert m + [data[i]] == start + data[..i + 1];
        m := m + [data[i]];
        Fed(f, rate, s, j, data[i]);
        s := PutByte(s, j, data[i]);
        j := j + 1;
        if j >= rate {
          s := f(s);
          j := 0;
        }
        i := i + 1;
      }
      assert data[..i] == data;
      st, pt, message := s, j, m;
    }

    /** sha3_final: the digest of the whole message. */
    method Final() returns (md: seq<bv8>)
      requires Valid()
      modifies this`st
      ensures md == Digest(f, mdlen, message)
    {
      hide Absorb, Xor, Rest, Streamed, PadTo, PutByte;
      PadIsBlock(f, rate, message);
      st := PutByte(st, pt, 0x06);
      st := PutByte(st, rate - 1, 0x80);
      st := f(st);
      md := st[..mdlen];
    }
  }

  /** Any two ways of splitting a message into updates end in the same state and digest. */
  method Split(f: Block -> Block, mdlen: nat, parts: seq<seq<bv8>>) returns (md: seq<bv8>)
    requires Permutation(f) && mdlen < 100
    ensures md == Digest(f, mdlen, Joined(parts))
  {
    var c := new Hasher(f, mdlen);
    var i := 0;
    while i < |parts|
      invariant 0 <= i <= |parts| && c.Valid() && c.message == Joined(parts[..i]) && c.f == f && c.mdlen == mdlen
    {
      c.Update(parts[i]);
      assert parts[..i + 1][..i] == parts[..i];
      i := i + 1;
    }
    assert parts[..i] == parts;
    md := c.Final();
  }

  function Joined(parts: seq<seq<bv8>>): seq<bv8> {
    if |parts| == 0 then [] else Joined(parts[..|parts| - 1]) + parts[|parts| - 1]
  }
}
