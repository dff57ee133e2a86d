/** Keccak-f[1600] in place: each round is the four step maps of section 3.2 of FIPS 202, applied to all
    lanes at once. Lane (x, y) is word 5y + x. */
module Keccak {
  import opened Arith

  /** The lane operations: exclusive or, rotation to the left, and (not x) and y. They stay parameters, so
      what follows holds for every lane type. */
  datatype Ops<!T> = Ops(xor: (T, T) -> T, rotl: (T, nat) -> T, andNot: (T, T) -> T)

  // ---------------------------------------------------------------- the step maps

  function Column<T>(o: Ops<T>, s: seq<T>, x: nat): T
    requires |s| == 25 && x < 5
  {
    o.xor(o.xor(o.xor(o.xor(s[x], s[x + 5]), s[x + 10]), s[x + 15]), s[x + 20])
  }

  function Parity<T>(o: Ops<T>, s: seq<T>, x: nat): T
    requires |s| == 25 && x < 5
  {
    o.xor(Column(o, s, (x + 4) % 5), o.rotl(Column(o, s, (x + 1) % 5), 1))
  }

  function Theta<T>(o: Ops<T>, s: seq<T>): (r: seq<T>)
    requires |s| == 25
    ensures |r| == 25
  {
    seq(25, i requires 0 <= i < 25 => o.xor(s[i], Parity(o, s, i % 5)))
  }

  /** The walk that numbers the rotation offsets: it starts at (1, 0). */
  function Walk(t: nat): (p: (nat, nat))
    ensures p.0 < 5 && p.1 < 5
  {
    if t == 0 then (1, 0) else var (x, y) := Walk(t - 1); (y, (2 * x + 3 * y) % 5)
  }

  function Index(p: (nat, nat)): nat {
    5 * p.1 + p.0
  }

  /** The offset of lane j, found along the walk. */
  function Offset(j: nat, t: nat): (r: nat)
    requires t <= 24
    ensures r < 64
    decreases 24 - t
  {
    if t == 24 then 0
    else if Index(Walk(t)) == j then (t + 1) * (t + 2) / 2 % 64
    else Offset(j, t + 1)
  }

  /** Where pi takes lane i from. */
  function Source(i: nat): (j: nat)
    requires i < 25
    ensures j < 25
  {
    var x, y := i % 5, i / 5;
    5 * x + (x + 3 * y) % 5
  }

  function RhoPi<T>(o: Ops<T>, s: seq<T>): (r: seq<T>)
    requires |s| == 25
    ensures |r| == 25
  {
    seq(25, i requires 0 <= i < 25 => if i == 0 then s[0] else o.rotl(s[Source(i)], Offset(Source(i), 0)))
  }

  function ChiLane<T>(o: Ops<T>, s: seq<T>, row: nat, x: nat): T
    requires |s| == 25 && row <= 20 && x < 5
  {
    o.xor(s[row + x], o.andNot(s[row + (x + 1) % 5], s[row + (x + 2) % 5]))
  }

  function Chi<T>(o: Ops<T>, s: seq<T>): (r: seq<T>)
    requires |s| == 25
    ensures |r| == 25
  {
    seq(25, i requires 0 <= i < 25 => ChiLane(o, s, i - i % 5, i % 5))
  }

  function Round<T>(o: Ops<T>, s: seq<T>, rc: T): (r: seq<T>)
    requires |s| == 25
    ensures |r| == 25
  {
    var t := Chi(o, RhoPi(o, Theta(o, s)));
    t[0 := o.xor(t[0], rc)]
  }

  function Rounds<T>(o: Ops<T>, s: seq<T>, rcs: seq<T>): (r: seq<T>)
    requires |s| == 25
    ensures |r| == 25
  {
    if |rcs| == 0 then s else Round(o, Rounds(o, s, rcs[..|rcs| - 1]), rcs[|rcs| - 1])
  }

  // ---------------------------------------------------------------- the tables of the chain

  const ROTC: seq<nat> := [1, 3, 6, 10, 15, 21, 28, 36, 45, 55, 2, 14, 27, 41, 56, 8, 25, 43, 62, 18, 39, 61, 20, 44]
  const PILN: seq<nat> := [10, 7, 11, 17, 18, 3, 5, 16, 8, 21, 24, 4, 15, 23, 19, 13, 12, 2, 20, 14, 22, 9, 6, 1]

  /** The lane the chain holds when it comes to step i. */
  function Held(i: nat): nat
    requires i <= 24
  {
    if i == 0 then 1 else PILN[i - 1]
  }

  /** The step at which the chain writes lane j. */
  const STEP: seq<int> := [-1, 23, 17, 5, 11, 6, 22, 1, 8, 21, 0, 2, 16, 15, 19, 12, 7, 3, 4, 14, 18, 9, 20, 13, 10]

  /** Each entry of the table is the next lane of the walk, and pi's inverse leads back. */
  lemma TableStep(t: nat)
    requires t < 24
    ensures 1 <= PILN[t] < 25 && STEP[PILN[t]] == t
    ensures PILN[t] % 5 == Held(t) / 5 && PILN[t] / 5 == (2 * (Held(t) % 5) + 3 * (Held(t) / 5)) % 5
  {}

  lemma TableRotation(t: nat)
    requires t < 24
    ensures ROTC[t] == (t + 1) * (t + 2) / 2 % 64
  {}

  /** h is followed by g on the walk. */
  predicate Follows(h: nat, g: nat) {
    g % 5 == h / 5 && g / 5 == (2 * (h % 5) + 3 * (h / 5)) % 5
  }

  lemma HeldFollows(t: nat)
    requires t < 24
    ensures Follows(Held(t), Held(t + 1))
  {
    TableStep(t);
  }

  lemma NextLane(t: nat, h: nat, g: nat)
    requires t > 0 && Walk(t - 1) == (h % 5, h / 5) && Follows(h, g)
    ensures Walk(t) == (g % 5, g / 5)
  {}

  lemma {:induction false} Walked(t: nat)
    requires t <= 24
    ensures Walk(t) == (Held(t) % 5, Held(t) / 5) && Index(Walk(t)) == Held(t)
  {
    IndexBack(Held(t));
    if t > 0 {
      Walked(t - 1);
      HeldFollows(t - 1);
      NextLane(t, Held(t - 1), Held(t));
    }
  }

  lemma IndexBack(h: nat)
    ensures Index((h % 5, h / 5)) == h
  {
    DivMod(h, 5);
  }

  lemma Written(j: nat)
    requires 1 <= j < 25
    ensures 0 <= STEP[j] < 24 && PILN[STEP[j]] == j
  {}

  lemma SourceBack(a: nat, b: nat)
    requires a < 5 && b < 5
    ensures Source(5 * ((2 * a + 3 * b) % 5) + b) == 5 * b + a
  {
    var y := (2 * a + 3 * b) % 5;
    assert (5 * y + b) % 5 == b && (5 * y + b) / 5 == y;
    assert (b + 3 * y) % 5 == a;
  }

  lemma HeldRange(t: nat)
    requires t <= 24
    ensures 1 <= Held(t) < 25 && STEP[Held(t)] == if t == 0 then 23 else t - 1
  {
    if t > 0 {
      TableStep(t - 1);
    }
  }

  lemma {:induction false} OffsetFound(t: nat, k: nat)
    requires k <= t < 24
    ensures Offset(Held(t), k) == ROTC[t]
    decreases t - k
  {
    Walked(k);
    if k == t {
      TableRotation(t);
    } else {
      HeldRange(k);
      HeldRange(t);
      OffsetFound(t, k + 1);
    }
  }

  /** What the step maps put at the lane the chain writes in step t. */
  lemma ChainStep<T>(o: Ops<T>, s: seq<T>, t: nat)
    requires t < 24 && |s| == 25
    ensures 1 <= PILN[t] < 25 && 1 <= Held(t) < 25
    ensures RhoPi(o, s)[PILN[t]] == o.rotl(s[Held(t)], ROTC[t])
  {
    TableStep(t);
    HeldRange(t);
    TableRotation(t);
    var a, b := Held(t) % 5, Held(t) / 5;
    SourceBack(a, b);
    assert PILN[t] == 5 * ((2 * a + 3 * b) % 5) + b;
    OffsetFound(t, 0);
  }

  // ---------------------------------------------------------------- one round in place

  method Columns<T>(o: Ops<T>, st: array<T>) returns (bc: seq<T>)
    requires st.Length == 25
    ensures |bc| == 5 && forall x :: 0 <= x < 5 ==> bc[x] == Column(o, st[..], x)
  {
    bc := [];
    var i := 0;
    while i < 5
      invariant 0 <= i <= 5 && |bc| == i
      invariant forall x :: 0 <= x < i ==> bc[x] == Column(o, st[..], x)
    {
      bc := bc + [o.xor(o.xor(o.xor(o.xor(st[i], st[i + 5]), st[i + 10]), st[i + 15]), st[i + 20])];
      i := i + 1;
    }
  }

  /** One column, exclusive-ored with t. */
  method XorColumn<T>(o: Ops<T>, st: array<T>, i: nat, t: T)
    requires st.Length == 25 && i < 5
    modifies st
    ensures forall k :: 0 <= k < 25 ==> st[k] == if k % 5 == i then o.xor(old(st[k]), t) else old(st[k])
  {
    var j := 0;
    while j < 25
      invariant 0 <= j <= 25 && j % 5 == 0
      invariant forall k :: 0 <= k < 25 ==> st[k] == if k % 5 == i && k < j then o.xor(old(st[k]), t) else old(st[k])
    {
      st[j + i] := o.xor(st[j + i], t);
      j := j + 5;
    }
  }

  method ThetaInPlace<T>(o: Ops<T>, st: array<T>)
    requires st.Length == 25
    modifies st
    ensures st[..] == Theta(o, old(st[..]))
  {
    ghost var s := st[..];
    var bc := Columns(o, st);
    var i := 0;
    while i < 5
      invariant 0 <= i <= 5
      invariant forall k :: 0 <= k < 25 ==> st[k] == if k % 5 < i then o.xor(s[k], Parity(o, s, k % 5)) else s[k]
    {
      var t := o.xor(bc[(i + 4) % 5], o.rotl(bc[(i + 1) % 5], 1));
      XorColumn(o, st, i, t);
      i := i + 1;
    }
  }

  /** The in-place chain over any tables: each lane is overwritten with the one held before, and becomes
      the one held. */
  method Chain<T>(o: Ops<T>, st: array<T>, piln: seq<nat>, rotc: seq<nat>, ghost step: seq<int>, ghost g: seq<T>)
    requires st.Length == 25 && |piln| == 24 && |rotc| == 24 && |step| == 25 && |g| == 25
    requires forall i :: 0 <= i < 24 ==> 1 <= piln[i] < 25 && step[piln[i]] == i
    requires forall j :: 1 <= j < 25 ==> 0 <= step[j] < 24 && piln[step[j]] == j
    requires forall i :: 0 <= i < 24 ==> g[piln[i]] == o.rotl(st[if i == 0 then 1 else piln[i - 1]], rotc[i])
    modifies st
    ensures st[0] == old(st[0]) && forall j :: 1 <= j < 25 ==> st[j] == g[j]
  {
    ghost var s := st[..];
    var t := st[1];
    var i := 0;
    while i < 24
      invariant 0 <= i <= 24 && st[0] == s[0] && t == s[if i == 0 then 1 else piln[i - 1]]
      invariant forall j :: 1 <= j < 25 ==> st[j] == if step[j] < i then g[j] else s[j]
    {
      var j := piln[i];
      var b := st[j];
      st[j] := o.rotl(t, rotc[i]);
      t := b;
      i := i + 1;
    }
  }

  method RhoPiInPlace<T>(o: Ops<T>, st: array<T>)
    requires st.Length == 25
    modifies st
    ensures st[..] == RhoPi(o, old(st[..]))
  {
    ghost var s := st[..];
    ghost var g := RhoPi(o, s);
    forall i | 0 <= i < 24
      ensures 1 <= PILN[i] < 25 && STEP[PILN[i]] == i && g[PILN[i]] == o.rotl(s[Held(i)], ROTC[i])
    {
      ChainStep(o, s, i);
      TableStep(i);
    }
    forall j | 1 <= j < 25
      ensures 0 <= STEP[j] < 24 && PILN[STEP[j]] == j
    {
      Written(j);
    }
    Chain(o, st, PILN, ROTC, STEP, g);
  }

  lemma ChiFrom<T>(o: Ops<T>, s: seq<T>, bc: seq<T>, j: nat, i: nat)
    requires |s| == 25 && j <= 20 && i < 5 && bc == s[j..j + 5]
    ensures ChiLane(o, s, j, i) == o.xor(s[j + i], o.andNot(bc[(i + 1) % 5], bc[(i + 2) % 5]))
  {}

  function ChiRowOf<T>(o: Ops<T>, s: seq<T>, j: nat): (g: seq<T>)
    requires |s| == 25 && j <= 20
    ensures |g| == 5
  {
    seq(5, x requires 0 <= x < 5 => ChiLane(o, s, j, x))
  }

  lemma Place<T>(s: seq<T>, g: seq<T>, j: nat, i: nat)
    requires |s| == 25 && |g| == 5 && j <= 20 && i < 5
    ensures (s[..j] + g[..i] + s[j + i..])[j + i := g[i]] == s[..j] + g[..i + 1] + s[j + i + 1..]
    ensures (s[..j] + g[..i] + s[j + i..])[j + i] == s[j + i]
  {}

  /** One row of chi, from a copy. */
  method ChiRow<T>(o: Ops<T>, st: array<T>, j: nat)
    requires st.Length == 25 && j <= 20
    modifies st
    ensures st[..] == old(st[..j]) + ChiRowOf(o, old(st[..]), j) + old(st[j + 5..])
  {
    ghost var s := st[..];
    ghost var g := ChiRowOf(o, s, j);
    var bc := st[j..j + 5];
    var i := 0;
    while i < 5
      invariant 0 <= i <= 5 && st[..] == s[..j] + g[..i] + s[j + i..]
    {
      ChiFrom(o, s, bc, j, i);
      Place(s, g, j, i);
      ghost var was := st[..];
      assert st[j + i] == was[j + i];
      st[j + i] := o.xor(st[j + i], o.andNot(bc[(i + 1) % 5], bc[(i + 2) % 5]));
      assert st[..] == was[j + i := g[i]];
      i := i + 1;
    }
  }

  lemma ChiLocal<T>(o: Ops<T>, s: seq<T>, t: seq<T>, j: nat)
    requires |s| == |t| == 25 && j <= 20 && j % 5 == 0
    requires t == Chi(o, s)[..j] + s[j..]
    ensures t[..j] + ChiRowOf(o, t, j) + t[j + 5..] == Chi(o, s)[..j + 5] + s[j + 5..]
  {
    var u := t[..j] + ChiRowOf(o, t, j) + t[j + 5..];
    var v := Chi(o, s)[..j + 5] + s[j + 5..];
    forall k | 0 <= k < 25
      ensures u[k] == v[k]
    {
      if j <= k < j + 5 {
        assert k - k % 5 == j;
        assert u[k] == ChiLane(o, t, j, k - j);
        assert v[k] == ChiLane(o, s, j, k - j);
      }
    }
  }

  method ChiInPlace<T>(o: Ops<T>, st: array<T>)
    requires st.Length == 25
    modifies st
    ensures st[..] == Chi(o, old(st[..]))
  {
    ghost var s := st[..];
    var j := 0;
    while j < 25
      invariant 0 <= j <= 25 && j % 5 == 0 && st[..] == Chi(o, s)[..j] + s[j..]
    {
      ghost var t := st[..];
      ChiLocal(o, s, t, j);
      ChiRow(o, st, j);
      assert st[..] == t[..j] + ChiRowOf(o, t, j) + t[j + 5..];
      j := j + 5;
    }
  }

  method RoundInPlace<T>(o: Ops<T>, st: array<T>, rc: T)
    requires st.Length == 25
    modifies st
    ensures st[..] == Round(o, old(st[..]), rc)
  {
    ThetaInPlace(o, st);
    RhoPiInPlace(o, st);
    ChiInPlace(o, st);
    st[0] := o.xor(st[0], rc);
  }

  /** sha3_keccakf: all rounds, for any list of round constants. */
  method KeccakF<T>(o: Ops<T>, st: array<T>, rndc: seq<T>)
    requires st.Length == 25
    modifies st
    ensures st[..] == Rounds(o, old(st[..]), rndc)
  {
    ghost var s := st[..];
    var r := 0;
    while r < |rndc|
      invariant 0 <= r <= |rndc| && st[..] == Rounds(o, s, rndc[..r])
    {
      RoundInPlace(o, st, rndc[r]);
      assert rndc[..r + 1][..r] == rndc[..r];
      r := r + 1;
    }
    assert rndc[..r] == rndc;
  }
}
