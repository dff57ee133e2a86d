/** What the pager hands to the backing store over a run: the counters it seals pages under, and the counter
    blocks their key bytes come from. */
module PageOuts {
  import opened Arith
  import opened Bytes
  import opened Ctr
  import opened PagedMemory

  /** One page sealed into a slot, named by its page number. */
  datatype PageOut = PageOut(slot: nat, ctr: U64, page: Page)

  /** The backing store after these page-outs and nothing else. */
  function Written(E: Cipher, log: seq<PageOut>): map<nat, Page> {
    if log == [] then map[]
    else var last := log[|log| - 1]; Written(E, log[..|log| - 1])[last.slot := Crypt(E, last.page, last.ctr)]
  }

  /** How many of them are to slot n. */
  function Uses(log: seq<PageOut>, n: nat): (u: nat)
    ensures u <= |log|
  {
    if log == [] then 0 else Uses(log[..|log| - 1], n) + if log[|log| - 1].slot == n then 1 else 0
  }

  /** A slot's counter is the one of any page-out to it, and one more for each that followed. */
  ghost predicate Counted(log: seq<PageOut>, ctr: map<nat, U64>) {
    forall i: nat :: i < |log| ==> CountedAt(log, ctr, i)
  }

  predicate CountedAt(log: seq<PageOut>, ctr: map<nat, U64>, i: nat)
    requires i < |log|
  {
    log[i].slot in ctr && (log[i].ctr + Uses(log[i + 1..], log[i].slot)) % TWO64 == ctr[log[i].slot]
  }

  /** The log is of this store and these counters. */
  ghost predicate Logged(E: Cipher, log: seq<PageOut>, backing: map<nat, Page>, ctr: map<nat, U64>) {
    backing == Written(E, log) && Counted(log, ctr)
  }

  lemma UsesMore(log: seq<PageOut>, out: PageOut, i: nat, n: nat)
    requires i < |log|
    ensures Uses((log + [out])[i + 1..], n) == Uses(log[i + 1..], n) + if out.slot == n then 1 else 0
  {
    assert (log + [out])[i + 1..] == log[i + 1..] + [out];
    assert (log[i + 1..] + [out])[..|log| - i - 1] == log[i + 1..];
  }

  lemma NextResidue(x: nat, n: nat)
    requires n > 0
    ensures (x + 1) % n == (x % n + 1) % n
  {
    DivMod(x, n);
    ModShift(x % n + 1, x / n, n);
  }

  lemma CountedMore(log: seq<PageOut>, ctr: map<nat, U64>, out: PageOut, i: nat)
    requires i <= |log| && (i < |log| ==> CountedAt(log, ctr, i))
    requires out.slot in ctr ==> out.ctr == (ctr[out.slot] + 1) % TWO64
    ensures CountedAt(log + [out], ctr[out.slot := out.ctr], i)
  {
    if i < |log| {
      UsesMore(log, out, i, log[i].slot);
      NextResidue(log[i].ctr + Uses(log[i + 1..], log[i].slot), TWO64);
    }
  }

  /** One page-out more, under the counter found and one. */
  lemma LoggedMore(E: Cipher, log: seq<PageOut>, backing: map<nat, Page>, ctr: map<nat, U64>, out: PageOut)
    requires Logged(E, log, backing, ctr) && (out.slot in ctr ==> out.ctr == (ctr[out.slot] + 1) % TWO64)
    ensures Logged(E, log + [out], backing[out.slot := Crypt(E, out.page, out.ctr)], ctr[out.slot := out.ctr])
  {
    hide CountedAt;
    var log', ctr' := log + [out], ctr[out.slot := out.ctr];
    assert log'[..|log|] == log;
    forall i: nat | i < |log'|
      ensures CountedAt(log', ctr', i)
    {
      CountedMore(log, ctr, out, i);
    }
  }

  lemma {:induction false} UsesConcat(a: seq<PageOut>, b: seq<PageOut>, n: nat)
    ensures Uses(a + b, n) == Uses(a, n) + Uses(b, n)
  {
    if b == [] {
      assert a + b == a;
    } else {
      var c := b[..|b| - 1];
      assert (a + b)[..|a + b| - 1] == a + c;
      UsesConcat(a, c, n);
    }
  }

  /** Between two page-outs to a slot its counter grows by the number of page-outs to it. */
  lemma CounterGrows(log: seq<PageOut>, ctr: map<nat, U64>, i: nat, j: nat)
    requires Counted(log, ctr) && i < j < |log| && log[i].slot == log[j].slot
    ensures var u := Uses(log[i + 1..j + 1], log[i].slot);
      0 < u <= j - i && log[j].ctr == (log[i].ctr + u) % TWO64
  {
    assert CountedAt(log, ctr, i) && CountedAt(log, ctr, j);
    var n, mid := log[i].slot, log[i + 1..j + 1];
    var u, w := Uses(mid, n), Uses(log[j + 1..], n);
    assert log[i + 1..] == mid + log[j + 1..];
    UsesConcat(mid, log[j + 1..], n);
    assert mid[|mid| - 1] == log[j];
    SameShift(log[i].ctr + u, log[j].ctr, w, TWO64);
  }

  lemma SameShift(x: nat, y: nat, w: nat, n: nat)
    requires n > 0 && y < n && (x + w) % n == (y + w) % n
    ensures y == x % n
  {
    DivMod(x + w, n);
    DivMod(y + w, n);
    var q := (x + w) / n - (y + w) / n;
    Distribute(n, (x + w) / n, (y + w) / n);
    ModUnique(x, q, y, n);
  }

  /** So no counter serves a slot twice within 2^64 page-outs. */
  lemma CounterOnce(log: seq<PageOut>, ctr: map<nat, U64>, i: nat, j: nat)
    requires Counted(log, ctr) && i < j < |log| && log[i].slot == log[j].slot && j - i < TWO64
    ensures log[i].ctr != log[j].ctr
  {
    CounterGrows(log, ctr, i, j);
    var u := Uses(log[i + 1..j + 1], log[i].slot);
    if log[i].ctr + u < TWO64 {
      SmallMod(log[i].ctr + u, TWO64);
    } else {
      ModUnique(log[i].ctr + u, 1, log[i].ctr + u - TWO64, TWO64);
    }
  }

  /** From number k on, no two page-outs to one slot are under one counter. */
  ghost predicate Once(log: seq<PageOut>, k: nat) {
    forall i, j :: k <= i < j < |log| && log[i].slot == log[j].slot ==> log[i].ctr != log[j].ctr
  }

  lemma AllOnce(log: seq<PageOut>, ctr: map<nat, U64>, k: nat)
    requires Counted(log, ctr) && |log| <= k + TWO64
    ensures Once(log, k)
  {
    forall i, j | k <= i < j < |log| && log[i].slot == log[j].slot
      ensures log[i].ctr != log[j].ctr
    {
      CounterOnce(log, ctr, i, j);
    }
  }

  // ---------------------------------------------------------------- counter blocks

  /** The low n bytes of a counter read the other way around: its first counter block as a number. */
  function Mirror(c: nat, n: nat): nat {
    BeNat(Le(c, n))
  }

  /** The block starts with eight zero bytes; after them the counter is in memory order. */
  lemma IvBytes(c: U64)
    ensures |Iv(c)| == 16 && (forall i :: 0 <= i < 8 ==> Iv(c)[i] == 0) && LeNat(Iv(c)[8..]) == c
    ensures BeNat(Iv(c)) == Mirror(c, 8)
  {
    Pow256Of8();
    LeRoundTrip(c, 8);
    assert Iv(c)[8..] == Le(c, 8);
    BeZeros(8, Le(c, 8));
  }

  lemma {:induction false} BeZeros(k: nat, s: seq<byte>)
    ensures BeNat(seq(k, _ => 0) + s) == BeNat(s)
  {
    var zeros: seq<byte> := seq(k, _ => 0);
    if s != [] {
      BeZeros(k, s[..|s| - 1]);
      assert (zeros + s)[..k + |s| - 1] == zeros + s[..|s| - 1];
    } else {
      assert zeros + s == zeros;
      AllZeros(k);
    }
  }

  lemma {:induction false} AllZeros(k: nat)
    ensures BeNat(seq(k, _ => 0)) == 0
  {
    if k > 0 {
      var zeros: seq<byte> := seq(k, _ => 0);
      AllZeros(k - 1);
      assert zeros[..k - 1] == seq(k - 1, _ => 0);
    }
  }

  /** The most significant byte of the counter is the least significant one of its mirror image. */
  lemma {:induction false} LeLast(c: nat, n: nat)
    ensures Le(c, n + 1) == Le(c, n) + [c / Pow256(n) % 256]
  {
    if n > 0 {
      LeLast(c / 256, n - 1);
      DivDiv(c, 256, Pow256(n - 1));
      assert Le(c, n + 1) == [c % 256] + Le(c / 256, n);
    }
  }

  lemma MirrorLast(c: nat, n: nat)
    ensures Mirror(c, n + 1) == 256 * Mirror(c, n) + c / Pow256(n) % 256
  {
    LeLast(c, n);
    assert Le(c, n + 1)[..n] == Le(c, n);
  }

  lemma {:induction false} LeResidue(c: nat, n: nat)
    ensures LeNat(Le(c, n)) == c % Pow256(n)
  {
    if n > 0 {
      var p, q := Pow256(n - 1), c / 256;
      LeResidue(q, n - 1);
      assert Le(c, n)[1..] == Le(q, n - 1);
      DivMod(c, 256);
      DivMod(q, p);
      Associate(256, p, q / p);
      ModUnique(c, q / p, c % 256 + 256 * (q % p), 256 * p);
    }
  }

  lemma MirrorInjective(c: nat, d: nat, n: nat)
    requires Mirror(c, n) == Mirror(d, n)
    ensures c % Pow256(n) == d % Pow256(n)
  {
    BeRoundTrip(Le(c, n));
    BeRoundTrip(Le(d, n));
    LeResidue(c, n);
    LeResidue(d, n);
  }

  lemma BlockNumber(c: U64, j: nat)
    requires j < 256
    ensures BeNat(CounterBlock(Iv(c), j)) == Mirror(c, 8) + j
  {
    hide Pow256, Be, BeNat, Mirror;
    IvBytes(c);
    BeBound(Le(c, 8));
    assert BeNat(Le(c, 8)) == Mirror(c, 8) by {
      MirrorIs(c, 8);
    }
    Pow256Of8();
    Pow256Add(8, 8);
    SmallMod(Mirror(c, 8) + j, Pow256(16));
    BeNatOfBe(Mirror(c, 8) + j, 16);
  }

  lemma MirrorIs(c: nat, n: nat)
    ensures Mirror(c, n) == BeNat(Le(c, n))
  {}

  /** Some counter block serves pages sealed under both counters: a page has 256 blocks. */
  ghost predicate Shared(c: U64, d: U64) {
    exists i: nat, j: nat :: i < 256 && j < 256 && CounterBlock(Iv(c), i) == CounterBlock(Iv(d), j)
  }

  /** That is so exactly if the mirror images are less than 256 apart. */
  lemma BlocksShared(c: U64, d: U64)
    ensures Shared(c, d) <==> -256 < Mirror(c, 8) - Mirror(d, 8) < 256
  {
    hide CounterBlock, Iv, Mirror;
    var m, n := Mirror(c, 8), Mirror(d, 8);
    if -256 < m - n < 256 {
      var i, j := if m < n then n - m else 0, if m < n then 0 else m - n;
      BlockNumber(c, i);
      BlockNumber(d, j);
      assert CounterBlock(Iv(c), i) == CounterBlock(Iv(d), j) by {
        BeRoundTrip(CounterBlock(Iv(c), i));
        BeRoundTrip(CounterBlock(Iv(d), j));
      }
    }
    forall i: nat, j: nat | i < 256 && j < 256 && CounterBlock(Iv(c), i) == CounterBlock(Iv(d), j)
      ensures m + i == n + j
    {
      BlockNumber(c, i);
      BlockNumber(d, j);
    }
  }

  const TWO48: nat := 0x1_0000_0000_0000
  const TWO56: nat := 0x100_0000_0000_0000

  lemma SmallPowers()
    ensures Pow256(6) == TWO48 && Pow256(7) == TWO56
  {
    assert Pow256(3) == 0x100_0000;
    assert Pow256(6) == 256 * 256 * 256 * Pow256(3);
  }

  /** The mirror image in its last two bytes. */
  lemma MirrorEnds(c: U64)
    ensures Mirror(c, 8) == 256 * Mirror(c, 7) + c / TWO56
    ensures Mirror(c, 7) % 256 == c / TWO48 % 256
  {
    hide Mirror, Pow256;
    SmallPowers();
    MirrorLast(c, 7);
    MirrorLast(c, 6);
  }

  /** Counters less than 2^48 apart share no block, as long as the counter does not wrap. */
  lemma BlocksApart(c: U64, d: U64)
    requires c < d < c + TWO48
    ensures !Shared(c, d)
  {
    hide Mirror, Pow256, Shared;
    BlocksShared(c, d);
    MirrorEnds(c);
    MirrorEnds(d);
    SmallPowers();
    var x, y := Mirror(c, 7), Mirror(d, 7);
    if x == y {
      MirrorInjective(c, d, 7);
      SameLow(c, d);
    } else if x == y + 1 {
      TopBytes(c, d);
    }
  }

  lemma SameLow(c: nat, d: nat)
    requires c < d < c + TWO48
    ensures c % TWO56 != d % TWO56
  {}

  /** Where the top bytes differ, the bytes below are 255 and 0. */
  lemma TopBytes(c: nat, d: nat)
    requires c < d < c + TWO48
    ensures c / TWO56 <= d / TWO56 <= c / TWO56 + 1
    ensures c / TWO56 < d / TWO56 ==> c / TWO48 % 256 == 255 && d / TWO48 % 256 == 0
  {}

  /** Past the wrap they can: the mirror images of 2^64 - 256 and 1 are neighbours. */
  lemma BlocksMeet()
    ensures Shared(TWO64 - 256, 1)
  {
    hide Mirror, Pow256, Shared;
    var c: U64 := TWO64 - 256;
    MirrorHigh(8);
    BlocksShared(c, 1);
  }

  /** The counters' bytes are 0, 255, 255 and so on, and 1, 0, 0. */
  lemma {:induction false} MirrorHigh(n: nat)
    requires 1 <= n <= 8
    ensures Mirror(TWO64 - 256, n) + 1 == Mirror(1, n)
  {
    if n == 1 {
      MirrorFirst(TWO64 - 256);
      MirrorFirst(1);
    } else {
      hide Mirror, Pow256;
      MirrorHigh(n - 1);
      MirrorLast(TWO64 - 256, n - 1);
      MirrorLast(1, n - 1);
      MiddleByte(n - 1);
    }
  }

  lemma MirrorFirst(c: nat)
    ensures Mirror(c, 1) == c % 256
  {
    MirrorLast(c, 0);
  }

  lemma MiddleByte(n: nat)
    requires 1 <= n <= 7
    ensures (TWO64 - 256) / Pow256(n) % 256 == 255 && 1 / Pow256(n) % 256 == 0
  {
    hide Pow256;
    LowPowers();
    SmallPowers();
  }

  lemma LowPowers()
    ensures Pow256(1) == 0x100 && Pow256(2) == 0x1_0000 && Pow256(3) == 0x100_0000
    ensures Pow256(4) == 0x1_0000_0000 && Pow256(5) == 0x100_0000_0000
  {
    assert Pow256(4) == 256 * Pow256(3) && Pow256(5) == 256 * 256 * Pow256(3);
  }

  /** Over a run: page-outs to one slot that are less than 2^48 apart use different key bytes throughout,
      unless the slot's counter wraps in between. */
  lemma KeysOnce(log: seq<PageOut>, ctr: map<nat, U64>, i: nat, j: nat)
    requires Counted(log, ctr) && i < j < |log| && log[i].slot == log[j].slot
    requires j - i < TWO48 && log[i].ctr + (j - i) < TWO64
    ensures !Shared(log[i].ctr, log[j].ctr)
  {
    CounterGrows(log, ctr, i, j);
    SmallMod(log[i].ctr + Uses(log[i + 1..j + 1], log[i].slot), TWO64);
    BlocksApart(log[i].ctr, log[j].ctr);
  }
}
