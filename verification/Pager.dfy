/** Secure demand paging: user pages are encrypted out to backing slots, authenticated by the Merkle
    tree, and exchanged back in on a fault. Whatever is evicted and faulted, the flat memory the user
    sees stays the same and the integrity assertion never fires while node memory is honest. */
module Pager {
  import opened Bytes
  import opened Ctr
  import opened MerkleVerify
  import opened PagedMemory
  import opened SlotAllocator
  import opened Vm

  const LOAD_START: nat := 0xffff_ffff_0000_0000

  // ---------------------------------------------------------------- slot addresses

  /** ppn(__paging_pa(va)): the page number a swapped-out entry stores for a slot. */
  function SlotPpn(base: nat, paStart: nat, va: nat): nat
    requires base <= va
  {
    (va - base + paStart) / PAGE
  }

  /** __paging_va(ppn << 12): back to the slot's address; the subtraction may wrap. */
  function SlotVa(base: nat, paStart: nat, ppn: nat): U64 {
    (ppn * PAGE + base + TWO64 - paStart % TWO64) % TWO64
  }

  /** The entry's page number leads back to the slot. */
  lemma SlotRoundTrip(base: nat, paStart: nat, va: nat)
    requires base <= va < TWO64 && base % PAGE == 0 && va % PAGE == 0 && paStart % PAGE == 0
    requires paStart < TWO64
    ensures SlotVa(base, paStart, SlotPpn(base, paStart, va)) == va
    ensures SlotPpn(base, paStart, va) * PAGE == va - base + paStart
  {
    var d := va - base + paStart;
    assert d % PAGE == 0;
    assert SlotPpn(base, paStart, va) * PAGE == d;
  }

  /** An empty entry leads outside the region. */
  lemma EmptyEntry(base: nat, paStart: nat, size: nat)
    requires 0 < paStart && paStart + size <= TWO64 && base + size <= TWO64
    ensures !(base <= SlotVa(base, paStart, 0) < base + size)
    ensures SlotVa(base, paStart, 0) == 0 <==> (base - paStart) % TWO64 == 0
  {
    if base < paStart {
      assert SlotVa(base, paStart, 0) == base + TWO64 - paStart;
    }
  }

  lemma SlotPpnSmall(base: nat, paStart: nat, va: nat)
    requires base <= va < TWO64 && paStart < TWO64
    ensures SlotPpn(base, paStart, va) < PPN_LIMIT
  {}

  // ---------------------------------------------------------------- page digests

  function Raw(page: Page): (s: seq<byte>)
    ensures |s| == 4096
  {
    seq(4096, i requires 0 <= i < 4096 => page[i] as int)
  }

  /** What pswap_hash hashes: the page, then its page-out counter. */
  function PageBytes(page: Page, ctr: U64): (s: seq<byte>)
    ensures PageInput(s)
  {
    Raw(page) + Le(ctr, 8)
  }

  function PageDigest(H: Hasher, page: Page, ctr: U64): Digest {
    H(PageBytes(page, ctr))
  }

  /** The page, then the counter with its lowest byte first. */
  lemma PageBytesAre(page: Page, ctr: U64)
    ensures var s := PageBytes(page, ctr);
      |s| == 4104 && (forall i :: 0 <= i < 4096 ==> s[i] == page[i] as int) && LeNat(s[4096..]) == ctr
  {
    Pow256Of8();
    LeRoundTrip(ctr, 8);
    assert PageBytes(page, ctr)[4096..] == Le(ctr, 8);
  }

  /** It determines both. */
  lemma PageBytesInjective(p: Page, c: U64, q: Page, d: U64)
    requires PageBytes(p, c) == PageBytes(q, d)
    ensures p == q && c == d
  {
    EncPairInjective(Raw(p), Le(c, 8), Raw(q), Le(d, 8));
    assert forall i :: 0 <= i < 4096 ==> Raw(p)[i] == p[i] as int && Raw(q)[i] == q[i] as int;
    forall i | 0 <= i < 4096
      ensures p[i] == q[i]
    {
      assert Raw(p)[i] == Raw(q)[i];
    }
    Pow256Of8();
    LeRoundTrip(c, 8);
    LeRoundTrip(d, 8);
  }

  // ---------------------------------------------------------------- picking a victim

  /** The resident user pages in page-table order. */
  function Residents(ptes: map<nat, Pte>, order: seq<nat>): seq<nat> {
    if order == [] then []
    else if order[0] in ptes && IsUser(ptes[order[0]]) && IsValid(ptes[order[0]])
    then [order[0]] + Residents(ptes, order[1..])
    else Residents(ptes, order[1..])
  }

  lemma {:induction false} ResidentsAre(ptes: map<nat, Pte>, order: seq<nat>)
    ensures forall v :: v in Residents(ptes, order) <==>
              v in order && v in ptes && IsUser(ptes[v]) && IsValid(ptes[v])
  {
    if order != [] {
      ResidentsAre(ptes, order[1..]);
      assert order == [order[0]] + order[1..];
    }
  }

  /** A draw finds a victim: the count it yields is within three traversals. */
  predicate Finds(ptes: map<nat, Pte>, order: seq<nat>, userCount: int, rnd: nat) {
    userCount > 0 && rnd % userCount < 3 * |Residents(ptes, order)|
  }

  /** One traversal of the leaves: stops at the count-th resident user page. */
  method PickOnce(ptes: map<nat, Pte>, order: seq<nat>, count0: nat) returns (v: nat, count: nat)
    requires count0 > 0 && (forall i :: 0 <= i < |order| ==> order[i] in ptes)
    ensures var u := Residents(ptes, order);
      if count0 <= |u| then v == u[count0 - 1] && count == 0
      else v == 0 && count == count0 - |u|
  {
    count := count0;
    var i := 0;
    ghost var u := Residents(ptes, order);
    while i < |order|
      invariant 0 <= i <= |order| && 0 < count
      invariant 0 <= count0 - count <= |u| && Residents(ptes, order[i..]) == u[count0 - count..]
    {
      var pte := ptes[order[i]];
      assert order[i..][1..] == order[i + 1..] && order[i..][0] == order[i];
      if pte != 0 {
        if IsUser(pte) && IsValid(pte) {
          count := count - 1;
          assert u[count0 - count - 1..][1..] == u[count0 - count..];
        }
        if count == 0 {
          return order[i], 0;
        }
      }
      i := i + 1;
    }
    v := 0;
  }

  /** __traverse_page_table_and_pick: up to three traversals with the count left over. */
  method Pick(ptes: map<nat, Pte>, order: seq<nat>, count: nat) returns (v: nat)
    requires count > 0 && 0 !in order && (forall i :: 0 <= i < |order| ==> order[i] in ptes)
    ensures var u := Residents(ptes, order);
      if count <= 3 * |u| then |u| > 0 && v == u[(count - 1) % |u|] else v == 0
    ensures v != 0 ==> v in order && IsUser(ptes[v]) && IsValid(ptes[v])
  {
    ghost var u := Residents(ptes, order);
    ResidentsAre(ptes, order);
    var next, tries := count, 0;
    v := 0;
    while next > 0 && tries < 3
      invariant 0 <= tries <= 3
      invariant next > 0 ==> v == 0 && next == count - tries * |u|
      invariant next == 0 ==> |u| > 0 && 0 < tries && (tries - 1) * |u| < count <= tries * |u|
                              && v == u[count - 1 - (tries - 1) * |u|]
    {
      v, next := PickOnce(ptes, order, next);
      tries := tries + 1;
    }
    if next == 0 {
      Arith.ModUnique(count - 1, tries - 1, count - 1 - (tries - 1) * |u|, |u|);
      assert v in u;
    }
  }

  // ---------------------------------------------------------------- authenticated slots

  /** Where slots live: the region's base address, its physical base, and the pages that counters
      and Merkle nodes occupy. */
  datatype Layout = Layout(base: nat, paStart: nat, handed: set<nat>, tables: set<nat>, nodes: set<nat>)

  ghost predicate LayoutOk(l: Layout) {
    && l.base % PAGE == 0 && l.paStart % PAGE == 0 && l.paStart < TWO64
    && (forall p :: p in l.handed ==> p % PAGE == 0 && l.base <= p < TWO64)
    && l.tables <= l.handed && l.nodes <= l.handed && l.tables !! l.nodes
  }

  /** Backing page va holds a swapped-out user page: it was handed out, and neither counters nor
      Merkle nodes live in it. */
  predicate DataSlot(l: Layout, va: nat) {
    va in l.handed && va !in l.tables && va !in l.nodes
  }

  function EntryVa(l: Layout, m: Mem, v: nat): U64
    requires v in m.ptes
  {
    SlotVa(l.base, l.paStart, PtePpn(m.ptes[v]))
  }

  /** Every swapped-out page sits in a data slot of its own, and the Merkle map binds that slot to the
      digest of what the page holds under the slot's counter. */
  ghost predicate Authentic(H: Hasher, E: Cipher, l: Layout, m: Mem, auth: map<U64, Digest>)
    requires Sound(m)
  {
    forall v :: Swapped(m, v) ==>
      var va := EntryVa(l, m, v);
      && DataSlot(l, va) && l.base <= va && PtePpn(m.ptes[v]) == SlotPpn(l.base, l.paStart, va)
      && va in auth && auth[va] == PageDigest(H, Plain(E, m, v), m.ctr[PtePpn(m.ptes[v])])
  }

  /** More backing pages may be handed out to counters and nodes, as long as they are new ones. */
  ghost predicate Grows(l: Layout, l': Layout) {
    && l'.base == l.base && l'.paStart == l.paStart
    && l.handed <= l'.handed && l.tables <= l'.tables && l.nodes <= l'.nodes
    && (forall p :: p in l'.tables && p !in l.tables ==> p !in l.handed)
    && (forall p :: p in l'.nodes && p !in l.nodes ==> p !in l.handed)
  }

  lemma EvictAuthentic(H: Hasher, E: Cipher, l: Layout, l': Layout, m: Mem, v: nat, va: U64, ctr: U64,
                       auth: map<U64, Digest>)
    requires Sound(m) && LayoutOk(l) && LayoutOk(l') && Authentic(H, E, l, m, auth)
    requires Resident(m, v) && Grows(l, l') && va !in l.handed && DataSlot(l', va)
    requires SlotPpn(l.base, l.paStart, va) < PPN_LIMIT
    ensures var slot := SlotPpn(l.base, l.paStart, va);
      var m' := Evict(E, m, v, slot, ctr);
      && Sound(m') && View(E, m') == View(E, m)
      && Authentic(H, E, l', m', auth[va := PageDigest(H, m.frames[PtePpn(m.ptes[v])], ctr)])
  {
    var slot := SlotPpn(l.base, l.paStart, va);
    SlotRoundTrip(l.base, l.paStart, va);
    forall w | Swapped(m, w)
      ensures PtePpn(m.ptes[w]) != slot
    {
      assert EntryVa(l, m, w) != va;
    }
    EvictTransparent(E, m, v, slot, ctr);
    EvictShape(E, m, v, slot, ctr);
    var m' := Evict(E, m, v, slot, ctr);
    ViewPlain(E, m, m');
  }

  /** Equal flat memories hold equal pages. */
  lemma ViewPlain(E: Cipher, m: Mem, m': Mem)
    requires Sound(m) && Sound(m') && View(E, m') == View(E, m)
    requires forall x :: Resident(m', x) || Swapped(m', x) ==> Resident(m, x) || Swapped(m, x)
    ensures forall x :: Resident(m', x) || Swapped(m', x) ==> Plain(E, m', x) == Plain(E, m, x)
  {
    forall x | Resident(m', x) || Swapped(m', x)
      ensures Plain(E, m', x) == Plain(E, m, x)
    {
      assert View(E, m')[x] == View(E, m)[x];
    }
  }

  lemma ExchangeAuthentic(H: Hasher, E: Cipher, l: Layout, l': Layout, m: Mem, v: nat, w: nat, ctr: U64,
                          auth: map<U64, Digest>)
    requires Sound(m) && LayoutOk(l) && LayoutOk(l') && Authentic(H, E, l, m, auth)
    requires Resident(m, v) && Swapped(m, w) && Grows(l, l')
    ensures var m' := Exchange(E, m, v, w, ctr);
      && Sound(m') && View(E, m') == View(E, m)
      && Authentic(H, E, l', m', auth[EntryVa(l, m, w) := PageDigest(H, m.frames[PtePpn(m.ptes[v])], ctr)])
  {
    ExchangeTransparent(E, m, v, w, ctr);
    ExchangeShape(E, m, v, w, ctr);
    var m' := Exchange(E, m, v, w, ctr);
    ViewPlain(E, m, m');
    forall x | Swapped(m, x) && x != w
      ensures EntryVa(l, m, x) != EntryVa(l, m, w)
    {
      assert PtePpn(m.ptes[x]) != PtePpn(m.ptes[w]);
    }
  }
}
