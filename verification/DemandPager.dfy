/** The paging operations on the machine's state: page_swap_epm, eviction and the page-fault handler. */
module DemandPager {
  import opened Bytes
  import opened Ctr
  import opened MerkleVerify
  import opened MerkleTree
  import opened NodePool
  import opened PageCounters
  import opened PageOuts
  import opened PagedMemory
  import opened Pager
  import opened SlotAllocator
  import opened Vm

  /** How an eviction ends: a failed assertion, no page to evict, or the freed frame. */
  datatype Eviction = Abort | NoVictim | Freed(frame: nat)

  /** How a fault ends: handled, refused as fatal, or a failed assertion. */
  datatype Fault = Handled | Fatal | FaultAbort

  /** One step of a run: memory pressure evicts a page, or the user touches an address or stores a byte there,
      which faults if the page is swapped out. */
  datatype Op =
    | EvictOne(rnd: nat, words: seq<U64>)
    | Touch(addr: U64, rnd: nat, words: seq<U64>)
    | Write(addr: U64, value: bv8, rnd: nat, words: seq<U64>)

  /** The flat memory with the stores of a run applied in order: what a machine without paging would hold. */
  function Applied(flat: map<nat, Page>, ops: seq<Op>): map<nat, Page> {
    if ops == [] then flat
    else FlatStep(Applied(flat, ops[..|ops| - 1]), ops[|ops| - 1])
  }

  function FlatStep(flat: map<nat, Page>, op: Op): map<nat, Page> {
    if op.Write? && op.addr / PAGE in flat
    then flat[op.addr / PAGE := Poke(flat[op.addr / PAGE], op.addr % PAGE, op.value)]
    else flat
  }

  /** Every counter the flat memory needs is the one stored in the counter pages. */
  ghost predicate CountersHold(l: Layout, ptrs: seq<nat>, tables: Tables, ctr: map<nat, U64>) {
    && |ptrs| == INDIRECTS
    && forall n :: n in ctr ==>
         var va := SlotVa(l.base, l.paStart, n);
         && va in l.handed && l.base <= va && n == SlotPpn(l.base, l.paStart, va)
         && Has(ptrs, tables, l.base, va) && Value(ptrs, tables, l.base, va) == ctr[n]
  }

  /** An invalid entry is a swapped-out user page or empty. */
  ghost predicate EmptyOrMapped(ptes: map<nat, Pte>) {
    forall v :: v in ptes && !IsUser(ptes[v]) && !IsValid(ptes[v]) ==> ptes[v] == 0
  }

  /** A state as it was before an operation: sound, authenticated and well laid out. */
  ghost predicate Snapshot(H: Hasher, E: Cipher, l: Layout, m: Mem, auth: map<U64, Digest>, order: seq<nat>) {
    && LayoutOk(l) && Sound(m) && Authentic(H, E, l, m, auth) && EmptyOrMapped(m.ptes)
    && 0 !in order && (forall i :: 0 <= i < |order| ==> order[i] in m.ptes)
  }

  class DemandPager {
    const E: Cipher
    const H: Hasher
    const slots: Slots
    const counters: Counters
    const merkle: Store
    const paStart: nat
    var ptes: map<nat, Pte>
    const order: seq<nat>
    var frames: map<nat, Page>
    var backing: map<nat, Page>
    var userCount: int
    ghost var ctr: map<nat, U64>
    ghost var log: seq<PageOut>

    ghost function St(): Mem
      reads this
    {
      Mem(ptes, frames, backing, ctr)
    }

    ghost function Where(): Layout
      reads slots, counters, merkle.pool
    {
      Layout(slots.base, paStart, slots.handed, counters.tables.Keys, merkle.pool.pages.Keys)
    }

    /** The components are sound and share one backing region. */
    ghost predicate Parts()
      reads this`ctr, slots, counters, merkle, merkle.pool, merkle.pool.slots
    {
      && counters.slots == slots && merkle.pool.slots == slots && merkle.H == H
      && counters.Valid() && merkle.Valid() && merkle.Map().Keys <= slots.handed
      && LayoutOk(Where())
      && 0 < paStart && paStart + slots.pages * PAGE <= TWO64
      && CountersHold(Where(), counters.ptrs, counters.tables, ctr)
    }

    ghost predicate Valid()
      reads this, slots, counters, merkle, merkle.pool, merkle.pool.slots
    {
      && Parts()
      && Snapshot(H, E, Where(), St(), merkle.Map(), order)
      && Logged(E, log, backing, ctr)
    }

    /** init_paging: every user page is resident and the backing store is untouched. */
    constructor (E: Cipher, H: Hasher, slots: Slots, counters: Counters, merkle: Store, paStart: nat,
                 ptes: map<nat, Pte>, order: seq<nat>, frames: map<nat, Page>, userCount: int)
      requires slots.Valid() && slots.handed == {} && counters.slots == slots && merkle.pool.slots == slots
      requires counters.Valid() && counters.tables == map[] && merkle.Valid() && merkle.H == H
      requires merkle.pool.pages == map[] && merkle.Map() == map[]
      requires paStart % PAGE == 0 && 0 < paStart && paStart + slots.pages * PAGE <= TWO64
      requires forall v :: v in ptes && !IsUser(ptes[v]) && !IsValid(ptes[v]) ==> ptes[v] == 0
      requires 0 !in order && (forall i :: 0 <= i < |order| ==> order[i] in ptes)
      requires forall v :: v in ptes && IsUser(ptes[v]) ==> IsValid(ptes[v]) && PtePpn(ptes[v]) in frames
      requires forall v, w :: v in ptes && w in ptes && v != w && IsUser(ptes[v]) && IsUser(ptes[w]) ==>
                 PtePpn(ptes[v]) != PtePpn(ptes[w])
      ensures Valid() && log == []
      ensures forall v :: v in ptes && IsUser(ptes[v]) ==>
                v in View(E, St()) && View(E, St())[v] == frames[PtePpn(ptes[v])]
    {
      this.E, this.H, this.slots, this.counters, this.merkle := E, H, slots, counters, merkle;
      this.paStart, this.ptes, this.order, this.frames, this.userCount := paStart, ptes, order, frames, userCount;
      backing, ctr, log := map[], map[], [];
    }

    /** How many new backing pages binding a slot takes: one if its counter has no page yet, and one if
        there are too few free Merkle nodes. */
    ghost function CounterPages(back: U64): nat
      reads slots, counters
      requires |counters.ptrs| == INDIRECTS && slots.base <= back
    {
      if Has(counters.ptrs, counters.tables, slots.base, back) then 0 else 1
    }

    ghost function NodePages(back: U64): nat
      reads merkle, merkle.pool
    {
      if |Free(merkle.pool.pages)| >= merkle.Nodes(back) then 0 else 1
    }

    ghost function Pages(back: U64): nat
      reads slots, counters, merkle, merkle.pool
      requires |counters.ptrs| == INDIRECTS && slots.base <= back
    {
      CounterPages(back) + NodePages(back)
    }

    /** The counter page_swap_epm finds for a slot: a random word if its counter page is new. */
    ghost function Found(back: U64, rnd: seq<U64>): U64
      reads slots, counters
      requires |counters.ptrs| == INDIRECTS && slots.base <= back && |rnd| == PER_PAGE
    {
      if Has(counters.ptrs, counters.tables, slots.base, back)
      then Value(counters.ptrs, counters.tables, slots.base, back)
      else rnd[PageIndex(slots.base, back) % PER_PAGE]
    }

    /** Find the slot's counter; this may hand out a page for counters. */
    method NextCounter(back: U64, rnd: seq<U64>) returns (table: nat, word: nat, c0: U64)
      requires Parts() && |rnd| == PER_PAGE && DataSlot(Where(), back) && slots.base <= back
      requires slots.Remaining() >= CounterPages(back)
      modifies slots, counters
      ensures Parts() && merkle.Map() == old(merkle.Map()) && Grows(old(Where()), Where())
      ensures slots.Remaining() == old(slots.Remaining()) - old(CounterPages(back))
      ensures Has(counters.ptrs, counters.tables, slots.base, back)
      ensures var i := PageIndex(slots.base, back); table == counters.ptrs[i / PER_PAGE] && word == i % PER_PAGE
      ensures c0 == old(Found(back, rnd))
      ensures var n := SlotPpn(slots.base, paStart, back); n in ctr ==> c0 == ctr[n]
    {
      slots.HandedInRegion();
      table, word := counters.Locate(back, rnd);
      merkle.StillValid();
      slots.HandedInRegion();
      c0 := counters.tables[table][word];
      CounterRead(Where(), counters.ptrs, counters.tables, ctr, back);
    }

    /** Bind the slot to its new digest; this may hand out a page for nodes. */
    method Bind(back: U64, hash: Digest)
      requires Parts() && merkle.Fits(back) && slots.Remaining() >= NodePages(back) && back in slots.handed
      modifies slots, merkle, merkle.pool
      ensures Parts() && merkle.Map() == old(merkle.Map())[back := hash] && Grows(old(Where()), Where())
      ensures slots.Remaining() == old(slots.Remaining()) - old(NodePages(back))
      ensures back in old(merkle.Map()) ==> Rebound()
    {
      hide Store.Valid, Store.Map, Store.Fits, Store.Nodes, Slots.Valid, CountersHold, LayoutOk, Counters.Valid, Free;
      ghost var l := Where();
      PartsSound();
      var r := merkle.Insert(back, hash);
      NodesHanded();
      counters.StillValid();
      NodesGrow(l, Where());
      CountersGrow(l, Where(), counters.ptrs, counters.tables, ctr);
    }

    lemma PartsSound()
      requires Parts()
      ensures slots.Valid() && counters.Valid() && merkle.Valid() && counters.tables.Keys <= slots.handed
    {}

    lemma NodesHanded()
      requires merkle.Valid() && merkle.pool.slots == slots
      ensures slots.Valid() && merkle.pool.pages.Keys <= slots.handed
      ensures forall p :: p in slots.handed ==> p % PAGE == 0 && slots.base <= p < TWO64
    {
      slots.HandedInRegion();
    }

    /** Binding a slot anew leaves a free node, binds the same slots and changes no search path. */
    twostate predicate Rebound()
      reads merkle, merkle.pool
    {
      && |Free(merkle.pool.pages)| > 0 && merkle.Map().Keys == old(merkle.Map().Keys)
      && forall x :: merkle.Fits(x) <==> old(merkle.Fits(x))
    }

    /** Store the slot's new counter. */
    method StoreCounter(back: U64, table: nat, word: nat, c: U64)
      requires Parts() && DataSlot(Where(), back) && slots.base <= back
      requires Has(counters.ptrs, counters.tables, slots.base, back)
      requires var i := PageIndex(slots.base, back); table == counters.ptrs[i / PER_PAGE] && word == i % PER_PAGE
      modifies this`ctr, counters
      ensures Parts() && Where() == old(Where())
      ensures ctr == old(ctr)[SlotPpn(slots.base, paStart, back) := c]
    {
      ghost var l, ptrs, tables := Where(), counters.ptrs, counters.tables;
      counters.Write(back, table, word, c);
      CounterStored(l, ptrs, tables, counters.tables, ctr, back, c);
      ctr := ctr[SlotPpn(slots.base, paStart, back) := c];
    }

    /** Move the pages: encrypt the frame's page into the slot, and bring the slot's old page into the
        frame if there is one to bring, checking its digest. */
    method Transfer(back: U64, frame: nat, swap: U64, c0: U64, c1: U64, hash: Digest) returns (ok: bool)
      requires merkle.Valid() && merkle.H == H && slots.base <= back && frame in frames
      requires swap != 0 ==>
                 var n := SlotPpn(slots.base, paStart, back);
                 && n in backing && back in merkle.Map()
                 && merkle.Map()[back] == PageDigest(H, Crypt(E, backing[n], c0), c0)
      modifies this`frames, this`backing
      ensures ok
      ensures var n := SlotPpn(slots.base, paStart, back);
        && backing == old(backing)[n := Crypt(E, old(frames)[frame], c1)]
        && (swap == 0 ==> frames == old(frames))
        && (swap != 0 ==> frames == old(frames)[frame := Crypt(E, old(backing)[n], c0)])
    {
      var n := SlotPpn(slots.base, paStart, back);
      var plain := frames[frame];
      var buffer := if swap != 0 then backing[n] else plain;
      var sealed := CryptPage(E, plain, c1);
      backing := backing[n := sealed];
      ok := true;
      if swap != 0 {
        var restored := CryptPage(E, buffer, c0);
        frames := frames[frame := restored];
        ok := merkle.Verify(back, PageDigest(H, restored, c0), Node(0, hash, 0, 0));
      }
    }

    /** Bind the slot to the new digest and store its new counter. */
    method Reseal(back: U64, hash: Digest, table: nat, word: nat, c: U64)
      requires Parts() && merkle.Fits(back) && slots.Remaining() >= NodePages(back)
      requires DataSlot(Where(), back) && slots.base <= back
      requires Has(counters.ptrs, counters.tables, slots.base, back)
      requires var i := PageIndex(slots.base, back); table == counters.ptrs[i / PER_PAGE] && word == i % PER_PAGE
      modifies this`ctr, slots, counters, merkle, merkle.pool
      ensures Parts() && merkle.Map() == old(merkle.Map())[back := hash] && Grows(old(Where()), Where())
      ensures ctr == old(ctr)[SlotPpn(slots.base, paStart, back) := c]
      ensures slots.Remaining() == old(slots.Remaining()) - old(NodePages(back))
      ensures back in old(merkle.Map()) ==> Rebound()
    {
      ghost var l := Where();
      Bind(back, hash);
      GrowsSlot(l, Where(), back);
      StoreCounter(back, table, word, c);
    }

    /** The slot at va can be opened: it holds a page whose digest the tree binds. */
    ghost predicate Openable(va: U64)
      reads this`backing, this`ctr, slots, counters, merkle, merkle.pool
      requires slots.base <= va
    {
      var n := SlotPpn(slots.base, paStart, va);
      && DataSlot(Where(), va) && n in backing && n in ctr && va in merkle.Map()
      && merkle.Map()[va] == PageDigest(H, Crypt(E, backing[n], ctr[n]), ctr[n])
    }

    /** What swapping a frame's page out to slot `dest` under counter c changed. */
    twostate predicate Moved(frame: nat, swap: U64, dest: U64, c: U64)
      reads this`frames, this`backing, this`ctr, this`log, merkle
      requires slots.base <= dest
    {
      var n := SlotPpn(slots.base, paStart, dest);
      && frame in old(frames) && log == old(log) + [PageOut(n, c, old(frames)[frame])]
      && (n in old(ctr) ==> c == (old(ctr)[n] + 1) % TWO64)
      && backing == old(backing)[n := Crypt(E, old(frames)[frame], c)]
      && ctr == old(ctr)[n := c]
      && (swap == 0 ==> frames == old(frames))
      && (swap != 0 ==> n in old(backing) && n in old(ctr)
                        && frames == old(frames)[frame := Crypt(E, old(backing)[n], old(ctr)[n])])
      && merkle.Map() == old(merkle.Map())[dest := PageDigest(H, old(frames)[frame], c)]
    }

    lemma Facts()
      requires Parts()
      ensures merkle.Valid() && merkle.H == H && merkle.pool.slots == slots && counters.slots == slots
      ensures |counters.ptrs| == INDIRECTS && counters.Valid() && LayoutOk(Where())
    {}

    /** page_swap_epm once the counter is found: the page is sealed under the next one. */
    method Seal(back: U64, frame: nat, swap: U64, table: nat, word: nat, c0: U64) returns (ok: bool, ghost c: U64)
      requires Parts() && merkle.Fits(back) && slots.base <= back && slots.Remaining() >= NodePages(back)
      requires frame in frames && DataSlot(Where(), back) && Has(counters.ptrs, counters.tables, slots.base, back)
      requires var i := PageIndex(slots.base, back); table == counters.ptrs[i / PER_PAGE] && word == i % PER_PAGE
      requires var n := SlotPpn(slots.base, paStart, back); n in ctr ==> c0 == ctr[n]
      requires swap != 0 ==> swap == back && Openable(back)
      modifies this`frames, this`backing, this`ctr, this`log, slots, counters, merkle, merkle.pool
      ensures Parts() && ok && Moved(frame, swap, back, c) && c == (c0 + 1) % TWO64
      ensures Grows(old(Where()), Where()) && slots.Remaining() == old(slots.Remaining()) - old(NodePages(back))
      ensures back in old(merkle.Map()) ==> Rebound()
    {
      hide Store.Valid, Counters.Valid, Parts, Crypt, PageDigest, SlotPpn, Grows;
      Facts();
      ghost var n, plain := SlotPpn(slots.base, paStart, back), frames[frame];
      var c1 := (c0 + 1) % TWO64;
      c := c1;
      var hash := PageDigest(H, frames[frame], c1);
      ok := Transfer(back, frame, swap, c0, c1, hash);
      Reseal(back, hash, table, word, c1);
      log := log + [PageOut(n, c1, plain)];
    }

    /** page_swap_epm: the frame's page goes encrypted into the slot under the next counter; when a
        page is brought in, the slot's old contents take its place in the frame and are checked
        against the Merkle tree. The check never fails. */
    method SwapEpm(back: U64, frame: nat, swap: U64, rnd: seq<U64>) returns (ok: bool, ghost c: U64)
      requires Parts() && merkle.Fits(back) && |rnd| == PER_PAGE && slots.base <= back
      requires frame in frames && DataSlot(Where(), back) && slots.Remaining() >= Pages(back)
      requires swap != 0 ==> swap == back && Openable(back)
      modifies this`frames, this`backing, this`ctr, this`log, slots, counters, merkle, merkle.pool
      ensures Parts() && ok && Moved(frame, swap, back, c) && c == (old(Found(back, rnd)) + 1) % TWO64
      ensures Grows(old(Where()), Where()) && slots.Remaining() == old(slots.Remaining()) - old(Pages(back))
      ensures back in old(merkle.Map()) ==> Rebound()
    {
      hide Store.Valid, Counters.Valid, Parts, Crypt, PageDigest, SlotPpn, Grows, DataSlot;
      Facts();
      ghost var l0 := Where();
      var table, word, c0 := NextCounter(back, rnd);
      ghost var l1 := Where();
      GrowsSlot(l0, l1, back);
      ok, c := Seal(back, frame, swap, table, word, c0);
      GrowsTrans(l0, l1, Where());
    }

    /** paging_alloc_backing_page for a page to be evicted. */
    method NewSlot() returns (page: U64)
      requires Parts() && slots.Remaining() >= 1
      modifies slots
      ensures Parts() && merkle.Map() == old(merkle.Map()) && Grows(old(Where()), Where())
      ensures page !in old(slots.handed) && DataSlot(Where(), page) && slots.base <= page
      ensures slots.Remaining() == old(slots.Remaining()) - 1
      ensures page == slots.base + old(slots.offset)
    {
      ghost var l := Where();
      page := slots.Alloc();
      merkle.StillValid();
      counters.StillValid();
      GrowsAlloc(l, Where(), page);
      CountersGrow(l, Where(), counters.ptrs, counters.tables, ctr);
    }

    /** Swap the page in `frame` out to a new slot. */
    method SwapOutNew(frame: nat, words: seq<U64>, ghost next: U64) returns (dest: U64, ghost c: U64)
      requires Parts() && |words| == PER_PAGE && frame in frames && next == slots.base + slots.offset
      requires merkle.Fits(next) && slots.Remaining() >= 1 + Pages(next)
      modifies this`frames, this`backing, this`ctr, this`log, slots, counters, merkle, merkle.pool
      ensures Parts() && Grows(old(Where()), Where())
      ensures slots.Remaining() == old(slots.Remaining()) - 1 - old(Pages(next))
      ensures slots.base <= dest && DataSlot(Where(), dest) && dest !in old(slots.handed)
      ensures Moved(frame, 0, dest, c) && SlotPpn(slots.base, paStart, dest) < PPN_LIMIT
      ensures dest == next && c == (old(Found(next, words)) + 1) % TWO64
    {
      hide Store.Valid, Counters.Valid, Parts, Crypt, PageDigest, Grows, DataSlot;
      Facts();
      ghost var l0 := Where();
      dest := NewSlot();
      assert dest == next;
      ghost var l1 := Where();
      var ok;
      ok, c := SwapEpm(dest, frame, 0, words);
      GrowsTrans(l0, l1, Where());
      GrowsSlot(l1, Where(), dest);
      SlotPpnSmall(slots.base, paStart, dest);
    }

    /** __pick_page, after the assertion that there are user pages. */
    method Choose(rnd: nat) returns (target: nat)
      requires Sound(St()) && userCount > 0
      requires 0 !in order && (forall i :: 0 <= i < |order| ==> order[i] in ptes)
      ensures target != 0 ==> Resident(St(), target) && PtePpn(ptes[target]) in frames
      ensures target != 0 <==> Finds(ptes, order, userCount, rnd)
    {
      ResidentsAre(ptes, order);
      target := Pick(ptes, order, rnd % userCount + 1);
      assert target != 0 ==> Resident(St(), target);
    }

    lemma Chooser()
      requires Valid()
      ensures Parts() && Snapshot(H, E, Where(), St(), merkle.Map(), order) && Sound(St())
        && |counters.ptrs| == INDIRECTS && Logged(E, log, backing, ctr)
      ensures 0 !in order && (forall i :: 0 <= i < |order| ==> order[i] in ptes)
    {}

    /** The victim's entry becomes invalid and names the slot's page number. */
    method Retire(target: nat, n: nat)
      requires target in ptes && n < PPN_LIMIT
      modifies this`ptes, this`userCount
      ensures ptes == old(ptes)[target := PteCreateInvalid(n, Flags(old(ptes)[target]))]
      ensures userCount == old(userCount) - 1
    {
      ptes := ptes[target := PteCreateInvalid(n, Flags(ptes[target]))];
      userCount := userCount - 1;
    }

    /** paging_evict_and_free_one with no page to bring in: the flat memory stays as it is, and the
        freed frame is one no user page names any more. */
    method EvictAndFree(rnd: nat, words: seq<U64>, ghost next: U64) returns (r: Eviction)
      requires Valid() && |words| == PER_PAGE && next == slots.base + slots.offset
      requires Finds(ptes, order, userCount, rnd) ==> merkle.Fits(next) && slots.Remaining() >= 1 + Pages(next)
      modifies this, slots, counters, merkle, merkle.pool
      ensures Valid() && View(E, St()) == old(View(E, St()))
      ensures r.Freed? ==> slots.Remaining() == old(slots.Remaining()) - 1 - old(Pages(next))
      ensures r.Freed? <==> Finds(old(ptes), order, old(userCount), rnd)
      ensures !r.Freed? ==> unchanged(this, slots, counters, merkle, merkle.pool)
      ensures r.Abort? <==> old(userCount) <= 0
      ensures r.Freed? ==> exists v :: Resident(old(St()), v) && PtePpn(old(ptes)[v]) == r.frame
      ensures r.Freed? ==>
        var n, c := SlotPpn(slots.base, paStart, next), (old(Found(next, words)) + 1) % TWO64;
        r.frame in old(frames) && log == old(log) + [PageOut(n, c, old(frames)[r.frame])]
      ensures r.Freed? ==> forall v :: Resident(St(), v) ==> PtePpn(ptes[v]) != r.frame
    {
      hide Store.Valid, Counters.Valid, CountersHold, LayoutOk, Snapshot, Sound, Authentic, View, Valid, Parts;
      hide Logged, Crypt, PageDigest, Grows, DataSlot, Found;
      Chooser();
      if userCount <= 0 {
        return Abort;
      }
      var target := Choose(rnd);
      if target == 0 {
        return NoVictim;
      }
      ghost var m, l, auth, was := St(), Where(), merkle.Map(), log;
      ghost var c;
      var frame, dest := PtePpn(ptes[target]), 0;
      dest, c := SwapOutNew(frame, words, next);
      Retire(target, SlotPpn(slots.base, paStart, dest));
      SettleEvict(m, l, auth, target, dest, c, was);
      r := Freed(frame);
    }

    /** After a plain eviction the invariant holds again. */
    lemma SettleEvict(m: Mem, l: Layout, auth: map<U64, Digest>, v: nat, dest: U64, c: U64, was: seq<PageOut>)
      requires Parts() && Grows(l, Where()) && Snapshot(H, E, l, m, auth, order)
      requires Resident(m, v) && dest !in l.handed && slots.base <= dest && DataSlot(Where(), dest)
      requires SlotPpn(slots.base, paStart, dest) < PPN_LIMIT
      requires St() == Evict(E, m, v, SlotPpn(slots.base, paStart, dest), c)
      requires merkle.Map() == auth[dest := PageDigest(H, m.frames[PtePpn(m.ptes[v])], c)]
      requires Logged(E, was, m.backing, m.ctr)
      requires var n := SlotPpn(slots.base, paStart, dest);
        && log == was + [PageOut(n, c, m.frames[PtePpn(m.ptes[v])])] && (n in m.ctr ==> c == (m.ctr[n] + 1) % TWO64)
      ensures Valid() && View(E, St()) == View(E, m)
      ensures forall x :: Resident(St(), x) ==> PtePpn(ptes[x]) != PtePpn(m.ptes[v])
    {
      hide Store.Valid, Counters.Valid, CountersHold, LayoutOk, View, Logged;
      LoggedMore(E, was, m.backing, m.ctr, PageOut(SlotPpn(slots.base, paStart, dest), c, m.frames[PtePpn(m.ptes[v])]));
      EvictAuthentic(H, E, l, Where(), m, v, dest, c, auth);
      EvictShape(E, m, v, SlotPpn(slots.base, paStart, dest), c);
    }

    /** An empty entry leads to an address outside the store, which stops the handler unless it is 0. */
    ghost predicate Astray(addr: U64)
      reads this`ptes
    {
      && addr < 0xffff_ffff_0000_0000 && addr / PAGE in ptes && ptes[addr / PAGE] == 0
      && (slots.base - paStart) % TWO64 != 0
    }

    /** A user entry that is not valid names a slot of the store. */
    lemma SwappedLeads(w: nat)
      requires Valid() && Swapped(St(), w)
      ensures var back := SlotVa(slots.base, paStart, PtePpn(ptes[w]));
        && back == EntryVa(Where(), St(), w) && back != 0 && slots.base <= back < slots.base + slots.pages * PAGE
        && ptes[w] != 0
    {
      hide Store.Valid, CountersHold, LayoutOk, Snapshot, SlotVa;
      SlotOpenable(w);
      slots.HandedInRegion();
      assert !IsUser(0);
    }

    /** Any other leads outside it. */
    lemma EmptyLeads(w: nat)
      requires Valid() && w in ptes && !IsValid(ptes[w]) && !IsUser(ptes[w])
      ensures var back := SlotVa(slots.base, paStart, PtePpn(ptes[w]));
        && ptes[w] == 0 && !(slots.base <= back < slots.base + slots.pages * PAGE)
        && (back == 0 <==> (slots.base - paStart) % TWO64 == 0)
    {
      hide Store.Valid, CountersHold, Authentic, LayoutOk, SlotVa;
      EmptyEntry(slots.base, paStart, slots.pages * PAGE);
    }

    /** The checks of the fault handler up to the eviction: exactly the swapped-out user pages below the
        runtime's addresses go on, with the slot their entry names. */
    method Inspect(addr: U64) returns (r: Fault, back: U64)
      requires Valid()
      ensures r.Handled? <==> addr < 0xffff_ffff_0000_0000 && Swapped(St(), addr / PAGE)
      ensures r.Handled? ==> back == EntryVa(Where(), St(), addr / PAGE) && slots.base <= back && back != 0
      ensures r.FaultAbort? <==> Astray(addr)
    {
      hide Store.Valid, Counters.Valid, Valid, Parts, Snapshot, SlotVa;
      back := 0;
      if addr >= LOAD_START {
        return Fatal, back;
      }
      var w := addr / PAGE;
      if w !in ptes || IsValid(ptes[w]) {
        return Fatal, back;
      }
      back := SlotVa(slots.base, paStart, PtePpn(ptes[w]));
      if IsUser(ptes[w]) {
        SwappedLeads(w);
      } else {
        EmptyLeads(w);
      }
      if back == 0 {
        return Fatal, back;
      }
      if !(slots.base <= back < slots.base + slots.pages * PAGE) {
        return FaultAbort, back;
      }
      r := Handled;
    }

    /** A swapped-out page's slot can be opened. */
    lemma SlotOpenable(w: nat)
      requires Valid() && Swapped(St(), w)
      ensures slots.base <= EntryVa(Where(), St(), w) && Openable(EntryVa(Where(), St(), w))
      ensures CounterPages(EntryVa(Where(), St(), w)) == 0 && EntryVa(Where(), St(), w) in merkle.Map()
      ensures SlotPpn(slots.base, paStart, EntryVa(Where(), St(), w)) == PtePpn(ptes[w])
    {}

    /** A resident page and a swapped-out one can be exchanged. */
    lemma Tradable(w: nat, target: nat)
      requires Valid() && Swapped(St(), w) && Resident(St(), target)
      ensures Parts() && Snapshot(H, E, Where(), St(), merkle.Map(), order) && |counters.ptrs| == INDIRECTS
      ensures Logged(E, log, backing, ctr)
      ensures PtePpn(ptes[target]) in frames && PtePpn(ptes[w]) in backing && PtePpn(ptes[w]) in ctr && w != target
      ensures var va := EntryVa(Where(), St(), w);
        && slots.base <= va && Openable(va) && CounterPages(va) == 0 && va in merkle.Map()
        && SlotPpn(slots.base, paStart, va) == PtePpn(ptes[w])
    {
      SlotOpenable(w);
    }

    /** One page went out, to the slot page w was in and under the counter after w's. */
    twostate predicate ResealedSlot(w: nat)
      reads this
    {
      && |log| == |old(log)| + 1 && log[..|old(log)|] == old(log) && w in old(ptes)
      && var n, out := PtePpn(old(ptes)[w]), log[|old(log)|];
         out.slot == n && n in old(ctr) && out.ctr == (old(ctr)[n] + 1) % TWO64
    }

    /** Exchange a resident page with the swapped-out page w, and settle both entries. */
    method BringIn(w: nat, back: U64, target: nat, words: seq<U64>)
      requires Valid() && |words| == PER_PAGE
      requires Swapped(St(), w) && Resident(St(), target) && back == EntryVa(Where(), St(), w) && back != 0
      requires merkle.Fits(back) && slots.Remaining() >= NodePages(back)
      modifies this, slots, counters, merkle, merkle.pool
      ensures Valid() && View(E, St()) == old(View(E, St()))
      ensures slots.Remaining() == old(slots.Remaining()) - old(NodePages(back))
      ensures Rebound()
      ensures Resident(St(), w) && Swapped(St(), target)
      ensures ResealedSlot(w) && log[|old(log)|].page == old(frames)[PtePpn(old(ptes)[target])]
    {
      hide Store.Valid, Counters.Valid, CountersHold, LayoutOk, Snapshot, Sound, Authentic, View, Valid, Parts;
      ghost var m, l, auth, was := St(), Where(), merkle.Map(), log;
      Tradable(w, target);
      ghost var c := Trade(w, back, target, words);
      SettleExchange(m, l, auth, target, w, c, was);
    }

    /** The exchange itself, as it changes memory, counters, tree and entries. */
    method Trade(w: nat, back: U64, target: nat, words: seq<U64>) returns (ghost c: U64)
      requires Parts() && merkle.Fits(back) && |words| == PER_PAGE && slots.base <= back
      requires slots.Remaining() >= Pages(back) && back in merkle.Map()
      requires target in ptes && w in ptes && w != target && PtePpn(ptes[target]) in frames
      requires DataSlot(Where(), back) && back != 0 && Openable(back)
      requires SlotPpn(slots.base, paStart, back) == PtePpn(ptes[w])
      modifies this, slots, counters, merkle, merkle.pool
      ensures Parts() && Grows(old(Where()), Where()) && slots.Remaining() == old(slots.Remaining()) - old(Pages(back))
      ensures Rebound()
      ensures Moved(PtePpn(old(ptes)[target]), back, back, c)
      ensures ptes == old(ptes)[target := PteCreateInvalid(PtePpn(old(ptes)[w]), Flags(old(ptes)[target]))]
                               [w := PteCreate(PtePpn(old(ptes)[target]), Flags(old(ptes)[w]))]
    {
      hide Store.Valid, Counters.Valid, CountersHold, LayoutOk;
      var frame, n := PtePpn(ptes[target]), SlotPpn(slots.base, paStart, back);
      var ok;
      ok, c := SwapEpm(back, frame, back, words);
      SwapEntries(target, n, w, frame);
    }

    /** Both entries of an exchange: the victim's becomes invalid and names the slot, the faulting one
        becomes valid and names the frame. */
    method SwapEntries(target: nat, n: nat, w: nat, frame: nat)
      requires Parts() && target in ptes && w in ptes && w != target && n < PPN_LIMIT && frame < PPN_LIMIT
      modifies this`ptes, this`userCount
      ensures Parts() && Where() == old(Where()) && merkle.Map() == old(merkle.Map())
      ensures ptes == old(ptes)[target := PteCreateInvalid(n, Flags(old(ptes)[target]))]
                               [w := PteCreate(frame, Flags(old(ptes)[w]))]
      ensures userCount == old(userCount)
    {
      ptes := ptes[target := PteCreateInvalid(n, Flags(ptes[target]))];
      userCount := userCount - 1;
      ptes := ptes[w := PteCreate(frame, Flags(ptes[w]))];
      userCount := userCount + 1;
    }

    /** After an exchange the invariant holds again. */
    lemma SettleExchange(m: Mem, l: Layout, auth: map<U64, Digest>, v: nat, w: nat, c: U64, was: seq<PageOut>)
      requires Parts() && Grows(l, Where()) && Snapshot(H, E, l, m, auth, order)
      requires Resident(m, v) && Swapped(m, w)
      requires ptes == m.ptes[v := PteCreateInvalid(PtePpn(m.ptes[w]), Flags(m.ptes[v]))]
                             [w := PteCreate(PtePpn(m.ptes[v]), Flags(m.ptes[w]))]
      requires var n, f := PtePpn(m.ptes[w]), PtePpn(m.ptes[v]);
        && frames == m.frames[f := Crypt(E, m.backing[n], m.ctr[n])]
        && backing == m.backing[n := Crypt(E, m.frames[f], c)]
        && ctr == m.ctr[n := c]
      requires merkle.Map() == auth[EntryVa(l, m, w) := PageDigest(H, m.frames[PtePpn(m.ptes[v])], c)]
      requires Logged(E, was, m.backing, m.ctr)
      requires var n := PtePpn(m.ptes[w]);
        log == was + [PageOut(n, c, m.frames[PtePpn(m.ptes[v])])] && (n in m.ctr ==> c == (m.ctr[n] + 1) % TWO64)
      ensures Valid() && View(E, St()) == View(E, m)
      ensures Resident(St(), w) && Swapped(St(), v)
    {
      hide Store.Valid, Counters.Valid, CountersHold, LayoutOk, View, Logged;
      LoggedMore(E, was, m.backing, m.ctr, PageOut(PtePpn(m.ptes[w]), c, m.frames[PtePpn(m.ptes[v])]));
      ExchangeAuthentic(H, E, l, Where(), m, v, w, c, auth);
      ExchangeShape(E, m, v, w, c);
    }

    /** The operation moves a page: a victim is found and, on a fault, the page touched is swapped out. */
    ghost predicate Acts(op: Op)
      reads this
    {
      Finds(ptes, order, userCount, op.rnd) && (!op.EvictOne? ==> op.addr < LOAD_START && Swapped(St(), op.addr / PAGE))
    }

    /** The slot a page's entry names. */
    ghost function SlotOf(v: nat): U64
      reads this, slots, counters, merkle.pool
    {
      if v in ptes then EntryVa(Where(), St(), v) else 0
    }

    /** The slot it binds: the next one to be handed out, or the one the faulting page is in. */
    ghost function Target(op: Op): U64
      reads this, slots, counters, merkle.pool
      requires Acts(op) && slots.base + slots.offset < TWO64
    {
      match op
      case EvictOne(_, _) => slots.base + slots.offset
      case Touch(addr, _, _) => SlotOf(addr / PAGE)
      case Write(addr, _, _, _) => SlotOf(addr / PAGE)
    }

    /** paging_handle_page_fault: a swapped-out page is exchanged with a resident one; anything else is
        refused and changes nothing. The flat memory stays as it is in every case. */
    method HandleFault(addr: U64, rnd: nat, words: seq<U64>) returns (r: Fault)
      requires Valid() && |words| == PER_PAGE
      requires Acts(Touch(addr, rnd, words)) ==>
                 merkle.Fits(SlotOf(addr / PAGE)) && slots.Remaining() >= NodePages(SlotOf(addr / PAGE))
      modifies this, slots, counters, merkle, merkle.pool
      ensures Valid() && View(E, St()) == old(View(E, St()))
      ensures r.Handled? <==> old(Acts(Touch(addr, rnd, words)))
      ensures r.FaultAbort? <==>
        old(Astray(addr) || (addr < 0xffff_ffff_0000_0000 && Swapped(St(), addr / PAGE) && userCount <= 0))
      ensures r.Handled? ==> slots.Remaining() == old(slots.Remaining()) - old(NodePages(SlotOf(addr / PAGE)))
      ensures r.Handled? ==> Resident(St(), addr / PAGE) && Rebound() && ResealedSlot(addr / PAGE)
      ensures !r.Handled? ==> unchanged(this, slots, counters, merkle, merkle.pool)
    {
      hide Store.Valid, Counters.Valid, CountersHold, LayoutOk, Snapshot, Sound, Authentic, View, Valid, Parts;
      var back;
      Chooser();
      r, back := Inspect(addr);
      if !r.Handled? {
        return;
      }
      if userCount <= 0 {
        return FaultAbort;
      }
      var target := Choose(rnd);
      if target == 0 {
        return Fatal;
      }
      BringIn(addr / PAGE, back, target, words);
    }

    /** The Merkle path an operation would extend is within bounds. */
    ghost predicate Allowed(op: Op)
      reads this, slots, counters, merkle, merkle.pool
      requires slots.base + slots.offset < TWO64
    {
      Acts(op) ==> merkle.Fits(Target(op))
    }

    /** The backing pages an operation takes are there. */
    ghost predicate Room(op: Op)
      reads this, slots, counters, merkle, merkle.pool
      requires |counters.ptrs| == INDIRECTS && slots.base + slots.offset < TWO64
    {
      Acts(op) && slots.base <= Target(op) ==>
        slots.Remaining() >= Pages(Target(op)) + if op.EvictOne? then 1 else 0
    }

    method Check(op: Op) returns (ok: bool)
      requires Valid()
      ensures slots.base + slots.offset < TWO64
      ensures ok <==> Allowed(op) && Room(op)
    {
      hide Store.Valid, Counters.Valid, CountersHold, LayoutOk, Snapshot, Sound, Authentic, View, Valid, Parts;
      InRegion();
      var acts := Finds(ptes, order, userCount, op.rnd);
      if !op.EvictOne? {
        var w := op.addr / PAGE;
        acts := acts && op.addr < LOAD_START && w in ptes && IsUser(ptes[w]) && !IsValid(ptes[w]);
      }
      ok := true;
      if acts {
        var key := slots.base + slots.offset;
        if !op.EvictOne? {
          key := SlotVa(slots.base, paStart, PtePpn(ptes[op.addr / PAGE]));
          SlotOpenable(op.addr / PAGE);
        } else {
          NextUnbound();
        }
        var pages := CountPages(key, !op.EvictOne?);
        var fits := merkle.Measure(key);
        ok := fits && slots.Remaining() >= pages + if op.EvictOne? then 1 else 0;
      }
    }

    method CountPages(key: U64, stored: bool) returns (n: nat)
      requires Valid() && slots.base <= key && (stored <==> key in merkle.Map())
      ensures n == Pages(key)
    {
      var nodes := merkle.NodesFor(key, stored);
      n := if Has(counters.ptrs, counters.tables, slots.base, key) then 0 else 1;
      if |Free(merkle.pool.pages)| < nodes {
        n := n + 1;
      }
    }

    lemma InRegion()
      requires Valid()
      ensures |counters.ptrs| == INDIRECTS && slots.base + slots.offset < TWO64 && merkle.Valid()
    {
      assert slots.offset < slots.pages * PAGE;
    }

    /** The slot an eviction would take next is not bound yet. */
    lemma NextUnbound()
      requires Valid()
      ensures slots.base + slots.offset !in merkle.Map()
    {
      WalkFresh(slots.base, slots.stride, slots.pages, slots.calls);
    }

    /** The store that faults cannot be satisfied: no user page, or no victim for it. */
    ghost predicate Killed(op: Op)
      reads this
    {
      op.Write? && !Resident(St(), op.addr / PAGE) && !Acts(op)
    }

    /** A store to a resident page. */
    method StoreByte(addr: U64, value: bv8)
      requires Valid() && Resident(St(), addr / PAGE)
      modifies this`frames
      ensures Valid() && addr / PAGE in old(View(E, St()))
      ensures var v := addr / PAGE;
        View(E, St()) == old(View(E, St()))[v := Poke(old(View(E, St()))[v], addr % PAGE, value)]
    {
      hide Store.Valid, Counters.Valid, CountersHold, LayoutOk, View;
      var v := addr / PAGE;
      ghost var m := St();
      StoreView(E, m, v, addr % PAGE, value);
      var n := PtePpn(ptes[v]);
      frames := frames[n := Poke(frames[n], addr % PAGE, value)];
      assert St() == StoreTo(m, v, addr % PAGE, value);
    }

    /** One operation; false if the user cannot go on. */
    method Perform(op: Op) returns (alive: bool)
      requires Valid() && |op.words| == PER_PAGE
      requires slots.base + slots.offset < TWO64 && Allowed(op) && Room(op)
      modifies this, slots, counters, merkle, merkle.pool
      ensures Valid() && View(E, St()) == if alive then FlatStep(old(View(E, St())), op) else old(View(E, St()))
      ensures alive <==> !old(Killed(op))
      ensures !alive ==> unchanged(this, slots, counters, merkle, merkle.pool)
      ensures !op.EvictOne? && old(Steady()) ==> Steady()
      ensures old(log) <= log && |log| <= |old(log)| + 1
    {
      hide Store.Valid, Counters.Valid, CountersHold, LayoutOk, Snapshot, Sound, Authentic, View, Valid, Parts;
      InRegion();
      alive := true;
      match op
      case EvictOne(rnd, words) =>
        var r := EvictAndFree(rnd, words, slots.base + slots.offset);
      case Touch(addr, rnd, words) =>
        if addr / PAGE in ptes && IsUser(ptes[addr / PAGE]) && !IsValid(ptes[addr / PAGE]) {
          SlotOpenable(addr / PAGE);
        }
        var r := HandleFault(addr, rnd, words);
      case Write(addr, value, rnd, words) =>
        alive := UserWrite(addr, value, rnd, words);
    }

    /** A store by the user: a swapped-out page is brought in first, and the store is tried again. */
    method UserWrite(addr: U64, value: bv8, rnd: nat, words: seq<U64>) returns (alive: bool)
      requires Valid() && |words| == PER_PAGE && slots.base + slots.offset < TWO64
      requires var op := Write(addr, value, rnd, words); Allowed(op) && Room(op)
      modifies this, slots, counters, merkle, merkle.pool
      ensures var op := Write(addr, value, rnd, words);
        && Valid() && View(E, St()) == (if alive then FlatStep(old(View(E, St())), op) else old(View(E, St())))
        && (alive <==> !old(Killed(op)))
      ensures !alive ==> unchanged(this, slots, counters, merkle, merkle.pool)
      ensures old(Steady()) ==> Steady()
      ensures old(log) <= log && |log| <= |old(log)| + 1
    {
      hide Store.Valid, Counters.Valid, CountersHold, LayoutOk, Snapshot, Sound, Authentic, View, Valid, Parts;
      InRegion();
      var v := addr / PAGE;
      if !(v in ptes && IsUser(ptes[v]) && IsValid(ptes[v])) {
        if v in ptes && IsUser(ptes[v]) {
          SlotOpenable(v);
        }
        var r := HandleFault(addr, rnd, words);
        if !r.Handled? {
          return false;
        }
      }
      StoreByte(addr, value);
      alive := true;
    }

    /** Faults can go on for ever: a Merkle node or a page for nodes is free, and every bound slot's path
        is short enough. */
    ghost predicate Steady()
      reads slots, merkle, merkle.pool
    {
      (|Free(merkle.pool.pages)| > 0 || slots.Remaining() > 0) && forall k :: k in merkle.Map() ==> merkle.Fits(k)
    }

    lemma SteadyFault(op: Op)
      requires Valid() && Steady() && !op.EvictOne? && slots.base + slots.offset < TWO64
      ensures Allowed(op) && Room(op)
    {
      if Acts(op) {
        SlotOpenable(op.addr / PAGE);
      }
    }

    /** The page-outs from number k on are under different counters if there are at most 2^64. */
    lemma EachOnce(k: nat, d: nat)
      requires Valid() && k <= |log| <= k + d
      ensures d <= TWO64 ==> Once(log, k)
    {
      if d <= TWO64 {
        AllOnce(log, ctr, k);
      }
    }

    /** Paging refines a flat memory: after any sequence of evictions, faults and stores every user page holds
        what it held before with exactly the stores of the run applied. The run ends early only at an
        operation that finds too few backing pages or whose Merkle path is too long, or at a store that
        cannot be satisfied; faults and stores alone end for the last reason only, however many there are.
        In 2^64 operations no counter seals two pages of one slot. */
    method RunAll(ops: seq<Op>) returns (done: nat)
      requires Valid() && forall i :: 0 <= i < |ops| ==> |ops[i].words| == PER_PAGE
      modifies this, slots, counters, merkle, merkle.pool
      ensures done <= |ops| && Valid() && View(E, St()) == Applied(old(View(E, St())), ops[..done])
      ensures done < |ops| ==>
        slots.base + slots.offset < TWO64 && (!(Allowed(ops[done]) && Room(ops[done])) || Killed(ops[done]))
      ensures old(Steady()) && (forall i :: 0 <= i < |ops| ==> !ops[i].EvictOne?) ==> done == |ops| || Killed(ops[done])
      ensures old(log) <= log && |log| <= |old(log)| + done
      ensures done <= TWO64 ==> Once(log, |old(log)|)
    {
      hide Store.Valid, Counters.Valid, Parts, Authentic, View, Logged, Once, Sound;
      hide Allowed, Room, Killed, Steady, FlatStep;
      ghost var steady := Steady() && forall i :: 0 <= i < |ops| ==> !ops[i].EvictOne?;
      done := 0;
      while done < |ops|
        invariant 0 <= done <= |ops| && Valid() && View(E, St()) == Applied(old(View(E, St())), ops[..done])
        invariant steady ==> Steady()
        invariant old(log) <= log && |log| <= |old(log)| + done
      {
        var ok := Check(ops[done]);
        if !ok {
          if steady {
            SteadyFault(ops[done]);
          }
          EachOnce(|old(log)|, done);
          return;
        }
        var alive := Perform(ops[done]);
        if !alive {
          EachOnce(|old(log)|, done);
          return;
        }
        assert ops[..done + 1][..done] == ops[..done];
        done := done + 1;
      }
      EachOnce(|old(log)|, done);
    }
  }

  /** The layout with one more page handed out as a data slot. */
  lemma GrowsAlloc(l: Layout, l': Layout, page: nat)
    requires LayoutOk(l) && l' == l.(handed := l.handed + {page}) && page !in l.handed
    requires page % PAGE == 0 && l.base <= page < TWO64
    ensures LayoutOk(l') && Grows(l, l') && DataSlot(l', page)
  {}

  /** The layout with more pages handed out, some of them for nodes. */
  lemma NodesGrow(l: Layout, l': Layout)
    requires LayoutOk(l) && l' == l.(handed := l'.handed, nodes := l'.nodes)
    requires l.handed <= l'.handed && l.nodes <= l'.nodes <= l'.handed
    requires forall p :: p in l'.handed ==> p % PAGE == 0 && l.base <= p < TWO64
    requires forall p :: p in l'.nodes && p !in l.nodes ==> p !in l.handed
    ensures LayoutOk(l') && Grows(l, l')
  {}

  lemma CountersGrow(l: Layout, l': Layout, ptrs: seq<nat>, tables: Tables, ctr: map<nat, U64>)
    requires Grows(l, l') && CountersHold(l, ptrs, tables, ctr)
    ensures CountersHold(l', ptrs, tables, ctr)
  {}

  lemma GrowsTrans(l0: Layout, l1: Layout, l2: Layout)
    requires Grows(l0, l1) && Grows(l1, l2)
    ensures Grows(l0, l2)
  {}

  lemma GrowsSlot(l: Layout, l': Layout, va: nat)
    requires Grows(l, l') && DataSlot(l, va)
    ensures DataSlot(l', va)
  {}

  /** The word found for a slot is the counter the flat memory needs. */
  lemma CounterRead(l: Layout, ptrs: seq<nat>, tables: Tables, ctr: map<nat, U64>, back: U64)
    requires LayoutOk(l) && CountersHold(l, ptrs, tables, ctr) && back in l.handed && Has(ptrs, tables, l.base, back)
    ensures var n := SlotPpn(l.base, l.paStart, back); n in ctr ==> Value(ptrs, tables, l.base, back) == ctr[n]
  {
    SlotRoundTrip(l.base, l.paStart, back);
  }

  /** Overwriting one slot's counter keeps all the others. */
  lemma CounterStored(l: Layout, ptrs: seq<nat>, tables: Tables, tables': Tables, ctr: map<nat, U64>, back: U64, c: U64)
    requires LayoutOk(l) && CountersHold(l, ptrs, tables, ctr) && back in l.handed
    requires Has(ptrs, tables', l.base, back) && Value(ptrs, tables', l.base, back) == c
    requires forall q :: l.base <= q && q % PAGE == 0 && q != back && Has(ptrs, tables, l.base, q) ==>
               Has(ptrs, tables', l.base, q) && Value(ptrs, tables', l.base, q) == Value(ptrs, tables, l.base, q)
    ensures CountersHold(l, ptrs, tables', ctr[SlotPpn(l.base, l.paStart, back) := c])
  {
    SlotRoundTrip(l.base, l.paStart, back);
  }
}
