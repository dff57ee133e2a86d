/** The state demand paging works on, the flat memory it stands for, and the two moves that change
    the state without changing the flat memory. */
module PagedMemory {
  import opened Bytes
  import opened Ctr
  import opened Vm

  type Page = s: seq<bv8> | |s| == 4096 witness seq(4096, _ => 0)

  /** The initial counter block of a page-out counter: eight zero bytes, then the counter. */
  function Iv(ctr: U64): (iv: seq<byte>)
    ensures |iv| == BLOCK
  {
    seq(8, _ => 0) + Le(ctr, 8)
  }

  function Crypt(E: Cipher, page: Page, ctr: U64): Page {
    CtrXor(E, Iv(ctr), page)
  }

  lemma CryptInverse(E: Cipher, page: Page, ctr: U64)
    ensures Crypt(E, Crypt(E, page, ctr), ctr) == page
  {
    CtrInverse(E, Iv(ctr), page);
  }

  /** pswap_encrypt and pswap_decrypt: counter mode through byte buffers. */
  method CryptPage(E: Cipher, page: Page, c: U64) returns (r: Page)
    ensures r == Crypt(E, page, c)
  {
    var input := new bv8[4096](i requires 0 <= i < 4096 => page[i]);
    var out := new bv8[4096](i requires 0 <= i < 4096 => page[i]);
    EncryptCtr(E, input, 4096, out, Iv(c));
    assert input[..4096] == page;
    r := out[..4096];
  }

  /** Leaf entries by virtual page, frame contents by physical page, slot contents and page-out
      counters by the page number a swapped-out entry names. */
  datatype Mem = Mem(ptes: map<nat, Pte>, frames: map<nat, Page>, backing: map<nat, Page>, ctr: map<nat, U64>)

  predicate Resident(m: Mem, v: nat) {
    v in m.ptes && IsUser(m.ptes[v]) && IsValid(m.ptes[v])
  }

  predicate Swapped(m: Mem, v: nat) {
    v in m.ptes && IsUser(m.ptes[v]) && !IsValid(m.ptes[v])
  }

  /** Every user page has its contents somewhere, and no frame or slot is named twice. */
  ghost predicate Sound(m: Mem) {
    && (forall v :: Resident(m, v) ==> PtePpn(m.ptes[v]) in m.frames)
    && (forall v :: Swapped(m, v) ==> PtePpn(m.ptes[v]) in m.backing && PtePpn(m.ptes[v]) in m.ctr)
    && (forall v, w :: Resident(m, v) && Resident(m, w) && v != w ==> PtePpn(m.ptes[v]) != PtePpn(m.ptes[w]))
    && (forall v, w :: Swapped(m, v) && Swapped(m, w) && v != w ==> PtePpn(m.ptes[v]) != PtePpn(m.ptes[w]))
  }

  /** What a user page holds: its frame, or its slot decrypted under the slot's counter. */
  function Plain(E: Cipher, m: Mem, v: nat): Page
    requires Resident(m, v) ==> PtePpn(m.ptes[v]) in m.frames
    requires Swapped(m, v) ==> PtePpn(m.ptes[v]) in m.backing && PtePpn(m.ptes[v]) in m.ctr
    requires Resident(m, v) || Swapped(m, v)
  {
    var n := PtePpn(m.ptes[v]);
    if IsValid(m.ptes[v]) then m.frames[n] else Crypt(E, m.backing[n], m.ctr[n])
  }

  /** The flat memory: one page of contents per user virtual page. */
  ghost function View(E: Cipher, m: Mem): map<nat, Page>
    requires Sound(m)
  {
    map v | v in m.ptes && IsUser(m.ptes[v]) :: Plain(E, m, v)
  }

  /** page_swap_epm with no page to bring in, and the entry update after it. */
  function Evict(E: Cipher, m: Mem, v: nat, slot: nat, ctr: U64): Mem
    requires Resident(m, v) && PtePpn(m.ptes[v]) in m.frames && slot < PPN_LIMIT
  {
    var f := PtePpn(m.ptes[v]);
    m.(ptes := m.ptes[v := PteCreateInvalid(slot, Flags(m.ptes[v]))],
       backing := m.backing[slot := Crypt(E, m.frames[f], ctr)],
       ctr := m.ctr[slot := ctr])
  }

  /** page_swap_epm exchanging a resident page with a swapped-out one in the latter's slot, and both
      entry updates. */
  function Exchange(E: Cipher, m: Mem, v: nat, w: nat, ctr: U64): Mem
    requires Resident(m, v) && PtePpn(m.ptes[v]) in m.frames
    requires Swapped(m, w) && PtePpn(m.ptes[w]) in m.backing && PtePpn(m.ptes[w]) in m.ctr
  {
    var f, slot := PtePpn(m.ptes[v]), PtePpn(m.ptes[w]);
    Mem(m.ptes[v := PteCreateInvalid(slot, Flags(m.ptes[v]))][w := PteCreate(f, Flags(m.ptes[w]))],
        m.frames[f := Crypt(E, m.backing[slot], m.ctr[slot])],
        m.backing[slot := Crypt(E, m.frames[f], ctr)],
        m.ctr[slot := ctr])
  }

  /** Which pages are where after an eviction. */
  lemma EvictShape(E: Cipher, m: Mem, v: nat, slot: nat, ctr: U64)
    requires Resident(m, v) && PtePpn(m.ptes[v]) in m.frames && slot < PPN_LIMIT
    ensures var m' := Evict(E, m, v, slot, ctr);
      && (forall x :: Resident(m', x) <==> Resident(m, x) && x != v)
      && (forall x :: Swapped(m', x) <==> Swapped(m, x) || x == v)
      && PtePpn(m'.ptes[v]) == slot
  {
    PteRoundTrip(slot, Flags(m.ptes[v]));
    PteUserKept(slot, m.ptes[v]);
  }

  /** Evicting to a fresh slot changes no user page and names nothing twice. */
  lemma EvictTransparent(E: Cipher, m: Mem, v: nat, slot: nat, ctr: U64)
    requires Sound(m) && Resident(m, v) && slot < PPN_LIMIT
    requires forall w :: Swapped(m, w) ==> PtePpn(m.ptes[w]) != slot
    ensures var m' := Evict(E, m, v, slot, ctr);
      Sound(m') && View(E, m') == View(E, m)
  {
    EvictShape(E, m, v, slot, ctr);
    CryptInverse(E, m.frames[PtePpn(m.ptes[v])], ctr);
    var m' := Evict(E, m, v, slot, ctr);
    assert Sound(m');
    SameView(E, m, m');
  }

  lemma SameView(E: Cipher, m: Mem, m': Mem)
    requires Sound(m) && Sound(m')
    requires forall x :: Resident(m, x) || Swapped(m, x) <==> Resident(m', x) || Swapped(m', x)
    requires forall x :: Resident(m, x) || Swapped(m, x) ==> Plain(E, m', x) == Plain(E, m, x)
    ensures View(E, m') == View(E, m)
  {
    forall x
      ensures x in View(E, m') <==> x in View(E, m)
    {
      assert Resident(m, x) || Swapped(m, x) <==> Resident(m', x) || Swapped(m', x);
    }
  }

  /** Which pages are where after an exchange. */
  lemma ExchangeShape(E: Cipher, m: Mem, v: nat, w: nat, ctr: U64)
    requires Sound(m) && Resident(m, v) && Swapped(m, w)
    ensures var m' := Exchange(E, m, v, w, ctr);
      && (forall x :: Resident(m', x) <==> (Resident(m, x) && x != v) || x == w)
      && (forall x :: Swapped(m', x) <==> (Swapped(m, x) && x != w) || x == v)
      && PtePpn(m'.ptes[v]) == PtePpn(m.ptes[w]) && PtePpn(m'.ptes[w]) == PtePpn(m.ptes[v])
  {
    var f, slot := PtePpn(m.ptes[v]), PtePpn(m.ptes[w]);
    PteRoundTrip(slot, Flags(m.ptes[v]));
    PteUserKept(slot, m.ptes[v]);
    PteRoundTrip(f, Flags(m.ptes[w]));
    PteUserKept(f, m.ptes[w]);
  }

  /** Exchanging a resident and a swapped-out page changes no user page and names nothing twice. */
  lemma ExchangeTransparent(E: Cipher, m: Mem, v: nat, w: nat, ctr: U64)
    requires Sound(m) && Resident(m, v) && Swapped(m, w)
    ensures var m' := Exchange(E, m, v, w, ctr);
      Sound(m') && View(E, m') == View(E, m)
  {
    ExchangeShape(E, m, v, w, ctr);
    CryptInverse(E, m.frames[PtePpn(m.ptes[v])], ctr);
    var m' := Exchange(E, m, v, w, ctr);
    assert Sound(m');
    SameView(E, m, m');
  }

  // ---------------------------------------------------------------- user stores

  /** One byte of a page replaced. */
  function Poke(page: Page, i: nat, b: bv8): Page
    requires i < 4096
  {
    page[i := b]
  }

  /** The user stores a byte to a resident page. */
  function StoreTo(m: Mem, v: nat, i: nat, b: bv8): Mem
    requires Resident(m, v) && PtePpn(m.ptes[v]) in m.frames && i < 4096
  {
    var n := PtePpn(m.ptes[v]);
    m.(frames := m.frames[n := Poke(m.frames[n], i, b)])
  }

  /** It changes that byte of the flat memory and no other. */
  lemma StoreView(E: Cipher, m: Mem, v: nat, i: nat, b: bv8)
    requires Sound(m) && Resident(m, v) && i < 4096
    ensures var m' := StoreTo(m, v, i, b);
      && Sound(m') && v in View(E, m) && View(E, m') == View(E, m)[v := Poke(View(E, m)[v], i, b)]
      && forall x :: Swapped(m', x) ==> Swapped(m, x) && Plain(E, m', x) == Plain(E, m, x)
    ensures var old_, new_ := View(E, m)[v], View(E, StoreTo(m, v, i, b))[v];
      forall j :: 0 <= j < 4096 ==> new_[j] == if j == i then b else old_[j]
  {
    var m' := StoreTo(m, v, i, b);
    assert forall x :: (Resident(m', x) <==> Resident(m, x)) && (Swapped(m', x) <==> Swapped(m, x));
    assert Sound(m');
    forall x | x in View(E, m') && x != v
      ensures View(E, m')[x] == View(E, m)[x]
    {
      assert Resident(m, x) || Swapped(m, x);
    }
  }
}
