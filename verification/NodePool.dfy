/** The Merkle node allocator: 64-byte nodes carved out of backing pages, each page headed by a
    bitmap of free nodes and chained into a list of pages that may have some. */
module NodePool {
  import opened Arith
  import opened SlotAllocator

  const NODE: nat := 64
  const NODES_PER_PAGE: nat := 64

  /** The page header, which occupies node 0: the set bits of the free bitmap, the cached count,
      list membership and the next page of the list (0 is null). */
  datatype PageHead = PageHead(free: set<nat>, count: nat, listed: bool, next: nat)

  type Pages = map<nat, PageHead>

  function PageOf(a: nat): (p: nat) {
    a - a % PAGE
  }

  function IndexOf(a: nat): nat {
    (a % PAGE) / NODE
  }

  lemma SplitAddress(p: nat, i: nat)
    requires p % PAGE == 0 && i < NODES_PER_PAGE
    ensures PageOf(p + i * NODE) == p && IndexOf(p + i * NODE) == i && (p + i * NODE) % NODE == 0
  {
    var q := p / PAGE;
    DivMod(p, PAGE);
    ModUnique(p + i * NODE, q, i * NODE, PAGE);
    ModUnique(i * NODE, i, 0, NODE);
    ModUnique(p + i * NODE, 64 * q + i, 0, NODE);
  }

  lemma JoinAddress(a: nat)
    requires a % NODE == 0
    ensures a == PageOf(a) + IndexOf(a) * NODE && PageOf(a) % PAGE == 0 && IndexOf(a) < NODES_PER_PAGE
  {
    var q, r := a / PAGE, a % PAGE;
    assert a == PAGE * q + r;
    assert r == NODE * (a / NODE - 64 * q);
  }

  /** The set 1, ..., n. */
  function UpTo(n: nat): (s: set<nat>)
    ensures forall i :: i in s <==> 1 <= i <= n
    ensures |s| == n
  {
    if n == 0 then {} else UpTo(n - 1) + {n}
  }

  /** Node a is handed out. */
  ghost predicate Live(pages: Pages, a: nat) {
    && a % NODE == 0 && IndexOf(a) != 0
    && PageOf(a) in pages && IndexOf(a) !in pages[PageOf(a)].free
  }

  /** Clearing one bit hands out exactly that node. */
  lemma LiveReserve(pages: Pages, p: nat, i: nat, head: PageHead)
    requires p in pages && p % PAGE == 0 && 0 < i < NODES_PER_PAGE && i in pages[p].free
    requires head.free == pages[p].free - {i}
    ensures !Live(pages, p + i * NODE)
    ensures forall x: nat :: Live(pages[p := head], x) <==> Live(pages, x) || x == p + i * NODE
  {
    SplitAddress(p, i);
    forall x: nat | x % NODE == 0
      ensures Live(pages[p := head], x) <==> Live(pages, x) || x == p + i * NODE
    {
      JoinAddress(x);
    }
  }

  /** Setting one bit takes back exactly that node. */
  lemma LiveRelease(pages: Pages, a: nat, head: PageHead)
    requires Live(pages, a)
    requires head.free == pages[PageOf(a)].free + {IndexOf(a)}
    ensures forall x: nat :: Live(pages[PageOf(a) := head], x) <==> Live(pages, x) && x != a
  {
    JoinAddress(a);
    forall x: nat | x % NODE == 0
      ensures Live(pages[PageOf(a) := head], x) <==> Live(pages, x) && x != a
    {
      JoinAddress(x);
    }
  }

  /** A new page with every node free hands out nothing. */
  lemma LiveNewPage(pages: Pages, p: nat, head: PageHead)
    requires p !in pages && head.free == UpTo(NODES_PER_PAGE - 1)
    ensures forall x: nat :: Live(pages[p := head], x) <==> Live(pages, x)
  {
    forall x: nat | x % NODE == 0
      ensures Live(pages[p := head], x) <==> Live(pages, x)
    {
      JoinAddress(x);
    }
  }

  /** Neither list links nor counts matter to what is handed out. */
  lemma LiveSame(pages: Pages, pages': Pages)
    requires SameFree(pages, pages')
    ensures forall x: nat :: Live(pages', x) <==> Live(pages, x)
  {}

  ghost predicate SameFree(pages: Pages, pages': Pages) {
    pages'.Keys == pages.Keys && forall p :: p in pages ==> pages'[p].free == pages[p].free
  }

  /** The nodes that can be handed out without a new page, as page and index. */
  function Free(pages: Pages): set<(nat, nat)> {
    set p, i | p in pages && i in pages[p].free :: (p, i)
  }

  lemma FreeHas(pages: Pages, p: nat, i: nat)
    ensures (p, i) in Free(pages) <==> p in pages && i in pages[p].free
  {}

  /** What rewriting one header does to the free nodes. */
  lemma FreeGiven(pages: Pages, p: nat, i: nat, h: PageHead)
    requires p in pages && i !in pages[p].free && h.free == pages[p].free + {i}
    ensures |Free(pages[p := h])| == |Free(pages)| + 1
  {
    hide Free;
    var pages' := pages[p := h];
    forall x: (nat, nat)
      ensures x in Free(pages') <==> x in Free(pages) + {(p, i)}
    {
      FreeHas(pages, x.0, x.1);
      FreeHas(pages', x.0, x.1);
    }
    assert Free(pages') == Free(pages) + {(p, i)};
    FreeHas(pages, p, i);
  }

  lemma FreeTaken(pages: Pages, p: nat, i: nat, h: PageHead)
    requires p in pages && i in pages[p].free && h.free == pages[p].free - {i}
    ensures |Free(pages[p := h])| == |Free(pages)| - 1
  {
    assert pages[p := h][p := pages[p]] == pages;
    FreeGiven(pages[p := h], p, i, pages[p]);
  }

  lemma FreeSame(pages: Pages, pages': Pages)
    requires SameFree(pages, pages')
    ensures Free(pages') == Free(pages)
  {}

  /** A new page brings more than enough. */
  lemma FreeNewPage(pages: Pages, p: nat, h: PageHead)
    requires p !in pages && h.free == UpTo(NODES_PER_PAGE - 1)
    ensures |Free(pages[p := h])| >= 3
  {
    var some := {(p, 1), (p, 2), (p, 3)};
    var all := Free(pages[p := h]);
    assert |some| == 3;
    assert some <= all;
    assert all == some + (all - some);
  }

  /** A free node is found on the list. */
  lemma FreeListed(pages: Pages, handed: set<nat>, head: nat, chain: seq<nat>)
    requires PagesOk(pages, handed) && ListOk(pages, head, chain)
      && (head != 0 ==> head in pages && pages[head].count > 0)
    ensures head == 0 <==> |Free(pages)| == 0
  {
    if head == 0 {
      assert forall p :: p in pages ==> |pages[p].free| == 0;
      assert Free(pages) == {};
    } else {
      assert pages[head].free != {};
      var i :| i in pages[head].free;
      assert (head, i) in Free(pages);
    }
  }

  ghost predicate HeadOk(h: PageHead) {
    && (forall i :: i in h.free ==> 0 < i < NODES_PER_PAGE) && h.count == |h.free|
    && (h.count > 0 ==> h.listed)
  }

  /** Following the links from `head` runs through `chain` and ends. */
  ghost predicate Linked(pages: Pages, head: nat, chain: seq<nat>)
    decreases chain
  {
    if chain == [] then head == 0
    else head != 0 && head == chain[0] && head in pages && Linked(pages, pages[head].next, chain[1..])
  }

  lemma {:induction false} LinkedFrame(pages: Pages, pages': Pages, head: nat, chain: seq<nat>)
    requires Linked(pages, head, chain)
    requires forall p :: p in chain && p in pages ==> p in pages' && pages'[p].next == pages[p].next
    ensures Linked(pages', head, chain)
    decreases chain
  {
    if chain != [] {
      forall p | p in chain[1..] && p in pages
        ensures p in pages' && pages'[p].next == pages[p].next
      {
        assert p in chain;
      }
      LinkedFrame(pages, pages', pages[head].next, chain[1..]);
    }
  }

  /** No page occurs twice. */
  ghost predicate Distinct(chain: seq<nat>) {
    chain == [] || (chain[0] !in chain[1..] && Distinct(chain[1..]))
  }

  /** The list runs through exactly the listed pages, each once. */
  ghost predicate ListOk(pages: Pages, head: nat, chain: seq<nat>) {
    && Linked(pages, head, chain) && Distinct(chain)
    && (forall p :: p in pages ==> (pages[p].listed <==> p in chain))
  }

  lemma ListPop(pages: Pages, head: nat, chain: seq<nat>)
    requires ListOk(pages, head, chain) && head != 0
    ensures head in pages && chain != []
    ensures ListOk(pages[head := pages[head].(listed := false)], pages[head].next, chain[1..])
  {
    var pages' := pages[head := pages[head].(listed := false)];
    assert chain == [head] + chain[1..];
    LinkedFrame(pages, pages', pages[head].next, chain[1..]);
  }

  lemma ListPush(pages: Pages, head: nat, chain: seq<nat>, p: nat, h: PageHead)
    requires ListOk(pages, head, chain) && p != 0
    requires p !in chain && h.listed && h.next == head
    ensures ListOk(pages[p := h], p, [p] + chain)
  {
    var pages' := pages[p := h];
    LinkedFrame(pages, pages', head, chain);
    assert ([p] + chain)[1..] == chain;
  }

  /** Rewriting a header without touching its links keeps the list. */
  lemma ListKeep(pages: Pages, head: nat, chain: seq<nat>, p: nat, h: PageHead)
    requires ListOk(pages, head, chain) && p in pages
    requires h.listed == pages[p].listed && h.next == pages[p].next
    ensures ListOk(pages[p := h], head, chain)
  {
    LinkedFrame(pages, pages[p := h], head, chain);
  }

  /** Every page came from the backing allocator and has a sound header. */
  ghost predicate PagesOk(pages: Pages, handed: set<nat>) {
    forall p :: p in pages ==> p in handed && p != 0 && p % PAGE == 0 && HeadOk(pages[p])
  }

  lemma PagesKeep(pages: Pages, handed: set<nat>, p: nat, h: PageHead)
    requires PagesOk(pages, handed) && p in pages && HeadOk(h)
    ensures PagesOk(pages[p := h], handed)
  {}

  /** The header of a page that gets a node back. */
  lemma Released(pages: Pages, handed: set<nat>, a: nat, h: PageHead)
    requires PagesOk(pages, handed) && Live(pages, a)
    requires h.free == pages[PageOf(a)].free + {IndexOf(a)} && h.count == pages[PageOf(a)].count + 1 && h.listed
    ensures PagesOk(pages[PageOf(a) := h], handed) && |Free(pages[PageOf(a) := h])| == |Free(pages)| + 1
    ensures forall x: nat :: Live(pages[PageOf(a) := h], x) <==> Live(pages, x) && x != a
  {
    JoinAddress(a);
    LiveRelease(pages, a, h);
    FreeGiven(pages, PageOf(a), IndexOf(a), h);
    PagesKeep(pages, handed, PageOf(a), h);
  }

  class Pool {
    const slots: Slots
    var pages: Pages
    var head: nat
    ghost var chain: seq<nat>     // the pages on the list, from the head on

    ghost predicate Valid()
      reads this, slots
    {
      && slots.Valid()
      && PagesOk(pages, slots.handed)
      && ListOk(pages, head, chain)
    }

    constructor (slots: Slots)
      requires slots.Valid()
      ensures Valid() && this.slots == slots && pages == map[]
    {
      this.slots := slots;
      pages, head, chain := map[], 0, [];
    }

    /** merk_alloc_node: a node that was not handed out, taken from the first listed page with a
        free node or from a new backing page. */
    method AllocNode() returns (a: nat)
      requires Valid() && (|Free(pages)| > 0 || slots.Remaining() > 0)
      modifies this, slots
      ensures Valid()
      ensures a != 0 && !Live(old(pages), a)
      ensures forall x: nat :: Live(pages, x) <==> Live(old(pages), x) || x == a
      ensures slots.Remaining() == old(slots.Remaining()) - (if old(|Free(pages)|) > 0 then 0 else 1)
      ensures if old(|Free(pages)|) > 0 then |Free(pages)| == old(|Free(pages)|) - 1 else |Free(pages)| >= 2
      ensures old(slots.handed) <= slots.handed
      ensures old(pages.Keys) <= pages.Keys && PageOf(a) in pages
      ensures slots.base <= PageOf(a) < slots.base + slots.pages * PAGE
      ensures forall p :: p in pages && p !in old(pages) ==> p !in old(slots.handed)
    {
      DropFull();
      LiveSame(old(pages), pages);
      FreeSame(old(pages), pages);
      FreeListed(pages, slots.handed, head, chain);
      if head == 0 {
        AddPage();
      }
      a := Reserve();
      slots.HandedInRegion();
    }

    /** Pages without a free node leave the front of the list. */
    method DropFull()
      requires Valid()
      modifies this
      ensures Valid()
      ensures head != 0 ==> pages[head].count > 0
      ensures SameFree(old(pages), pages)
    {
      ghost var handed := slots.handed;
      while head != 0 && pages[head].count == 0
        invariant PagesOk(pages, handed) && ListOk(pages, head, chain)
        invariant SameFree(old(pages), pages)
        decreases |chain|
      {
        ListPop(pages, head, chain);
        var first := pages[head];
        PagesKeep(pages, handed, head, first.(listed := false));
        pages := pages[head := first.(listed := false)];
        head := first.next;
        chain := chain[1..];
      }
    }

    /** merk_alloc_page and its linking as the only page of the list. */
    method AddPage()
      requires Valid() && head == 0 && slots.Remaining() >= 1
      modifies this, slots
      ensures Valid()
      ensures head != 0 && pages[head].count > 0 && |Free(pages)| >= 3
      ensures forall x: nat :: Live(pages, x) <==> Live(old(pages), x)
      ensures slots.Remaining() == old(slots.Remaining()) - 1
      ensures old(slots.handed) <= slots.handed
      ensures head !in old(slots.handed) && pages.Keys == old(pages.Keys) + {head}
    {
      var page := slots.Alloc();
      var h := PageHead(UpTo(NODES_PER_PAGE - 1), NODES_PER_PAGE - 1, true, 0);
      LiveNewPage(pages, page, h);
      FreeNewPage(pages, page, h);
      ListPush(pages, head, chain, page, h);
      pages := pages[page := h];
      head := page;
      chain := [page] + chain;
    }

    /** merk_reserve_node_in_page on the first page: the lowest set bit is cleared. */
    method Reserve() returns (a: nat)
      requires Valid() && head != 0 && pages[head].count > 0
      modifies this
      ensures Valid() && pages.Keys == old(pages.Keys)
      ensures a != 0 && !Live(old(pages), a) && PageOf(a) == old(head) && |Free(pages)| == old(|Free(pages)|) - 1
      ensures forall x: nat :: Live(pages, x) <==> Live(old(pages), x) || x == a
    {
      var h := pages[head];
      var idx := LowestBit(h.free);
      a := head + idx * NODE;
      SplitAddress(head, idx);
      var h' := h.(free := h.free - {idx}, count := h.count - 1);
      LiveReserve(pages, head, idx, h');
      FreeTaken(pages, head, idx, h');
      ListKeep(pages, head, chain, head, h');
      pages := pages[head := h'];
    }

    /** merk_free_node: the node's bit is set again and its page is back on the list. */
    method FreeNode(a: nat)
      requires Valid() && Live(pages, a)
      modifies this
      ensures Valid() && pages.Keys == old(pages.Keys) && |Free(pages)| == old(|Free(pages)|) + 1
      ensures forall x: nat :: Live(pages, x) <==> Live(old(pages), x) && x != a
    {
      var page, idx := a - a % PAGE, (a % PAGE) / NODE;
      JoinAddress(a);
      var h := pages[page];
      h := h.(free := h.free + {idx}, count := h.count + 1);
      if !h.listed {
        h := h.(next := head, listed := true);
        ListPush(pages, head, chain, page, h);
        chain := [page] + chain;
        head := page;
      } else {
        ListKeep(pages, head, chain, page, h);
      }
      Released(pages, slots.handed, a, h);
      pages := pages[page := h];
    }
  }

  /** __builtin_ctzll on the bitmap. */
  method LowestBit(bits: set<nat>) returns (i: nat)
    requires |bits| > 0
    ensures i in bits && forall j :: j in bits ==> i <= j
  {
    i := 0;
    ghost var some :| some in bits;
    while i !in bits
      invariant forall j :: j in bits ==> i <= j
      decreases some - i
    {
      i := i + 1;
    }
  }
}
