/** Page-out counters: one 64-bit word per backing page, in counter pages that are allocated from the
    backing store on first use and found through a table of 24 pointers. */
module PageCounters {
  import opened Bytes
  import opened SlotAllocator

  const INDIRECTS: nat := 24
  const PER_PAGE: nat := 512

  type Tables = map<nat, seq<U64>>

  function PageIndex(base: nat, page: nat): nat
    requires base <= page
  {
    (page - base) / PAGE
  }

  /** The counter page of a backing page exists. */
  predicate Has(ptrs: seq<nat>, tables: Tables, base: nat, page: nat)
    requires |ptrs| == INDIRECTS && base <= page
  {
    var i := PageIndex(base, page);
    i / PER_PAGE < INDIRECTS && ptrs[i / PER_PAGE] in tables && |tables[ptrs[i / PER_PAGE]]| == PER_PAGE
  }

  function Value(ptrs: seq<nat>, tables: Tables, base: nat, page: nat): U64
    requires |ptrs| == INDIRECTS && base <= page && Has(ptrs, tables, base, page)
  {
    var i := PageIndex(base, page);
    tables[ptrs[i / PER_PAGE]][i % PER_PAGE]
  }

  ghost predicate PtrsDistinct(ptrs: seq<nat>) {
    forall i, j :: 0 <= i < j < |ptrs| && ptrs[i] != 0 ==> ptrs[i] != ptrs[j]
  }

  /** Different pages have different counters. */
  lemma IndexDistinct(base: nat, p: nat, q: nat)
    requires base % PAGE == 0 && p % PAGE == 0 && q % PAGE == 0 && base <= p && base <= q && p != q
    ensures PageIndex(base, p) / PER_PAGE != PageIndex(base, q) / PER_PAGE
         || PageIndex(base, p) % PER_PAGE != PageIndex(base, q) % PER_PAGE
  {
    var i, j := PageIndex(base, p), PageIndex(base, q);
    assert p - base == i * PAGE && q - base == j * PAGE;
    assert i != j;
    assert i == PER_PAGE * (i / PER_PAGE) + i % PER_PAGE;
    assert j == PER_PAGE * (j / PER_PAGE) + j % PER_PAGE;
  }

  class Counters {
    const slots: Slots
    var ptrs: seq<nat>
    var tables: Tables

    ghost predicate Valid()
      reads this, slots
    {
      && slots.Valid() && slots.pages <= INDIRECTS * PER_PAGE
      && |ptrs| == INDIRECTS && PtrsDistinct(ptrs) && 0 !in tables
      && (forall i :: 0 <= i < INDIRECTS && ptrs[i] != 0 ==> ptrs[i] in tables)
      && (forall t :: t in tables ==> t in slots.handed && |tables[t]| == PER_PAGE)
    }

    constructor (slots: Slots)
      requires slots.Valid() && slots.pages <= INDIRECTS * PER_PAGE
      ensures Valid() && this.slots == slots && tables == map[]
    {
      this.slots := slots;
      ptrs := seq(INDIRECTS, _ => 0);
      tables := map[];
    }

    /** Handing out further backing pages does not disturb the counters. */
    twostate lemma StillValid()
      requires old(Valid()) && unchanged(this)
      requires slots.Valid() && old(slots.handed) <= slots.handed
      ensures Valid()
    {}

    /** pswap_pageout_ctr: where the counter of a backing page is, after allocating its counter page
        if need be and filling it with random words. No existing counter changes. */
    method Locate(page: nat, rnd: seq<U64>) returns (table: nat, word: nat)
      requires Valid() && |rnd| == PER_PAGE && slots.base <= page < slots.base + slots.pages * PAGE
      requires Has(ptrs, tables, slots.base, page) || slots.Remaining() > 0
      modifies this, slots
      ensures Valid() && Has(ptrs, tables, slots.base, page) && |ptrs| == 24
      ensures var i := (page - slots.base) / 4096; table == ptrs[i / 512] && word == i % 512
      ensures forall q :: slots.base <= q && Has(old(ptrs), old(tables), slots.base, q) ==>
                Has(ptrs, tables, slots.base, q)
                && Value(ptrs, tables, slots.base, q) == Value(old(ptrs), old(tables), slots.base, q)
      ensures !old(Has(ptrs, tables, slots.base, page)) ==> Value(ptrs, tables, slots.base, page) == rnd[word]
      ensures old(slots.handed) <= slots.handed
      ensures slots.Remaining() == old(slots.Remaining()) - (if old(Has(ptrs, tables, slots.base, page)) then 0 else 1)
      ensures old(tables.Keys) <= tables.Keys
      ensures forall t :: t in tables && t !in old(tables) ==> t !in old(slots.handed)
    {
      var idx := (page - slots.base) / PAGE;
      assert idx < slots.pages;
      var indirect := idx / PER_PAGE;
      assert indirect < INDIRECTS;
      if ptrs[indirect] == 0 {
        var counterPage := slots.Alloc();
        tables := tables[counterPage := rnd];
        ptrs := ptrs[indirect := counterPage];
      }
      table, word := ptrs[indirect], idx % PER_PAGE;
    }

    /** The store through the pointer: exactly one page's counter changes. */
    method Write(page: nat, table: nat, word: nat, ctr: U64)
      requires Valid() && page % PAGE == 0 && slots.base <= page && Has(ptrs, tables, slots.base, page)
      requires var i := PageIndex(slots.base, page); table == ptrs[i / PER_PAGE] && word == i % PER_PAGE
      modifies this`tables
      ensures Valid() && tables.Keys == old(tables.Keys)
      ensures Has(ptrs, tables, slots.base, page) && Value(ptrs, tables, slots.base, page) == ctr
      ensures forall q :: slots.base <= q && q % PAGE == 0 && q != page && Has(ptrs, old(tables), slots.base, q) ==>
                Has(ptrs, tables, slots.base, q)
                && Value(ptrs, tables, slots.base, q) == Value(ptrs, old(tables), slots.base, q)
    {
      var words: seq<U64> := tables[table];
      words := words[word := ctr];
      tables := tables[table := words];
      forall q | slots.base <= q && q % PAGE == 0 && q != page && Has(ptrs, old(tables), slots.base, q)
        ensures Has(ptrs, tables, slots.base, q)
             && Value(ptrs, tables, slots.base, q) == Value(ptrs, old(tables), slots.base, q)
      {
        IndexDistinct(slots.base, page, q);
      }
    }
  }
}
