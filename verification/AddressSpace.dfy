/** Page table and free list in one memory: which frame belongs to whom, and what mapping, allocating and
    freeing do to the translation. The build without demand paging. */
module AddressSpace {
  import opened Arith
  import opened Bytes
  import opened Vm
  import opened PageTable
  import opened Options

  // ---------------------------------------------------------------- the free list, kept in the free pages

  /** Page numbers below 2^44, and 0 for no page. */
  predicate Numbered(mem: Memory) {
    forall p :: p in mem ==> 0 < p < 0x1000_0000_0000
  }

  function Addr(p: nat): (a: U64)
    requires p < 0x1000_0000_0000
    ensures p > 0 ==> a > 0
  {
    p * 4096
  }

  /** Each free page starts with the address of the next one; the last with 0. */
  predicate Chain(mem: Memory, free: seq<nat>)
    requires Numbered(mem)
  {
    |free| > 0 ==>
      && free[0] in mem && (|free| > 1 ==> free[1] in mem)
      && mem[free[0]][0] == (if |free| == 1 then 0 else Addr(free[1]))
      && Chain(mem, free[1..])
  }

  predicate Distinct(free: seq<nat>) {
    forall a, b :: 0 <= a < b < |free| ==> free[a] != free[b]
  }

  predicate FreeOk(mem: Memory, head: U64, tail: U64, count: nat, free: seq<nat>) {
    && Numbered(mem) && count == |free| && Distinct(free) && Chain(mem, free)
    && (forall a :: 0 <= a < |free| ==> free[a] in mem)
    && (if |free| == 0 then head == 0 else head == Addr(free[0]) && tail == Addr(free[|free| - 1]))
  }

  lemma {:induction false} ChainFrame(mem: Memory, mem': Memory, free: seq<nat>)
    requires Numbered(mem) && Numbered(mem') && Chain(mem, free) && mem.Keys <= mem'.Keys
    requires forall p :: p in free && p in mem ==> mem'[p][0] == mem[p][0]
    ensures Chain(mem', free)
  {
    if |free| > 0 {
      ChainFrame(mem, mem', free[1..]);
    }
  }

  lemma {:induction false} ChainAppend(mem: Memory, mem': Memory, free: seq<nat>, p: nat)
    requires Numbered(mem) && Numbered(mem') && Chain(mem, free) && mem.Keys <= mem'.Keys && Distinct(free + [p])
    requires p in mem' && mem'[p][0] == 0
    requires forall q :: q in free ==> q in mem
    requires forall a :: 0 <= a < |free| ==> mem'[free[a]][0] == if a == |free| - 1 then Addr(p) else mem[free[a]][0]
    ensures Chain(mem', free + [p])
  {
    if |free| == 0 {
      assert (free + [p])[1..] == [];
    } else {
      assert (free + [p])[1..] == free[1..] + [p];
      TailDistinct(free + [p]);
      ChainAppend(mem, mem', free[1..], p);
    }
  }

  lemma TailDistinct(s: seq<nat>)
    requires Distinct(s) && |s| > 0
    ensures Distinct(s[1..]) && s[0] !in s[1..]
  {}

  // ---------------------------------------------------------------- who owns a frame

  predicate Mapped(mem: Memory, t: Tables, v: Vpn)
    requires Shaped(mem, t)
  {
    Indices(v) && IsValid(Leaf(mem, t, v))
  }

  function Frame(mem: Memory, t: Tables, v: Vpn): nat
    requires Shaped(mem, t) && Indices(v)
  {
    PtePpn(Leaf(mem, t, v))
  }

  /** No frame is in two of free list, table and leaf mapping, and no two leaves share one. */
  ghost predicate Owned(mem: Memory, t: Tables, free: seq<nat>)
    requires Shaped(mem, t)
  {
    && (forall p :: p in free ==> !IsTable(t, p))
    && (forall v :: Mapped(mem, t, v) ==> Frame(mem, t, v) !in free && !IsTable(t, Frame(mem, t, v)))
    && (forall v, u :: Mapped(mem, t, v) && Mapped(mem, t, u) && v != u ==> Frame(mem, t, v) != Frame(mem, t, u))
  }

  ghost predicate SameLeaves(mem: Memory, t: Tables, mem': Memory, t': Tables)
    requires Shaped(mem, t) && Shaped(mem', t')
  {
    forall v :: Indices(v) ==> Leaf(mem', t', v) == Leaf(mem, t, v)
  }

  /** The first free page becomes a table. */
  lemma OwnedTable(mem: Memory, t: Tables, mem': Memory, t': Tables, free: seq<nat>)
    requires Shaped(mem, t) && Shaped(mem', t') && SameLeaves(mem, t, mem', t')
    requires Owned(mem, t, free) && |free| > 0 && Distinct(free)
    requires forall q :: IsTable(t', q) ==> IsTable(t, q) || q == free[0]
    ensures Owned(mem', t', free[1..])
  {
    TailDistinct(free);
    forall v | Mapped(mem', t', v)
      ensures Frame(mem', t', v) !in free[1..] && !IsTable(t', Frame(mem', t', v))
    {
      assert Mapped(mem, t, v) && Frame(mem', t', v) == Frame(mem, t, v);
    }
    forall v, u | Mapped(mem', t', v) && Mapped(mem', t', u) && v != u
      ensures Frame(mem', t', v) != Frame(mem', t', u)
    {
      assert Mapped(mem, t, v) && Mapped(mem, t, u);
    }
  }

  /** A leaf is mapped to a frame nobody has. */
  lemma OwnedMapped(mem: Memory, t: Tables, mem': Memory, free: seq<nat>, free': seq<nat>, v: Vpn)
    requires Shaped(mem, t) && Shaped(mem', t) && Indices(v) && Owned(mem, t, free)
    requires forall u :: Indices(u) && u != v ==> Leaf(mem', t, u) == Leaf(mem, t, u)
    requires forall p :: p in free' ==> p in free
    requires IsValid(Leaf(mem', t, v))
    requires var p := PtePpn(Leaf(mem', t, v));
      p !in free' && !IsTable(t, p) && forall u :: Mapped(mem, t, u) && u != v ==> Frame(mem, t, u) != p
    ensures Owned(mem', t, free')
  {
    forall u | Mapped(mem', t, u) && u != v
      ensures Mapped(mem, t, u) && Frame(mem', t, u) == Frame(mem, t, u)
    {}
  }

  /** A leaf is cleared: its frame is nobody's. */
  lemma OwnedCleared(mem: Memory, t: Tables, mem': Memory, free: seq<nat>, v: Vpn)
    requires Shaped(mem, t) && Shaped(mem', t) && Mapped(mem, t, v) && Owned(mem, t, free)
    requires forall u :: Indices(u) && u != v ==> Leaf(mem', t, u) == Leaf(mem, t, u)
    requires !IsValid(Leaf(mem', t, v))
    ensures Owned(mem', t, free) && Unused(mem', t, free, Frame(mem, t, v))
  {
    forall u | Mapped(mem', t, u)
      ensures Mapped(mem, t, u) && u != v && Frame(mem', t, u) == Frame(mem, t, u)
    {}
  }

  /** What is neither a table nor free keeps its contents. */
  predicate Keeps(mem: Memory, t: Tables, free: seq<nat>, mem': Memory) {
    mem.Keys == mem'.Keys && forall q :: q in mem && !IsTable(t, q) && q !in free ==> mem'[q] == mem[q]
  }

  lemma FreeFrame(mem: Memory, mem': Memory, head: U64, tail: U64, count: nat, free: seq<nat>)
    requires FreeOk(mem, head, tail, count, free) && mem.Keys == mem'.Keys
    requires forall p :: p in free && p in mem ==> mem'[p] == mem[p]
    ensures FreeOk(mem', head, tail, count, free)
  {
    ChainFrame(mem, mem', free);
  }

  /** Zeroing the first free page and hanging it into the root, or into a second-level table. */
  lemma GrowRoot(mem: Memory, t: Tables, free: seq<nat>, i: nat)
    requires TablesOk(mem, t) && Numbered(mem) && Owned(mem, t, free) && |free| > 0 && Distinct(free) && free[0] in mem
    requires i < 512 && i !in t.dir
    ensures var p := free[0];
      var m1 := mem[p := seq(512, _ => 0)];
      var m2, t2 := m1[t.root := m1[t.root][i := PtdCreate(p)]], t.(dir := t.dir[i := p]);
      TablesOk(m2, t2) && SameLeaves(mem, t, m2, t2) && Owned(m2, t2, free[1..]) && Keeps(mem, t, free, m2)
  {
    var p := free[0];
    var m1 := mem[p := seq(512, _ => 0)];
    assert p in free;
    OffTables(mem, m1, t);
    AddDir(m1, t, i, p);
    var m2, t2 := m1[t.root := m1[t.root][i := PtdCreate(p)]], t.(dir := t.dir[i := p]);
    OwnedTable(mem, t, m2, t2, free);
  }

  lemma GrowTable(mem: Memory, t: Tables, free: seq<nat>, i: nat, j: nat)
    requires TablesOk(mem, t) && Numbered(mem) && Owned(mem, t, free) && |free| > 0 && Distinct(free) && free[0] in mem
    requires i in t.dir && j < 512 && (i, j) !in t.tab
    ensures var p, d := free[0], t.dir[i];
      var m1 := mem[p := seq(512, _ => 0)];
      var m2, t2 := m1[d := m1[d][j := PtdCreate(p)]], t.(tab := t.tab[(i, j) := p]);
      TablesOk(m2, t2) && SameLeaves(mem, t, m2, t2) && Owned(m2, t2, free[1..]) && Keeps(mem, t, free, m2)
  {
    var p, d := free[0], t.dir[i];
    var m1 := mem[p := seq(512, _ => 0)];
    assert p in free;
    OffTables(mem, m1, t);
    AddTab(m1, t, i, j, p);
    var m2, t2 := m1[d := m1[d][j := PtdCreate(p)]], t.(tab := t.tab[(i, j) := p]);
    assert d in t.dir.Values && IsTable(t, d);
    OwnedTable(mem, t, m2, t2, free);
  }

  /** The table with the missing entry on the way to v, the entry, and the tables with p hung into it. */
  function Hook(t: Tables, v: Vpn): nat
    requires Missing(t, v) > 0
  {
    if v.i !in t.dir then t.root else t.dir[v.i]
  }

  function HookIndex(t: Tables, v: Vpn): nat {
    if v.i !in t.dir then v.i else v.j
  }

  function Grown(t: Tables, v: Vpn, p: nat): Tables {
    if v.i !in t.dir then t.(dir := t.dir[v.i := p]) else t.(tab := t.tab[(v.i, v.j) := p])
  }

  lemma NewValue<K>(m: map<K, nat>, k: K, p: nat, q: nat)
    requires k !in m
    ensures q in m[k := p].Values <==> q in m.Values || q == p
  {
    assert m[k := p][k] == p;
    if q in m.Values {
      var x :| x in m && m[x] == q;
      assert m[k := p][x] == q;
    }
  }

  /** The tables of the grown structure are the old ones and the new page. */
  lemma GrownTables(t: Tables, v: Vpn, p: nat, q: nat)
    requires Missing(t, v) > 0 && (v.i !in t.dir || (v.i, v.j) !in t.tab)
    ensures IsTable(Grown(t, v, p), q) <==> IsTable(t, q) || q == p
  {
    if v.i !in t.dir {
      NewValue(t.dir, v.i, p, q);
    } else {
      NewValue(t.tab, (v.i, v.j), p, q);
    }
  }

  lemma GrowOne(mem: Memory, t: Tables, free: seq<nat>, v: Vpn)
    requires TablesOk(mem, t) && Numbered(mem) && Owned(mem, t, free) && |free| > 0 && Distinct(free) && free[0] in mem
    requires Indices(v) && Missing(t, v) > 0
    ensures var p, d := free[0], Hook(t, v);
      d in mem && IsTable(t, d) &&
      var m1 := mem[p := seq(512, _ => 0)];
      var m2, t2 := m1[d := m1[d][HookIndex(t, v) := PtdCreate(p)]], Grown(t, v, p);
      && TablesOk(m2, t2) && SameLeaves(mem, t, m2, t2) && Owned(m2, t2, free[1..]) && Keeps(mem, t, free, m2)
      && Missing(t2, v) == Missing(t, v) - 1
  {
    if v.i !in t.dir {
      assert forall j :: (v.i, j) !in t.tab;
      GrowRoot(mem, t, free, v.i);
    } else {
      GrowTable(mem, t, free, v.i, v.j);
      assert t.dir[v.i] in t.dir.Values;
    }
  }

  lemma KeepsTrans(mem: Memory, t: Tables, free: seq<nat>, m1: Memory, t1: Tables, free1: seq<nat>, m2: Memory)
    requires Keeps(mem, t, free, m1) && Keeps(m1, t1, free1, m2)
    requires forall q :: IsTable(t1, q) ==> IsTable(t, q) || q in free
    requires forall q :: q in free1 ==> q in free
    ensures Keeps(mem, t, free, m2)
  {}

  // ---------------------------------------------------------------- entries

  /** flags | PTE_D | PTE_A | PTE_V */
  function SetBit(flags: nat, bit: nat): nat
    requires bit > 0
  {
    if flags / bit % 2 == 1 then flags else flags + bit
  }

  lemma HalfSet(flags: nat, m: nat)
    requires m > 0
    ensures SetBit(flags, 2 * m) == 2 * SetBit(flags / 2, m) + flags % 2
  {
    DivDiv(flags, 2, m);
  }

  lemma {:induction false} SetFlags(flags: nat, k: nat, b: nat)
    ensures HasFlag(SetBit(flags, Pow2(k)), b) <==> b == k || HasFlag(flags, b)
    decreases k
  {
    if k > 0 {
      HalfSet(flags, Pow2(k - 1));
      if b > 0 {
        SetFlags(flags / 2, k - 1, b - 1);
      }
    } else if b > 0 {
      assert SetBit(flags, 1) / 2 == flags / 2;
    }
  }

  /** A mapped page has the caller's flags and is valid, accessed and dirty; no other bit is set. */
  lemma LeafFlags(ppn: nat, flags: nat, b: nat)
    requires ppn < PPN_LIMIT && b < 10
    ensures HasFlag(LeafEntry(ppn, flags), b) <==> b in {0, 6, 7} || HasFlag(flags, b)
  {
    assert Pow2(7) == 0x80 && Pow2(6) == 0x40 && Pow2(0) == 1;
    var d := SetBit(flags, 0x80);
    var a := SetBit(d, 0x40);
    SetFlags(flags, 7, b);
    SetFlags(d, 6, b);
    SetFlags(a, 0, b);
    CreatedFlags(ppn, SetBit(a, 1), b);
  }

  lemma UserLeaf(ppn: nat, flags: nat)
    requires ppn < PPN_LIMIT
    ensures IsUser(LeafEntry(ppn, flags)) <==> HasFlag(flags, 4)
  {
    LeafFlags(ppn, flags, 4);
    UserIsFour(LeafEntry(ppn, flags));
  }

  lemma UserIsFour(w: U64)
    ensures IsUser(w) <==> HasFlag(w, 4)
  {
    assert w / 16 == w / 2 / 2 / 2 / 2;
    assert HasFlag(w, 4) == HasFlag(w / 2 / 2, 2);
  }

  function LeafEntry(ppn: nat, flags: nat): (w: U64)
    requires ppn < PPN_LIMIT
    ensures IsValid(w) && PtePpn(w) == ppn
  {
    var kind := SetBit(SetBit(SetBit(flags, 0x80), 0x40), 1);
    PteRoundTrip(ppn, kind);
    PteCreate(ppn, kind)
  }

  /** translate: the physical address of a mapped virtual one, 0 for the others. */
  function Translation(mem: Memory, t: Tables, vpn: nat, offset: nat): nat
    requires Shaped(mem, t)
  {
    var w := Leaf(mem, t, Split(vpn));
    if IsValid(w) then PtePpn(w) * 4096 + offset else 0
  }

  /** translate gives the address the hardware uses, wherever the hardware finds one. */
  lemma TranslationIsHardware(mem: Memory, t: Tables, vpn: nat, offset: nat)
    requires TablesOk(mem, t) && HardwareWalk(mem, t.root, Split(vpn), 2).Some?
    ensures var (w, level) := HardwareWalk(mem, t.root, Split(vpn), 2).value;
      level == 0 && Translation(mem, t, vpn, offset) == PtePpn(w) * 4096 + offset
  {
    HardwareFinds(mem, t, Split(vpn));
  }

  /** The address of a page mapped to a frame is the frame's, at the same offset. */
  lemma TranslationMapped(mem: Memory, t: Tables, vpn: nat, ppn: nat, flags: nat, offset: nat)
    requires Shaped(mem, t) && ppn < PPN_LIMIT && Leaf(mem, t, Split(vpn)) == LeafEntry(ppn, flags)
    ensures Translation(mem, t, vpn, offset) == 4096 * ppn + offset
  {}

  /** A changed leaf changes the translation at exactly its page. */
  lemma TranslationChanges(mem: Memory, t: Tables, mem': Memory, t': Tables, vpn: nat, x: nat, offset: nat)
    requires Shaped(mem, t) && Shaped(mem', t') && vpn < 0x800_0000 && x < 0x800_0000 && x != vpn
    requires forall u :: Indices(u) && u != Split(vpn) ==> Leaf(mem', t', u) == Leaf(mem, t, u)
    ensures Translation(mem', t', x, offset) == Translation(mem, t, x, offset)
  {
    if Split(x) == Split(vpn) {
      SplitInjective(x, vpn);
    }
  }

  // ---------------------------------------------------------------- the mutable space

  class Space {
    const root: nat
    var mem: Memory
    var head: U64
    var tail: U64
    var count: nat
    ghost var t: Tables
    ghost var free: seq<nat>

    ghost predicate Valid()
      reads this
    {
      && TablesOk(mem, t) && t.root == root
      && FreeOk(mem, head, tail, count, free) && Owned(mem, t, free)
    }

    /** A space with nothing mapped: an empty root table and an empty free list. Every other page can go
        onto the list. */
    constructor (pages: Memory, root: nat)
      requires Numbered(pages) && root in pages && forall i :: 0 <= i < 512 ==> !IsValid(pages[root][i])
      ensures Valid() && this.root == root && mem == pages && free == []
      ensures forall v :: Indices(v) ==> !Mapped(mem, t, v)
      ensures forall p :: p in pages && p != root ==> Unused(mem, t, free, p)
    {
      this.root, mem := root, pages;
      head, tail, count := 0, 0, 0;
      t, free := Tables(root, map[], map[]), [];
    }

    /** __spa_get with zeroing: the oldest free page, or nothing. */
    method SpaGetZero() returns (r: Option<nat>)
      requires FreeOk(mem, head, tail, count, free)
      modifies this`mem, this`head, this`count, this`free
      ensures FreeOk(mem, head, tail, count, free)
      ensures |old(free)| == 0 ==> r == None && mem == old(mem) && free == old(free)
      ensures |old(free)| > 0 ==>
        r == Some(old(free)[0]) && free == old(free)[1..] && mem == old(mem)[old(free)[0] := seq(512, _ => 0)]
    {
      if count == 0 || head == 0 {
        return None;
      }
      var p := head / 4096;
      TailDistinct(free);
      ghost var mem' := mem[p := seq(512, _ => 0)];
      ChainFrame(mem, mem', free[1..]);
      head := mem[p][0];
      count := count - 1;
      mem := mem[p := seq(512, _ => 0)];
      free := free[1..];
      r := Some(p);
    }

    /** spa_put: the page goes to the end of the list. */
    method SpaPut(p: nat)
      requires FreeOk(mem, head, tail, count, free) && p in mem && p !in free
      modifies this`mem, this`head, this`tail, this`count, this`free
      ensures FreeOk(mem, head, tail, count, free) && free == old(free) + [p]
      ensures mem.Keys == old(mem.Keys) && forall q :: q in mem && q !in free ==> mem[q] == old(mem)[q]
    {
      ghost var was, list := mem, free;
      if count != 0 && head != 0 {
        var prev := tail / 4096;
        mem := mem[prev := mem[prev][0 := Addr(p)]];
      } else {
        head := Addr(p);
      }
      mem := mem[p := mem[p][0 := 0]];
      tail := Addr(p);
      count := count + 1;
      free := free + [p];
      ChainAppend(was, mem, list, p);
    }

    /** __walk_internal without creation: the leaf table of a page, if all levels are there; otherwise the
        table whose entry is missing. */
    method Find(v: Vpn) returns (r: Option<nat>, cur: nat, idx: nat)
      requires TablesOk(mem, t) && t.root == root && Indices(v)
      ensures r == TabAt(t, v.i, v.j) && (r.None? <==> Missing(t, v) > 0)
      ensures r.None? ==> cur == Hook(t, v) && idx == HookIndex(t, v)
    {
      cur, idx := root, v.i;
      var level := 1;
      while level < 3
        invariant 1 <= level <= 3
        invariant level == 1 ==> cur == root && idx == v.i
        invariant level == 2 ==> v.i in t.dir && cur == t.dir[v.i] && idx == v.j
        invariant level == 3 ==> (v.i, v.j) in t.tab && cur == t.tab[(v.i, v.j)]
      {
        assert level == 1 ==> Points(mem[root][v.i], DirAt(t, v.i));
        assert level == 2 ==> Points(mem[t.dir[v.i]][v.j], TabAt(t, v.i, v.j));
        if !IsValid(mem[cur][idx]) {
          return None, cur, idx;
        }
        cur := PtePpn(mem[cur][idx]);
        level := level + 1;
        idx := v.j;
      }
      r := Some(cur);
    }

    /** __continue_walk_create: one more level, from a zeroed page. */
    method Extend(v: Vpn, cur: nat, idx: nat) returns (ok: bool)
      requires Valid() && Indices(v) && Missing(t, v) > 0 && cur == Hook(t, v) && idx == HookIndex(t, v)
      modifies this`mem, this`head, this`count, this`free, this`t
      ensures ok <==> |old(free)| > 0
      ensures ok ==> Valid() && Missing(t, v) == old(Missing(t, v)) - 1 && free == old(free)[1..]
      ensures ok ==> SameLeaves(old(mem), old(t), mem, t) && Keeps(old(mem), old(t), old(free), mem)
      ensures ok ==> forall q :: IsTable(t, q) <==> IsTable(old(t), q) || q == old(free)[0]
    {
      if |free| > 0 {
        GrowOne(mem, t, free, v);
        forall q
          ensures IsTable(Grown(t, v, free[0]), q) <==> IsTable(t, q) || q == free[0]
        {
          GrownTables(t, v, free[0], q);
        }
      }
      var p := SpaGetZero();
      if p.None? {
        return false;
      }
      ghost var m1 := mem;
      mem := mem[cur := mem[cur][idx := PtdCreate(p.value)]];
      t := Grown(t, v, p.value);
      FreeFrame(m1, mem, head, tail, count, free);
      ok := true;
    }

    /** __walk_create: restarts from the root after every level it adds; ends because missing levels
        decrease. Without a free page for each the source's assertion fails. */
    method WalkCreate(v: Vpn) returns (r: Option<nat>)
      requires Valid() && Indices(v)
      modifies this`mem, this`head, this`count, this`free, this`t
      ensures r.Some? <==> |old(free)| >= old(Missing(t, v))
      ensures r.Some? ==> Valid() && (v.i, v.j) in t.tab && r.value == t.tab[(v.i, v.j)]
      ensures r.Some? ==> free == old(free)[old(Missing(t, v))..]
      ensures r.Some? ==> SameLeaves(old(mem), old(t), mem, t) && Keeps(old(mem), old(t), old(free), mem)
      ensures r.Some? ==> forall q :: IsTable(t, q) ==> IsTable(old(t), q) || q in old(free)
      ensures r.Some? ==> forall q :: IsTable(old(t), q) || (q in old(free) && q !in free) ==> IsTable(t, q)
      decreases Missing(t, v)
    {
      var cur, idx;
      r, cur, idx := Find(v);
      if r.None? {
        var ok := Extend(v, cur, idx);
        if !ok {
          return None;
        }
        ghost var m1, t1, free1 := mem, t, free;
        r := WalkCreate(v);
        if r.Some? {
          KeepsTrans(old(mem), old(t), old(free), m1, t1, free1, mem);
        }
      }
    }

    /** Writing a leaf entry of an existing table, and what it does to the map. */
    method Store(q: nat, v: Vpn, w: U64)
      requires TablesOk(mem, t) && FreeOk(mem, head, tail, count, free) && Owned(mem, t, free)
      requires Indices(v) && (v.i, v.j) in t.tab && q == t.tab[(v.i, v.j)]
      modifies this`mem
      ensures TablesOk(mem, t) && FreeOk(mem, head, tail, count, free) && Keeps(old(mem), t, [], mem)
      ensures forall u :: Indices(u) ==> Leaf(mem, t, u) == if u == v then w else old(Leaf(mem, t, u))
    {
      SetLeaf(mem, t, v, w);
      assert q in t.tab.Values && IsTable(t, q);
      ghost var m := mem;
      mem := mem[q := mem[q][v.k := w]];
      FreeFrame(m, mem, head, tail, count, free);
    }

    /** Mapping an entry that is not valid to a frame that nobody has. */
    method SetMapped(q: nat, v: Vpn, ppn: nat, flags: nat)
      requires Valid() && Indices(v) && (v.i, v.j) in t.tab && q == t.tab[(v.i, v.j)]
      requires ppn < PPN_LIMIT && Unused(mem, t, free, ppn)
      modifies this`mem
      ensures Valid() && Keeps(old(mem), t, [], mem)
      ensures forall u :: Indices(u) ==>
        Leaf(mem, t, u) == if u == v then LeafEntry(ppn, flags) else old(Leaf(mem, t, u))
    {
      ghost var m := mem;
      Store(q, v, LeafEntry(ppn, flags));
      OwnedMapped(m, t, mem, free, free, v);
    }

    /** map_page: an unmapped page is mapped to the frame and every other page stays as it was; a mapped
        one is refused. Each frame stays in one role if and only if nobody had this one. */
    method MapPage(v: Vpn, ppn: nat, flags: nat) returns (ok: bool, code: int)
      requires Valid() && Indices(v) && ppn < PPN_LIMIT
      modifies this`mem, this`head, this`count, this`free, this`t
      ensures ok <==> |old(free)| >= old(Missing(t, v))
      ensures ok ==> TablesOk(mem, t) && t.root == root && FreeOk(mem, head, tail, count, free)
      ensures ok ==> Keeps(old(mem), old(t), old(free), mem) && code == if old(Mapped(mem, t, v)) then -1 else 1
      ensures ok ==> forall u :: Indices(u) ==>
        Leaf(mem, t, u) == if u == v && code == 1 then LeafEntry(ppn, flags) else old(Leaf(mem, t, u))
      ensures ok ==> (Valid() <==> code == -1 || old(Unused(mem, t, free, ppn)))
    {
      hide FreeOk, Linked;
      var q := WalkCreate(v);
      if q.None? {
        return false, 0;
      }
      ok := true;
      if IsValid(mem[q.value][v.k]) {
        return true, -1;
      }
      ghost var m1, t1, free1 := mem, t, free;
      UnusedSame(old(mem), old(t), old(free), mem, t, free, ppn);
      Store(q.value, v, LeafEntry(ppn, flags));
      MapsOwned(m1, t, mem, free, v);
      KeepsTrans(old(mem), old(t), old(free), m1, t1, free1, mem);
      code := 1;
    }

    /** alloc_page: an unmapped page gets the next free frame, zeroed. */
    method AllocPage(v: Vpn, flags: nat) returns (ok: bool)
      requires Valid() && Indices(v)
      modifies this`mem, this`head, this`count, this`free, this`t
      ensures ok <==> |old(free)| >= old(Missing(t, v)) + if old(Mapped(mem, t, v)) then 0 else 1
      ensures ok ==> Valid() && Keeps(old(mem), old(t), old(free), mem)
      ensures ok && old(Mapped(mem, t, v)) ==> SameLeaves(old(mem), old(t), mem, t)
      ensures ok && !old(Mapped(mem, t, v)) ==>
        var p := old(free)[old(Missing(t, v))];
        && free == old(free)[old(Missing(t, v)) + 1..] && p in mem && p < PPN_LIMIT && mem[p] == seq(512, _ => 0)
        && forall u :: Indices(u) ==> Leaf(mem, t, u) == if u == v then LeafEntry(p, flags) else old(Leaf(mem, t, u))
    {
      hide Owned, FreeOk, Linked;
      var q := WalkCreate(v);
      if q.None? {
        return false;
      }
      if IsValid(mem[q.value][v.k]) {
        return true;
      }
      ok := TakeFrame(v, q.value, flags);
    }

    /** The allocating half: the first free page behind an entry that is not valid. */
    method TakeFrame(v: Vpn, q: nat, flags: nat) returns (ok: bool)
      requires Valid() && Indices(v) && (v.i, v.j) in t.tab && q == t.tab[(v.i, v.j)]
      modifies this`mem, this`head, this`count, this`free
      ensures ok <==> |old(free)| > 0
      ensures ok ==> Valid() && Keeps(old(mem), t, old(free), mem) && free == old(free)[1..]
      ensures ok ==> old(free)[0] in mem && old(free)[0] < PPN_LIMIT && mem[old(free)[0]] == seq(512, _ => 0)
      ensures ok ==> forall u :: Indices(u) ==>
        Leaf(mem, t, u) == if u == v then LeafEntry(old(free)[0], flags) else old(Leaf(mem, t, u))
    {
      ghost var m0, list := mem, free;
      var p := SpaGetZero();
      if p.None? {
        return false;
      }
      FirstUnused(m0, mem, t, list);
      ghost var m1 := mem;
      SetMapped(q, v, p.value, flags);
      ok := true;
    }

    /** spa_put of a page that nobody has. */
    method PutUnused(p: nat)
      requires Valid() && p in mem && Unused(mem, t, free, p)
      modifies this`mem, this`head, this`tail, this`count, this`free
      ensures Valid() && free == old(free) + [p] && SameLeaves(old(mem), t, mem, t)
      ensures Keeps(old(mem), t, free, mem)
    {
      ghost var m, list := mem, free;
      SpaPut(p);
      assert forall q :: q in free ==> q in list || q == p;
      OffTables(m, mem, t);
      OwnedPut(m, mem, t, list, p);
    }

    /** spa_init: the pages go onto the empty list in order. */
    method SpaInit(first: nat, n: nat)
      requires Valid() && free == []
      requires forall p :: first <= p < first + n ==> p in mem && Unused(mem, t, free, p)
      modifies this`mem, this`head, this`tail, this`count, this`free
      ensures Valid() && count == n && free == seq(n, i => first + i) && SameLeaves(old(mem), t, mem, t)
    {
      var i := 0;
      while i < n
        invariant 0 <= i <= n && Valid() && free == seq(i, a => first + a) && SameLeaves(old(mem), t, mem, t)
        invariant mem.Keys == old(mem.Keys) && t == old(t)
      {
        PutNext(first, i, old(mem));
        i := i + 1;
      }
    }

    method PutNext(first: nat, i: nat, ghost start: Memory)
      requires Valid() && free == seq(i, a => first + a) && first + i in mem
      requires Shaped(start, t) && SameLeaves(start, t, mem, t) && Unused(start, t, [], first + i)
      modifies this`mem, this`head, this`tail, this`count, this`free
      ensures Valid() && free == seq(i + 1, a => first + a) && SameLeaves(start, t, mem, t) && mem.Keys == old(mem.Keys)
    {
      SeqStillUnused(start, t, mem, free, first, i);
      PutUnused(first + i);
      assert free == seq(i + 1, a => first + a);
    }

    /** free_page: a mapped user page loses its mapping, and its frame goes to the end of the free list;
        every other page, and every frame in use, stays as it was. */
    method FreePage(v: Vpn) returns (ok: bool)
      requires Valid() && Indices(v)
      modifies this`mem, this`head, this`tail, this`count, this`free
      ensures ok <==> !old(Mapped(mem, t, v)) || (old(IsUser(Leaf(mem, t, v))) && old(Frame(mem, t, v) in mem))
      ensures ok ==> Valid() && Keeps(old(mem), t, free, mem)
      ensures !ok || !old(Mapped(mem, t, v)) ==> unchanged(this)
      ensures ok && old(Mapped(mem, t, v)) ==> free == old(free) + [old(Frame(mem, t, v))]
      ensures ok && old(Mapped(mem, t, v)) ==>
        forall u :: Indices(u) ==> Leaf(mem, t, u) == if u == v then 0 else old(Leaf(mem, t, u))
    {
      hide Owned, FreeOk, Linked;
      var q, cur, idx := Find(v);
      if q.None? || !IsValid(mem[q.value][v.k]) {
        return true;
      }
      var w := mem[q.value][v.k];
      if !IsUser(w) || PtePpn(w) !in mem {
        return false;
      }
      ghost var m := mem;
      Store(q.value, v, 0);
      OwnedCleared(m, t, mem, free, v);
      ghost var m1 := mem;
      PutUnused(PtePpn(w));
      ok := true;
    }

    /** alloc_page and free_page: the page just allocated can be freed exactly if it was asked for as a user
        page; its frame is then the last to be handed out again, and every other page is as it was. */
    method AllocFree(v: Vpn, flags: nat) returns (ok: bool, freed: bool)
      requires Valid() && Indices(v) && !Mapped(mem, t, v)
      modifies this`mem, this`head, this`tail, this`count, this`free, this`t
      ensures ok <==> |old(free)| > old(Missing(t, v))
      ensures ok ==> (freed <==> HasFlag(flags, 4))
      ensures ok && freed ==> Valid() && !Mapped(mem, t, v)
      ensures ok && freed ==> var n := old(Missing(t, v)); free == old(free)[n + 1..] + [old(free)[n]]
      ensures ok && freed ==> forall u :: Indices(u) && u != v ==> Leaf(mem, t, u) == old(Leaf(mem, t, u))
    {
      hide Owned, FreeOk, Linked, LeafEntry, HasFlag;
      freed := false;
      ghost var p := if |free| > Missing(t, v) then free[Missing(t, v)] else 0;
      ok := AllocPage(v, flags);
      if ok {
        assert Leaf(mem, t, v) == LeafEntry(p, flags) && Mapped(mem, t, v) && Frame(mem, t, v) == p;
        UserLeaf(p, flags);
        freed := FreePage(v);
      }
    }

    /** translate. */
    method Translate(vpn: nat, offset: nat) returns (pa: nat)
      requires Valid() && offset < 4096
      ensures pa == Translation(mem, t, vpn, offset)
    {
      var v := Split(vpn);
      var q, cur, idx := Find(v);
      if q.Some? && IsValid(mem[q.value][v.k]) {
        return PtePpn(mem[q.value][v.k]) * 4096 + offset;
      }
      pa := 0;
    }

    /** test_va_range: the length of the leading run of pages with no entry. */
    method TestVaRange(vpn: nat, n: nat) returns (i: nat)
      requires Valid()
      ensures i <= n && forall x :: vpn <= x < vpn + i ==> Leaf(mem, t, Split(x)) == 0
      ensures i < n ==> Leaf(mem, t, Split(vpn + i)) != 0
    {
      i := 0;
      while i < n
        invariant 0 <= i <= n && forall x :: vpn <= x < vpn + i ==> Leaf(mem, t, Split(x)) == 0
      {
        var v := Split(vpn + i);
        var q, cur, idx := Find(v);
        if q.Some? && mem[q.value][v.k] != 0 {
          return;
        }
        i := i + 1;
      }
    }
  }

  lemma OwnedPut(mem: Memory, mem': Memory, t: Tables, free: seq<nat>, p: nat)
    requires Shaped(mem, t) && Shaped(mem', t) && SameLeaves(mem, t, mem', t)
    requires Owned(mem, t, free) && Unused(mem, t, free, p)
    ensures Owned(mem', t, free + [p])
  {
    forall v | Mapped(mem', t, v)
      ensures Mapped(mem, t, v) && Frame(mem', t, v) == Frame(mem, t, v)
    {}
    assert forall q :: q in free + [p] ==> q in free || q == p;
  }

  lemma SeqStillUnused(mem: Memory, t: Tables, mem': Memory, free: seq<nat>, first: nat, i: nat)
    requires Shaped(mem, t) && Shaped(mem', t) && SameLeaves(mem, t, mem', t)
    requires Unused(mem, t, [], first + i) && free == seq(i, a => first + a)
    ensures Unused(mem', t, free, first + i)
  {
    forall u | Mapped(mem', t, u)
      ensures Frame(mem', t, u) != first + i
    {
      assert Mapped(mem, t, u);
    }
  }

  /** Free, table and leaf frames apart, p is none of them. */
  ghost predicate Unused(mem: Memory, t: Tables, free: seq<nat>, p: nat)
    requires Shaped(mem, t)
  {
    p !in free && !IsTable(t, p) && forall u :: Mapped(mem, t, u) ==> Frame(mem, t, u) != p
  }

  /** A frame is in one role after it is mapped exactly if it was in none. */
  lemma MapsOwned(mem: Memory, t: Tables, mem': Memory, free: seq<nat>, v: Vpn)
    requires Shaped(mem, t) && Shaped(mem', t) && Indices(v) && Owned(mem, t, free) && !Mapped(mem, t, v)
    requires forall u :: Indices(u) && u != v ==> Leaf(mem', t, u) == Leaf(mem, t, u)
    requires IsValid(Leaf(mem', t, v))
    ensures Owned(mem', t, free) <==> Unused(mem, t, free, PtePpn(Leaf(mem', t, v)))
  {
    var p := PtePpn(Leaf(mem', t, v));
    assert Mapped(mem', t, v) && Frame(mem', t, v) == p;
    if Unused(mem, t, free, p) {
      OwnedMapped(mem, t, mem', free, free, v);
    } else if p !in free && !IsTable(t, p) {
      var u :| Mapped(mem, t, u) && Frame(mem, t, u) == p;
      assert Mapped(mem', t, u) && u != v && Frame(mem', t, u) == p;
    }
  }

  /** Turning free pages into tables changes nobody's being unused. */
  lemma UnusedSame(mem: Memory, t: Tables, free: seq<nat>, mem': Memory, t': Tables, free': seq<nat>, p: nat)
    requires Shaped(mem, t) && Shaped(mem', t') && SameLeaves(mem, t, mem', t')
    requires forall q :: IsTable(t', q) ==> IsTable(t, q) || q in free
    requires forall q :: IsTable(t, q) || (q in free && q !in free') ==> IsTable(t', q)
    requires forall q :: q in free' ==> q in free
    ensures Unused(mem', t', free', p) <==> Unused(mem, t, free, p)
  {
    assert forall u :: Mapped(mem', t', u) <==> Mapped(mem, t, u);
    assert forall u :: Mapped(mem, t, u) ==> Frame(mem', t', u) == Frame(mem, t, u);
  }

  /** Taking the first free page off the list leaves it with nobody. */
  lemma FirstUnused(mem: Memory, mem': Memory, t: Tables, free: seq<nat>)
    requires TablesOk(mem, t) && Owned(mem, t, free) && |free| > 0 && Distinct(free) && free[0] in mem
    requires mem' == mem[free[0] := seq(512, _ => 0)]
    ensures TablesOk(mem', t) && SameLeaves(mem, t, mem', t) && Owned(mem', t, free[1..])
      && Unused(mem', t, free[1..], free[0])
    ensures Keeps(mem, t, free, mem')
  {
    var p := free[0];
    assert p in free;
    OffTables(mem, mem', t);
    TailDistinct(free);
    forall v | Mapped(mem', t, v)
      ensures Mapped(mem, t, v) && Frame(mem', t, v) == Frame(mem, t, v)
    {}
  }
}
