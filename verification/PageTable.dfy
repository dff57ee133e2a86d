/** The Sv39 page table (section 4.4 of the RISC-V privileged specification) as the map it stands for.
    Pages are named by their physical page number. */
module PageTable {
  import opened Bytes
  import opened Vm
  import opened Options

  type Page = s: seq<U64> | |s| == 512 witness seq(512, _ => 0)

  type Memory = map<nat, Page>

  /** A virtual page number as its three nine-bit indices. */
  datatype Vpn = Vpn(i: nat, j: nat, k: nat)

  predicate Indices(v: Vpn) {
    v.i < 512 && v.j < 512 && v.k < 512
  }

  /** RISCV_GET_PT_INDEX at levels 1, 2 and 3. */
  function Split(vpn: nat): (v: Vpn)
    ensures Indices(v)
  {
    Vpn(vpn / 0x4_0000 % 512, vpn / 512 % 512, vpn % 512)
  }

  /** The first index is the most significant; together they are the page number of the 39-bit space. */
  lemma SplitWhole(vpn: nat)
    requires vpn < 0x800_0000
    ensures var v := Split(vpn); vpn == (v.i * 512 + v.j) * 512 + v.k
  {
    assert vpn / 0x4_0000 == vpn / 512 / 512;
  }

  /** Different pages of the 39-bit space have different indices. */
  lemma SplitInjective(x: nat, y: nat)
    requires x < 0x800_0000 && y < 0x800_0000 && Split(x) == Split(y)
    ensures x == y
  {
    SplitWhole(x);
    SplitWhole(y);
  }

  // ---------------------------------------------------------------- tables

  /** The pages the tables live in: the second level by first index, the third by both. */
  datatype Tables = Tables(root: nat, dir: map<nat, nat>, tab: map<(nat, nat), nat>)

  predicate IsTable(t: Tables, p: nat) {
    p == t.root || p in t.dir.Values || p in t.tab.Values
  }

  /** Readable, writable and executable are all clear. */
  predicate IsPointer(w: U64) {
    !HasFlag(w, 1) && !HasFlag(w, 2) && !HasFlag(w, 3)
  }

  /** A directory entry: a pointer, or not valid. */
  predicate Points(w: U64, m: Option<nat>) {
    match m
    case None => !IsValid(w)
    case Some(p) => IsValid(w) && IsPointer(w) && PtePpn(w) == p
  }

  lemma NewPointer(p: nat)
    requires p < PPN_LIMIT
    ensures Points(PtdCreate(p), Some(p))
  {
    PteRoundTrip(p, 1);
    PointerFlags(p, 1);
    PointerFlags(p, 2);
    PointerFlags(p, 3);
  }

  function DirAt(t: Tables, i: nat): Option<nat> {
    if i in t.dir then Some(t.dir[i]) else None
  }

  function TabAt(t: Tables, i: nat, j: nat): Option<nat> {
    if (i, j) in t.tab then Some(t.tab[(i, j)]) else None
  }

  /** The table pages exist and are all different. */
  predicate Shaped(mem: Memory, t: Tables) {
    && t.root in mem
    && (forall i :: i in t.dir ==> i < 512 && t.dir[i] in mem && t.dir[i] != t.root)
    && (forall p :: p in t.tab ==> p.0 in t.dir && p.1 < 512 && t.tab[p] in mem && t.tab[p] != t.root)
    && (forall i, i' :: i in t.dir && i' in t.dir && i != i' ==> t.dir[i] != t.dir[i'])
    && (forall p, p' :: p in t.tab && p' in t.tab && p != p' ==> t.tab[p] != t.tab[p'])
    && (forall i, p :: i in t.dir && p in t.tab ==> t.dir[i] != t.tab[p])
  }

  /** Every directory entry points where the tables say. */
  predicate Linked(mem: Memory, t: Tables)
    requires Shaped(mem, t)
  {
    && (forall i: nat :: i < 512 ==> Points(mem[t.root][i], DirAt(t, i)))
    && (forall i: nat, j: nat :: i in t.dir && j < 512 ==> Points(mem[t.dir[i]][j], TabAt(t, i, j)))
  }

  predicate TablesOk(mem: Memory, t: Tables) {
    Shaped(mem, t) && Linked(mem, t)
  }

  /** The leaf entry of a page: the map the tables stand for. */
  function Leaf(mem: Memory, t: Tables, v: Vpn): U64
    requires Shaped(mem, t) && Indices(v)
  {
    if (v.i, v.j) in t.tab then mem[t.tab[(v.i, v.j)]][v.k] else 0
  }

  // ---------------------------------------------------------------- what the hardware finds

  /** The address translation of section 4.3.2 of the privileged specification: the leaf a walk from table a ends
      at and its level, or a page fault. */
  function HardwareWalk(mem: Memory, a: nat, v: Vpn, level: nat): Option<(U64, nat)>
    requires Indices(v) && level < 3
    decreases level
  {
    if a !in mem then None
    else
      var w := mem[a][if level == 2 then v.i else if level == 1 then v.j else v.k];
      if !IsValid(w) || (!HasFlag(w, 1) && HasFlag(w, 2)) then None
      else if HasFlag(w, 1) || HasFlag(w, 3) then Some((w, level))
      else if level == 0 then None
      else HardwareWalk(mem, PtePpn(w), v, level - 1)
  }

  /** The map the tables stand for is what the hardware finds: a page's leaf entry at the lowest level if that is
      valid and readable or executable, and not writable alone; a page fault for any other page. */
  lemma HardwareFinds(mem: Memory, t: Tables, v: Vpn)
    requires TablesOk(mem, t) && Indices(v)
    ensures var w := Leaf(mem, t, v);
      HardwareWalk(mem, t.root, v, 2)
        == if IsValid(w) && (HasFlag(w, 1) || (HasFlag(w, 3) && !HasFlag(w, 2))) then Some((w, 0)) else None
  {
    hide HasFlag;
    assert Points(mem[t.root][v.i], DirAt(t, v.i));
    if v.i in t.dir {
      assert Points(mem[t.dir[v.i]][v.j], TabAt(t, v.i, v.j));
      if (v.i, v.j) in t.tab {
        assert HardwareWalk(mem, t.root, v, 2) == HardwareWalk(mem, t.tab[(v.i, v.j)], v, 0);
      }
    }
    BlankInvalid();
  }

  lemma BlankInvalid()
    ensures !IsValid(0)
  {}

  // ---------------------------------------------------------------- what the writes do to the map

  /** Memory that agrees on the table pages holds the same tables. */
  lemma OffTables(mem: Memory, mem': Memory, t: Tables)
    requires TablesOk(mem, t) && mem.Keys <= mem'.Keys
    requires forall p :: p in mem && IsTable(t, p) ==> mem'[p] == mem[p]
    ensures TablesOk(mem', t) && forall v :: Indices(v) ==> Leaf(mem', t, v) == Leaf(mem, t, v)
  {
    assert IsTable(t, t.root);
    forall i | i in t.dir
      ensures mem'[t.dir[i]] == mem[t.dir[i]]
    {
      assert t.dir[i] in t.dir.Values;
      assert IsTable(t, t.dir[i]);
    }
    forall p | p in t.tab
      ensures mem'[t.tab[p]] == mem[t.tab[p]]
    {
      assert t.tab[p] in t.tab.Values;
      assert IsTable(t, t.tab[p]);
    }
  }

  lemma NotTable(t: Tables, p: nat)
    requires !IsTable(t, p)
    ensures p != t.root && (forall i :: i in t.dir ==> t.dir[i] != p) && (forall q :: q in t.tab ==> t.tab[q] != p)
  {
    forall i | i in t.dir
      ensures t.dir[i] != p
    {
      assert t.dir[i] in t.dir.Values;
    }
    forall q | q in t.tab
      ensures t.tab[q] != p
    {
      assert t.tab[q] in t.tab.Values;
    }
  }

  /** A blank page hung into the root: no page is mapped or unmapped. */
  lemma AddDir(mem: Memory, t: Tables, i: nat, p: nat)
    requires TablesOk(mem, t) && i < 512 && i !in t.dir && p in mem && !IsTable(t, p) && p < PPN_LIMIT
    requires mem[p] == seq(512, _ => 0)
    ensures var mem', t' := mem[t.root := mem[t.root][i := PtdCreate(p)]], t.(dir := t.dir[i := p]);
      TablesOk(mem', t') && forall v :: Indices(v) ==> Leaf(mem', t', v) == Leaf(mem, t, v)
  {
    var mem', t' := mem[t.root := mem[t.root][i := PtdCreate(p)]], t.(dir := t.dir[i := p]);
    hide IsPointer;
    NotTable(t, p);
    NewPointer(p);
    forall a: nat, b: nat | a in t'.dir && b < 512
      ensures Points(mem'[t'.dir[a]][b], TabAt(t', a, b))
    {
      if a != i {
        assert mem'[t'.dir[a]] == mem[t.dir[a]];
      } else {
        assert (a, b) !in t.tab;
      }
    }
  }

  /** A blank page hung into a second-level table. */
  lemma AddTab(mem: Memory, t: Tables, i: nat, j: nat, p: nat)
    requires TablesOk(mem, t) && i in t.dir && j < 512 && (i, j) !in t.tab && p in mem && !IsTable(t, p)
      && p < PPN_LIMIT
    requires mem[p] == seq(512, _ => 0)
    ensures var d := t.dir[i];
      var mem', t' := mem[d := mem[d][j := PtdCreate(p)]], t.(tab := t.tab[(i, j) := p]);
      TablesOk(mem', t') && forall v :: Indices(v) ==> Leaf(mem', t', v) == Leaf(mem, t, v)
  {
    var d := t.dir[i];
    var mem', t' := mem[d := mem[d][j := PtdCreate(p)]], t.(tab := t.tab[(i, j) := p]);
    hide IsPointer;
    NotTable(t, p);
    NewPointer(p);
    assert Shaped(mem', t');
    forall a: nat, b: nat | a in t'.dir && b < 512
      ensures Points(mem'[t'.dir[a]][b], TabAt(t', a, b))
    {
      assert Points(mem[t.dir[a]][b], TabAt(t, a, b));
    }
  }

  /** A leaf entry overwritten: exactly that page changes. */
  lemma SetLeaf(mem: Memory, t: Tables, v: Vpn, w: U64)
    requires TablesOk(mem, t) && Indices(v) && (v.i, v.j) in t.tab
    ensures var q := t.tab[(v.i, v.j)];
      var mem' := mem[q := mem[q][v.k := w]];
      TablesOk(mem', t) && forall u :: Indices(u) ==> Leaf(mem', t, u) == if u == v then w else Leaf(mem, t, u)
  {
    var q := t.tab[(v.i, v.j)];
    var mem' := mem[q := mem[q][v.k := w]];
    forall u | Indices(u)
      ensures Leaf(mem', t, u) == if u == v then w else Leaf(mem, t, u)
    {
      if (u.i, u.j) in t.tab && (u.i, u.j) != (v.i, v.j) {
        assert t.tab[(u.i, u.j)] != q;
      }
    }
  }

  /** How many levels of the walk are missing: what the restarts count down. */
  function Missing(t: Tables, v: Vpn): nat {
    if v.i !in t.dir then 2 else if (v.i, v.j) !in t.tab then 1 else 0
  }
}
