/** Picking a page to evict by walking the page table itself: the recursion over the three levels counts the
    resident user pages in the order of the table. */
module TableTraversal {
  import opened Arith
  import opened Bytes
  import opened Vm
  import opened Pager
  import PageTable

  type Memory = PageTable.Memory

  /** A leaf the walk comes by: the address it computes and the entry. */
  datatype Seen = Seen(va: U64, entry: Pte)

  /** Readable, writable or executable: a leaf at any level. */
  predicate HasAccess(p: Pte) {
    p / 2 % 8 != 0
  }

  lemma AccessFlags(p: Pte)
    ensures HasAccess(p) <==> HasFlag(p, 1) || HasFlag(p, 2) || HasFlag(p, 3)
  {
    ThreeBits(p / 2);
    assert HasFlag(p, 2) == HasFlag(p / 2 / 2, 0) && HasFlag(p, 3) == HasFlag(p / 2 / 2, 1);
    assert HasFlag(p / 2 / 2, 1) == HasFlag(p / 2 / 2 / 2, 0);
    assert HasFlag(p, 1) == HasFlag(p / 2, 0);
  }

  lemma ThreeBits(n: nat)
    ensures n % 8 != 0 <==> n % 2 == 1 || n / 2 % 2 == 1 || n / 2 / 2 % 2 == 1
  {
    HalfMod(n, 4);
    HalfMod(n / 2, 2);
    Halves(n % 8);
    Halves(n / 2 % 4);
  }

  lemma Halves(n: nat)
    ensures n != 0 <==> n % 2 == 1 || n / 2 != 0
  {}

  predicate IsLeaf(level: nat, p: Pte) {
    level == 1 || HasAccess(p)
  }

  /** Tables exist wherever an entry that is not a leaf points. */
  predicate TablesExist(mem: Memory, level: nat, page: nat)
    decreases level
  {
    && level > 0 && page in mem
    && forall i :: 0 <= i < 512 && mem[page][i] != 0 && !IsLeaf(level, mem[page][i]) ==>
         TablesExist(mem, level - 1, PtePpn(mem[page][i]))
  }

  /** The address built from the indices so far, in 64 bits. */
  function VirtAddr(vaddr: U64, i: nat): U64 {
    (vaddr * 512 + i) * 4096 % TWO64
  }

  /** Behind an upper-half entry of the root the index prefix is all ones. */
  function Extended(level: nat, vaddr: U64, i: nat): U64 {
    if level == 3 && i >= 256 then TWO64 - 1 else vaddr
  }

  /** The leaves a table leads to, from entry i on. */
  function Leaves(mem: Memory, level: nat, page: nat, vaddr: U64, i: nat): seq<Seen>
    requires TablesExist(mem, level, page) && i <= 512
    decreases level, 512 - i
  {
    if i == 512 then []
    else
      var entry, va := mem[page][i], VirtAddr(vaddr, i);
      if entry == 0 then Leaves(mem, level, page, vaddr, i + 1)
      else if IsLeaf(level, entry) then [Seen(va, entry)] + Leaves(mem, level, page, vaddr, i + 1)
      else
        Leaves(mem, level - 1, PtePpn(entry), va / 4096, 0) + Leaves(mem, level, page, Extended(level, vaddr, i), i + 1)
  }

  predicate IsResident(p: Pte) {
    IsUser(p) && IsValid(p)
  }

  function Users(s: seq<Seen>): seq<Seen> {
    if s == [] then []
    else if IsResident(s[0].entry) then [s[0]] + Users(s[1..])
    else Users(s[1..])
  }

  lemma {:induction false} UsersConcat(s: seq<Seen>, t: seq<Seen>)
    ensures Users(s + t) == Users(s) + Users(t)
  {
    if s == [] {
      assert s + t == t;
    } else {
      UsersConcat(s[1..], t);
      assert (s + t)[1..] == s[1..] + t;
    }
  }

  /** What a walk that still has `count` pages to count returns, and how many are left. */
  ghost predicate Counted(u: seq<Seen>, count: nat, ret: U64, left: nat) {
    if count <= |u| then count > 0 && ret == u[count - 1].va && left == 0
    else ret == 0 && left == count - |u|
  }

  ghost predicate NoneAtZero(s: seq<Seen>) {
    forall j :: 0 <= j < |s| ==> s[j].va != 0
  }

  lemma {:induction false} UsersAmong(s: seq<Seen>)
    requires NoneAtZero(s)
    ensures NoneAtZero(Users(s)) && |Users(s)| <= |s|
  {
    if s != [] {
      UsersAmong(s[1..]);
    }
  }

  lemma ZeroParts(s: seq<Seen>, t: seq<Seen>)
    requires NoneAtZero(s + t)
    ensures NoneAtZero(s) && NoneAtZero(t)
  {
    assert forall j :: 0 <= j < |s| ==> (s + t)[j] == s[j];
    forall j | 0 <= j < |t|
      ensures t[j].va != 0
    {
      assert (s + t)[|s| + j] == t[j];
    }
  }

  /** __traverse_page_table_and_pick_internal. No page is mapped at address 0, which stands for failure. */
  method Traverse(mem: Memory, level: nat, page: nat, vaddr0: U64, count0: nat) returns (ret: U64, count: nat)
    requires TablesExist(mem, level, page) && count0 > 0 && NoneAtZero(Leaves(mem, level, page, vaddr0, 0))
    ensures Counted(Users(Leaves(mem, level, page, vaddr0, 0)), count0, ret, count)
    decreases level
  {
    hide Leaves, TablesExist, Users, NoneAtZero, VirtAddr, Extended;
    count := count0;
    var i, vaddr := 0, vaddr0;
    ghost var before: seq<Seen> := [];
    ghost var all := Leaves(mem, level, page, vaddr0, 0);
    Start(mem, level, page, vaddr0);
    while i < 512
      invariant 0 <= i <= 512 && page in mem && level > 0 && all == before + Leaves(mem, level, page, vaddr, i)
      invariant count0 > |Users(before)| && count == count0 - |Users(before)|
    {
      var entry := mem[page][i];
      ghost var here := Here(mem, level, page, vaddr, i);
      ghost var rest := Leaves(mem, level, page, NextVaddr(mem, level, page, vaddr, i), i + 1);
      Unfold(mem, level, page, vaddr, i);
      Parts(all, before, here, rest);
      if entry != 0 {
        var virt := VirtAddr(vaddr, i);
        if IsLeaf(level, entry) {
          UsersOne(Seen(virt, entry));
          if IsUser(entry) && IsValid(entry) {
            count := count - 1;
          }
          if count == 0 {
            ret := virt;
            return;
          }
        } else {
          vaddr := Extended(level, vaddr, i);
          ret, count := Traverse(mem, level - 1, PtePpn(entry), virt / 4096, count);
          UsersAmong(here);
          if ret != 0 {
            CountWithin(Users(before), Users(here), Users(rest), count0, ret, count);
            return;
          }
          NotWithin(Users(here), count0 - |Users(before)|, count);
        }
      } else {
        UsersNone();
      }
      before := before + here;
      i := i + 1;
    }
    Finish(mem, level, page, vaddr, before);
    ret := 0;
  }

  lemma Start(mem: Memory, level: nat, page: nat, vaddr: U64)
    requires TablesExist(mem, level, page)
    ensures page in mem && level > 0 && Users([]) == []
    ensures Leaves(mem, level, page, vaddr, 0) == [] + Leaves(mem, level, page, vaddr, 0)
  {}

  lemma Finish(mem: Memory, level: nat, page: nat, vaddr: U64, before: seq<Seen>)
    requires TablesExist(mem, level, page)
    ensures before + Leaves(mem, level, page, vaddr, 512) == before
  {}

  lemma UsersNone()
    ensures Users([]) == []
  {}

  lemma UsersOne(x: Seen)
    ensures Users([x]) == if IsUser(x.entry) && IsValid(x.entry) then [x] else []
  {
    assert [x][1..] == [];
  }

  /** The leaves before, at and behind entry i. */
  lemma Parts(all: seq<Seen>, before: seq<Seen>, here: seq<Seen>, rest: seq<Seen>)
    requires all == before + (here + rest) && NoneAtZero(all)
    ensures all == before + here + rest && Users(before + here) == Users(before) + Users(here)
    ensures Users(all) == Users(before) + Users(here) + Users(rest) && NoneAtZero(here)
  {
    assert all == before + here + rest;
    UsersConcat(before, here);
    UsersConcat(before + here, rest);
    ZeroParts(before + here, rest);
    ZeroParts(before, here);
  }

  lemma NotWithin(w: seq<Seen>, count: nat, left: nat)
    requires count > 0 && Counted(w, count, 0, left) && NoneAtZero(w)
    ensures count > |w| && left == count - |w|
  {}

  /** What entry i contributes, and the index prefix behind it. */
  function Here(mem: Memory, level: nat, page: nat, vaddr: U64, i: nat): seq<Seen>
    requires TablesExist(mem, level, page) && i < 512
  {
    var entry, va := mem[page][i], VirtAddr(vaddr, i);
    if entry == 0 then []
    else if IsLeaf(level, entry) then [Seen(va, entry)]
    else Leaves(mem, level - 1, PtePpn(entry), va / 4096, 0)
  }

  function NextVaddr(mem: Memory, level: nat, page: nat, vaddr: U64, i: nat): U64
    requires TablesExist(mem, level, page) && i < 512
  {
    if mem[page][i] == 0 || IsLeaf(level, mem[page][i]) then vaddr else Extended(level, vaddr, i)
  }

  lemma Unfold(mem: Memory, level: nat, page: nat, vaddr: U64, i: nat)
    requires TablesExist(mem, level, page) && i < 512
    ensures Leaves(mem, level, page, vaddr, i)
         == Here(mem, level, page, vaddr, i) + Leaves(mem, level, page, NextVaddr(mem, level, page, vaddr, i), i + 1)
    ensures mem[page][i] != 0 && !IsLeaf(level, mem[page][i]) ==>
              level > 1 && TablesExist(mem, level - 1, PtePpn(mem[page][i]))
  {}

  lemma CountWithin(u: seq<Seen>, w: seq<Seen>, rest: seq<Seen>, count: nat, ret: U64, left: nat)
    requires count > |u| && Counted(w, count - |u|, ret, left) && ret != 0
    ensures Counted(u + w + rest, count, ret, left)
  {}

  /** __traverse_page_table_and_pick from the root. */
  method PickVictim(mem: Memory, root: nat, count: nat) returns (va: U64)
    requires TablesExist(mem, 3, root) && count > 0 && NoneAtZero(Leaves(mem, 3, root, 0, 0))
    ensures var u := Users(Leaves(mem, 3, root, 0, 0));
      if count <= 3 * |u| then |u| > 0 && va == u[(count - 1) % |u|].va else va == 0
  {
    hide Leaves, TablesExist, Users, NoneAtZero;
    ghost var u := Users(Leaves(mem, 3, root, 0, 0));
    var next, tries := count, 0;
    va := 0;
    while next > 0 && tries < 3
      invariant 0 <= tries <= 3
      invariant next > 0 ==> va == 0 && next == count - tries * |u|
      invariant next == 0 ==> |u| > 0 && 0 < tries && (tries - 1) * |u| < count <= tries * |u|
                              && va == u[count - 1 - (tries - 1) * |u|].va
    {
      va, next := Traverse(mem, 3, root, 0, next);
      tries := tries + 1;
    }
    if next == 0 {
      ModUnique(count - 1, tries - 1, count - 1 - (tries - 1) * |u|, |u|);
    }
  }

  // ---------------------------------------------------------------- which addresses it gives

  /** An entry of an upper table that the walk follows. */
  predicate Follows(mem: Memory, page: nat, i: nat) {
    page in mem && i < 512 && mem[page][i] != 0 && !HasAccess(mem[page][i])
  }

  /** The index prefix at entry i of the root: all ones behind the first upper-half entry that is followed, not yet
      at that entry itself. */
  ghost function Prefix(mem: Memory, root: nat, i: nat): U64 {
    if exists u: nat :: 256 <= u < i && Follows(mem, root, u) then TWO64 - 1 else 0
  }

  lemma PrefixNext(mem: Memory, root: nat, i: nat)
    requires TablesExist(mem, 3, root) && i < 512
    ensures NextVaddr(mem, 3, root, Prefix(mem, root, i), i) == Prefix(mem, root, i + 1)
  {
    if Follows(mem, root, i) && i >= 256 {
      assert 256 <= i < i + 1;
    } else if exists u: nat :: 256 <= u < i + 1 && Follows(mem, root, u) {
      var u: nat :| 256 <= u < i + 1 && Follows(mem, root, u);
      assert u < i;
    }
  }

  /** The address of indices i, j and k is theirs in 39 bits, and with the prefix its sign extension. */
  lemma AddressOf(i: nat, j: nat, k: nat)
    requires i < 512 && j < 512 && k < 512
    ensures var n := (i * 512 + j) * 512 + k;
      && VirtAddr(VirtAddr(VirtAddr(0, i) / 4096, j) / 4096, k) == n * 4096
      && VirtAddr(VirtAddr(VirtAddr(TWO64 - 1, i) / 4096, j) / 4096, k) == TWO64 - 0x80_0000_0000 + n * 4096
  {
    SmallAddr(0, i);
    SmallAddr(i, j);
    SmallAddr(i * 512 + j, k);
    HighAddr(TWO64 - 1, i, 512 - i, 0x20_0000);
    HighAddr(0x10_0000_0000_0000 - (512 - i), j, (512 - i) * 512 - j, 512);
    HighAddr(0x10_0000_0000_0000 - ((512 - i) * 512 - j), k, ((512 - i) * 512 - j) * 512 - k, 512);
  }

  lemma SmallAddr(v: nat, i: nat)
    requires v < 0x4_0000 && i < 512
    ensures VirtAddr(v, i) == (v * 512 + i) * 4096
  {}

  /** d pages below 2^64. */
  lemma HighAddr(v: U64, i: nat, d: nat, q: nat)
    requires 0 < d <= 0x800_0000 && i < 512 && v * 512 + i == 0x10_0000_0000_0000 * q - d
    ensures VirtAddr(v, i) == TWO64 - 4096 * d && VirtAddr(v, i) / 4096 == 0x10_0000_0000_0000 - d
  {
    ModUnique((v * 512 + i) * 4096, q - 1, TWO64 - 4096 * d, TWO64);
  }

  lemma {:induction false} LowEntries(mem: Memory, level: nat, page: nat, vaddr: U64, i: nat, x: Seen)
    requires TablesExist(mem, level, page) && level < 3 && i <= 512
    ensures x in Leaves(mem, level, page, vaddr, i) <==>
      exists k: nat :: i <= k < 512 && x in Here(mem, level, page, vaddr, k)
    decreases 512 - i
  {
    hide Leaves, Here, TablesExist;
    if i < 512 {
      Unfold(mem, level, page, vaddr, i);
      LowEntries(mem, level, page, vaddr, i + 1, x);
      assert NextVaddr(mem, level, page, vaddr, i) == vaddr;
    } else {
      Finish(mem, level, page, vaddr, []);
    }
  }

  lemma {:induction false} RootEntries(mem: Memory, root: nat, i: nat, x: Seen)
    requires TablesExist(mem, 3, root) && i <= 512
    ensures x in Leaves(mem, 3, root, Prefix(mem, root, i), i) <==>
      exists k: nat :: i <= k < 512 && x in Here(mem, 3, root, Prefix(mem, root, k), k)
    decreases 512 - i
  {
    hide Leaves, Here, TablesExist, Prefix, NextVaddr;
    if i < 512 {
      Unfold(mem, 3, root, Prefix(mem, root, i), i);
      PrefixNext(mem, root, i);
      RootEntries(mem, root, i + 1, x);
    } else {
      Finish(mem, 3, root, Prefix(mem, root, i), []);
    }
  }

  /** x is an entry of a last-level table, of the tables below a second-level one, or of all of them. */
  ghost predicate InTable(mem: Memory, q: nat, vaddr: U64, x: Seen) {
    q in mem && exists k: nat :: k < 512 && mem[q][k] != 0 && x == Seen(VirtAddr(vaddr, k), mem[q][k])
  }

  predicate Large(mem: Memory, page: nat, vaddr: U64, i: nat, x: Seen) {
    page in mem && i < 512 && HasAccess(mem[page][i]) && x == Seen(VirtAddr(vaddr, i), mem[page][i])
  }

  ghost predicate InDirectory(mem: Memory, d: nat, vaddr: U64, x: Seen) {
    exists j: nat ::
      Large(mem, d, vaddr, j, x)
      || (Follows(mem, d, j) && InTable(mem, PtePpn(mem[d][j]), VirtAddr(vaddr, j) / 4096, x))
  }

  ghost predicate InRoot(mem: Memory, root: nat, x: Seen) {
    exists i: nat ::
      Large(mem, root, Prefix(mem, root, i), i, x)
      || (Follows(mem, root, i)
          && InDirectory(mem, PtePpn(mem[root][i]), VirtAddr(Prefix(mem, root, i), i) / 4096, x))
  }

  lemma TableSees(mem: Memory, q: nat, vaddr: U64, x: Seen)
    requires TablesExist(mem, 1, q)
    ensures x in Leaves(mem, 1, q, vaddr, 0) <==> InTable(mem, q, vaddr, x)
  {
    hide Leaves;
    LowEntries(mem, 1, q, vaddr, 0, x);
    forall k: nat | k < 512
      ensures x in Here(mem, 1, q, vaddr, k) <==> mem[q][k] != 0 && x == Seen(VirtAddr(vaddr, k), mem[q][k])
    {}
  }

  lemma HereIs(mem: Memory, level: nat, page: nat, vaddr: U64, i: nat, x: Seen)
    requires TablesExist(mem, level, page) && level > 1 && i < 512
    ensures Follows(mem, page, i) ==> TablesExist(mem, level - 1, PtePpn(mem[page][i]))
    ensures x in Here(mem, level, page, vaddr, i) <==>
      Large(mem, page, vaddr, i, x)
      || (Follows(mem, page, i) && x in Leaves(mem, level - 1, PtePpn(mem[page][i]), VirtAddr(vaddr, i) / 4096, 0))
  {
    NoAccess();
  }

  lemma NoAccess()
    ensures !HasAccess(0)
  {}

  lemma DirectorySees(mem: Memory, d: nat, vaddr: U64, x: Seen)
    requires TablesExist(mem, 2, d)
    ensures x in Leaves(mem, 2, d, vaddr, 0) <==> InDirectory(mem, d, vaddr, x)
  {
    hide Leaves, Here, TablesExist, InTable, VirtAddr;
    LowEntries(mem, 2, d, vaddr, 0, x);
    forall j: nat | j < 512
      ensures x in Here(mem, 2, d, vaddr, j) <==>
        Large(mem, d, vaddr, j, x)
        || (Follows(mem, d, j) && InTable(mem, PtePpn(mem[d][j]), VirtAddr(vaddr, j) / 4096, x))
    {
      HereIs(mem, 2, d, vaddr, j, x);
      if Follows(mem, d, j) {
        TableSees(mem, PtePpn(mem[d][j]), VirtAddr(vaddr, j) / 4096, x);
      }
    }
  }

  /** The walk comes by exactly the entries of the tables below the root, each with the address of its indices. */
  lemma RootSees(mem: Memory, root: nat, x: Seen)
    requires TablesExist(mem, 3, root)
    ensures x in Leaves(mem, 3, root, 0, 0) <==> InRoot(mem, root, x)
  {
    hide Leaves, Here, TablesExist, InDirectory, VirtAddr;
    RootEntries(mem, root, 0, x);
    forall i: nat | i < 512
      ensures x in Here(mem, 3, root, Prefix(mem, root, i), i) <==>
        Large(mem, root, Prefix(mem, root, i), i, x)
        || (Follows(mem, root, i)
            && InDirectory(mem, PtePpn(mem[root][i]), VirtAddr(Prefix(mem, root, i), i) / 4096, x))
    {
      HereIs(mem, 3, root, Prefix(mem, root, i), i, x);
      if Follows(mem, root, i) {
        DirectorySees(mem, PtePpn(mem[root][i]), VirtAddr(Prefix(mem, root, i), i) / 4096, x);
      }
    }
  }

  /** So a page of the lower half, where user memory is, is seen at its own address. */
  lemma PageSeen(mem: Memory, root: nat, i: nat, j: nat, k: nat)
    requires TablesExist(mem, 3, root) && i < 256 && k < 512
    requires Follows(mem, root, i) && Follows(mem, PtePpn(mem[root][i]), j)
    requires var q := PtePpn(mem[PtePpn(mem[root][i])][j]); q in mem && mem[q][k] != 0
    ensures var q := PtePpn(mem[PtePpn(mem[root][i])][j]);
      Seen(((i * 512 + j) * 512 + k) * 4096, mem[q][k]) in Leaves(mem, 3, root, 0, 0)
  {
    hide TablesExist, Leaves, VirtAddr, HasAccess;
    var d := PtePpn(mem[root][i]);
    var q := PtePpn(mem[d][j]);
    var x := Seen(VirtAddr(VirtAddr(VirtAddr(0, i) / 4096, j) / 4096, k), mem[q][k]);
    assert Prefix(mem, root, i) == 0;
    assert InTable(mem, q, VirtAddr(VirtAddr(0, i) / 4096, j) / 4096, x);
    assert InDirectory(mem, d, VirtAddr(0, i) / 4096, x);
    assert InRoot(mem, root, x);
    RootSees(mem, root, x);
    AddressOf(i, j, k);
  }

  // ---------------------------------------------------------------- the list of pages it stands for

  /** The list of pages and their entries, as the pager has it: the leaves that are not empty, in order. */
  ghost predicate Lists(s: seq<Seen>, ptes: map<nat, Pte>, order: seq<nat>) {
    if order == [] then s == []
    else if order[0] in ptes && ptes[order[0]] == 0 then Lists(s, ptes, order[1..])
    else
      && s != [] && order[0] in ptes && s[0] == Seen(order[0] * 4096 % TWO64, ptes[order[0]])
      && Lists(s[1..], ptes, order[1..])
  }

  function Addresses(pages: seq<nat>): seq<U64> {
    seq(|pages|, i requires 0 <= i < |pages| => pages[i] * 4096 % TWO64)
  }

  function Vas(s: seq<Seen>): seq<U64> {
    seq(|s|, i requires 0 <= i < |s| => s[i].va)
  }

  /** The walk counts exactly the pager's resident pages. */
  lemma {:induction false} UsersAreResidents(s: seq<Seen>, ptes: map<nat, Pte>, order: seq<nat>)
    requires Lists(s, ptes, order)
    ensures Vas(Users(s)) == Addresses(Residents(ptes, order))
    decreases |order|
  {
    if order != [] {
      var v := order[0];
      if v in ptes && ptes[v] == 0 {
        UsersAreResidents(s, ptes, order[1..]);
      } else {
        UsersAreResidents(s[1..], ptes, order[1..]);
        PrependVa(s[0], Users(s[1..]));
        PrependAddress(v, Residents(ptes, order[1..]));
      }
    }
  }

  lemma PrependVa(x: Seen, s: seq<Seen>)
    ensures Vas([x] + s) == [x.va] + Vas(s)
  {}

  lemma PrependAddress(v: nat, p: seq<nat>)
    ensures Addresses([v] + p) == [v * 4096 % TWO64] + Addresses(p)
  {}

  /** The walk over the tables picks the page the pager's list gives. */
  method PickAgrees(mem: Memory, root: nat, ptes: map<nat, Pte>, order: seq<nat>, count: nat) returns (va: U64, v: nat)
    requires TablesExist(mem, 3, root) && count > 0 && NoneAtZero(Leaves(mem, 3, root, 0, 0))
    requires Lists(Leaves(mem, 3, root, 0, 0), ptes, order)
    requires 0 !in order && (forall i :: 0 <= i < |order| ==> order[i] in ptes)
    ensures va == v * 4096 % TWO64
  {
    hide Leaves, TablesExist, Users, NoneAtZero, Residents, Lists;
    va := PickVictim(mem, root, count);
    v := Pick(ptes, order, count);
    ghost var u, p := Users(Leaves(mem, 3, root, 0, 0)), Residents(ptes, order);
    UsersAreResidents(Leaves(mem, 3, root, 0, 0), ptes, order);
    assert |Vas(u)| == |Addresses(p)|;
    if count <= 3 * |u| {
      var k := (count - 1) % |u|;
      assert Vas(u)[k] == Addresses(p)[k];
    }
  }
}
