/** Physical memory protection: how the hardware decides an access (section 3.7 of the RISC-V
    privileged specification, version 20211203) and how the monitor encodes a region. */
module Pmp {
  import opened Arith
  import opened Bytes

  const PGSIZE: nat := 4096
  const ALL_ONES: nat := 0xffff_ffff_ffff_ffff

  // ---------------------------------------------------------------- the hardware

  datatype Mode = Off | Tor | Napot

  /** One entry: the mode and the read/write/execute bits of its configuration byte (the monitor sets
      all three or none), and its address register in units of four bytes. */
  datatype Entry = Entry(mode: Mode, perm: bool, addr: nat)

  function TrailingOnes(n: nat): nat {
    if n % 2 == 1 then 1 + TrailingOnes(n / 2) else 0
  }

  /** The size a naturally aligned power-of-two register encodes. */
  function NapotSize(addr: nat): nat {
    Pow2(TrailingOnes(addr) + 3)
  }

  function NapotBase(addr: nat): nat {
    (addr - addr % Pow2(TrailingOnes(addr))) * 4
  }

  /** Entry i covers byte a. */
  predicate Matches(pmp: seq<Entry>, i: nat, a: nat)
    requires i < |pmp|
  {
    match pmp[i].mode
    case Off => false
    case Tor => (if i == 0 then 0 else pmp[i - 1].addr) <= a / 4 < pmp[i].addr
    case Napot => NapotBase(pmp[i].addr) <= a < NapotBase(pmp[i].addr) + NapotSize(pmp[i].addr)
  }

  /** The lowest-numbered entry that covers a decides; supervisor and user accesses that no entry
      covers fail. */
  predicate Decides(pmp: seq<Entry>, i: nat, a: nat)
    requires i < |pmp|
  {
    Matches(pmp, i, a) && forall j :: 0 <= j < i ==> !Matches(pmp, j, a)
  }

  ghost predicate Allowed(pmp: seq<Entry>, a: nat) {
    exists i :: 0 <= i < |pmp| && Decides(pmp, i, a) && pmp[i].perm
  }

  // ---------------------------------------------------------------- regions

  /** A region of the monitor's table; reg is the entry that carries its mode and permissions. */
  datatype Region = Region(addr: nat, size: nat, mode: Mode, overlap: bool, reg: nat)

  predicate Contains(r: Region, a: nat) {
    r.addr <= a < r.addr + r.size
  }

  predicate IsWhole(addr: nat, size: nat) {
    addr == 0 && size == ALL_ONES
  }

  /** region_pmpaddr_val. The alignment of a power-of-two region makes the source's bitwise or an
      addition. */
  function PmpAddr(r: Region): nat {
    if IsWhole(r.addr, r.size) then ALL_ONES
    else match r.mode
      case Napot => (r.addr + (if r.size >= 2 then r.size / 2 - 1 else 0)) / 4
      case Tor => (r.addr + r.size) / 4
      case Off => 0
  }

  /** region_needs_two_entries: a top-of-range region above register 0 keeps its base in the entry
      below. */
  predicate TwoEntries(r: Region) {
    r.mode == Tor && r.reg > 0
  }

  function Regs(r: Region): set<nat> {
    if TwoEntries(r) then {r.reg - 1, r.reg} else {r.reg}
  }

  /** pmp_set_keystone on one hart. */
  function SetRegion(pmp: seq<Entry>, r: Region, perm: bool): (p: seq<Entry>)
    requires r.reg < |pmp|
    ensures |p| == |pmp|
  {
    var top := pmp[r.reg := Entry(r.mode, perm, PmpAddr(r))];
    if TwoEntries(r) then top[r.reg - 1 := Entry(Off, false, r.addr / 4)] else top
  }

  /** pmp_unset on one hart. */
  function UnsetRegion(pmp: seq<Entry>, r: Region): (p: seq<Entry>)
    requires r.reg < |pmp|
    ensures |p| == |pmp|
  {
    var top := pmp[r.reg := Entry(Off, false, 0)];
    if TwoEntries(r) then top[r.reg - 1 := Entry(Off, false, 0)] else top
  }

  ghost predicate IsPow2(n: nat) {
    exists k: nat :: n == Pow2(k)
  }

  /** What the monitor checks of a region before it encodes it. */
  ghost predicate Encodable(r: Region) {
    && (r.mode == Napot ==> IsWhole(r.addr, r.size) || (IsPow2(r.size) && r.size >= PGSIZE && r.addr % r.size == 0))
    && (r.mode == Tor ==> r.addr % PGSIZE == 0 && r.size % PGSIZE == 0 && (r.reg == 0 ==> r.addr == 0))
    && r.mode != Off
  }

  // ---------------------------------------------------------------- encoding against decoding

  /** k ones below an even multiple are exactly k trailing ones. */
  lemma {:induction false} OnesBelow(m: nat, k: nat)
    requires m % 2 == 0
    ensures TrailingOnes(m * Pow2(k) + Pow2(k) - 1) == k
  {
    if k > 0 {
      var n := m * Pow2(k) + Pow2(k) - 1;
      var h := m * Pow2(k - 1) + Pow2(k - 1) - 1;
      Associate(m, 2, Pow2(k - 1));
      assert n == 2 * h + 1;
      ModUnique(n, h, 1, 2);
      OnesBelow(m, k - 1);
    }
  }

  /** The register value of an aligned power-of-two region decodes to exactly that region. */
  lemma NapotRoundTrip(addr: nat, k: nat)
    requires addr % Pow2(k + 3) == 0
    ensures (addr + Pow2(k + 3) / 2 - 1) / 4 == addr / 4 + Pow2(k) - 1
    ensures var v := addr / 4 + Pow2(k) - 1; NapotBase(v) == addr && NapotSize(v) == Pow2(k + 3)
  {
    var p := Pow2(k);
    Pow2Plus3(k);
    var q := addr / (8 * p);
    DivMod(addr, 8 * p);
    Associate(8, p, q);
    assert addr == 8 * (p * q);
    Commute(p, 2 * q);
    Associate(p, 2, q);
    var v := (2 * q) * p + p - 1;
    assert v == addr / 4 + p - 1;
    OnesBelow(2 * q, k);
    Commute(p, 2 * q);
    ModUnique(v, 2 * q, p - 1, p);
  }

  lemma Pow2Double(n: nat, v: nat)
    requires Pow2(n) == v
    ensures Pow2(2 * n) == v * v
  {
    Pow2Add(n, n);
  }

  lemma Pow2Of64(n: nat)
    requires n == 64
    ensures Pow2(n) == TWO64
  {
    var k := n / 32;
    assert Pow2(k) == 4 by { assert k == 2; assert Pow2(k - 1) == 2; }
    Pow2Double(k, 4);
    Pow2Double(2 * k, 16);
    Pow2Double(4 * k, 256);
    Pow2Double(8 * k, 65536);
    Pow2Double(16 * k, 0x1_0000_0000);
  }

  lemma Pow2Plus3(n: nat)
    ensures Pow2(n + 3) == 8 * Pow2(n)
  {
    assert Pow2(n + 3) == 2 * Pow2(n + 2) && Pow2(n + 2) == 2 * Pow2(n + 1) && Pow2(n + 1) == 2 * Pow2(n);
  }

  lemma OnesOf(v: nat, k: nat)
    requires v == Pow2(k) - 1
    ensures TrailingOnes(v) == k && v % Pow2(k) == v
  {
    OnesBelow(0, k);
    SmallMod(v, Pow2(k));
  }

  /** All ones cover every address the machine has. */
  lemma WholeCovers(v: nat, a: nat)
    requires v == ALL_ONES && a < TWO64
    ensures NapotBase(v) <= a < NapotBase(v) + NapotSize(v)
  {
    var k: nat := 64;
    Pow2Of64(k);
    Pow2Plus3(k);
    OnesOf(v, k);
  }

  lemma NapotEntry(r: Region)
    requires Encodable(r) && r.mode == Napot && !IsWhole(r.addr, r.size)
    ensures NapotBase(PmpAddr(r)) == r.addr && NapotSize(PmpAddr(r)) == r.size
  {
    var k: nat :| r.size == Pow2(k);
    SizeExponent(k);
    NapotRoundTrip(r.addr, k - 3);
  }

  lemma TorRange(addr: nat, size: nat, a: nat)
    requires addr % PGSIZE == 0 && size % PGSIZE == 0
    ensures addr / 4 <= a / 4 < (addr + size) / 4 <==> addr <= a < addr + size
  {
    var p, q := addr / PGSIZE, size / PGSIZE;
    DivMod(addr, PGSIZE);
    DivMod(size, PGSIZE);
    ModUnique(addr, 1024 * p, 0, 4);
    ModUnique(addr + size, 1024 * (p + q), 0, 4);
    DivMod(a, 4);
    QuarterOrder(1024 * p, a / 4, a % 4);
    QuarterOrder(1024 * (p + q), a / 4, a % 4);
  }

  lemma QuarterOrder(x: int, y: int, r: int)
    requires 0 <= r < 4
    ensures x <= y <==> 4 * x <= 4 * y + r
  {}

  /** Programming a region makes its entry cover exactly the region's bytes. */
  lemma SetMatches(pmp: seq<Entry>, r: Region, perm: bool, a: nat)
    requires r.reg < |pmp| && Encodable(r) && a < TWO64
    ensures var p := SetRegion(pmp, r, perm);
      && (Matches(p, r.reg, a) <==> Contains(r, a) || IsWhole(r.addr, r.size))
      && p[r.reg].perm == perm
      && (TwoEntries(r) ==> !Matches(p, r.reg - 1, a))
  {
    if r.mode == Napot {
      if IsWhole(r.addr, r.size) {
        WholeCovers(PmpAddr(r), a);
      } else {
        NapotEntry(r);
      }
    } else if !IsWhole(r.addr, r.size) {
      TorRange(r.addr, r.size, a);
    }
  }

  lemma {:induction false} SizeExponent(k: nat)
    requires Pow2(k) >= PGSIZE
    ensures k >= 3
  {
    assert Pow2(0) == 1 && Pow2(1) == 2 && Pow2(2) == 4;
  }
}
