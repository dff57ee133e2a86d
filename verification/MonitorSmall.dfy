/** A run from boot, on a machine with three registers, to a creation that takes the bottom one: what the host
    loses when it succeeds, what it reaches afterwards, and what it loses when it is refused. */
module MonitorSmall {
  import opened Bytes
  import opened Pmp
  import opened Regions
  import opened Context
  import opened Monitor
  import opened MonitorCycle
  import opened MonitorInv
  import opened MonitorLife
  import opened MonitorDestroy
  import opened MonitorBoot
  import opened MonitorBottom
  import opened Options

  // ---------------------------------------------------------------- what the calls need to succeed

  /** What pmp_region_init needs to succeed. */
  lemma InitSucceeds(t: Table, nReg: nat, start: nat, size: nat, pri: Priority, overlap: bool, i: nat)
    requires nReg > 0 && size > 0 && (overlap || !Collides(t, start, size)) && start % PGSIZE == 0
    requires size == ALL_ONES || size % PGSIZE == 0
    requires PowerRegion(start, size) || pri == Any
    requires PickReg(t.used, nReg, pri, if PowerRegion(start, size) then 1 else 2).Some?
    requires i < |t.regions| && i !in t.defined
    ensures InitRegion(t, nReg, start, size, pri, overlap).1.Ok?
  {
    assert FreeAt(t.defined, i, 1);
  }

  lemma PageIsPower()
    ensures OneBit(0x1000) && !OneBit(0x3000)
  {
    assert OneBit(1) && OneBit(2) && OneBit(4) && OneBit(8) && OneBit(16) && OneBit(32) && OneBit(64);
    assert OneBit(128) && OneBit(256) && OneBit(512) && OneBit(1024) && OneBit(2048);
    assert !OneBit(3) && !OneBit(6) && !OneBit(12) && !OneBit(24) && !OneBit(48) && !OneBit(96) && !OneBit(192);
    assert !OneBit(384) && !OneBit(768) && !OneBit(1536) && !OneBit(3072) && !OneBit(6144);
  }

  /** Three registers, four table entries and a one-page monitor. */
  lemma SmallTable() returns (sm: nat, os: nat, t: Table)
    ensures BootTable(3, 4, 0x8000_0000, 0x1000) == (t, Ok(sm), Ok(os))
    ensures |t.regions| == 4 && t.defined == {sm, os} && t.used == {0, 2}
    ensures sm < 4 && os < 4 && t.regions[sm].addr == 0x8000_0000 && t.regions[sm].size == 0x1000
      && t.regions[os].overlap
  {
    PageIsPower();
    var n: nat := 3;
    var t0 := Table(seq(4, _ => CLEARED), {}, {});
    InitSucceeds(t0, n, 0x8000_0000, 0x1000, Top, false, 0);
    InitResult(t0, n, 0x8000_0000, 0x1000, Top, false);
    var (t1, a) := InitRegion(t0, n, 0x8000_0000, 0x1000, Top, false);
    InitSucceeds(t1, n, 0, ALL_ONES, Bottom, true, if a.rid == 0 then 1 else 0);
    InitResult(t1, n, 0, ALL_ONES, Bottom, true);
    var (t2, b) := InitRegion(t1, n, 0, ALL_ONES, Bottom, true);
    sm, os, t := a.rid, b.rid, t2;
    BootTableOk(n, 4, 0x8000_0000, 0x1000);
  }

  const ONE_PAGE: CreateArgs := CreateArgs(0x9000_0000, 0x1000, 0xA000_0000, 0x1000, 0x9000_0000, 0x9000_0000,
    0x9000_0000)
  const THREE_PAGES: CreateArgs := ONE_PAGE.(epmSize := 0x3000)

  /** What create_enclave needs to succeed. */
  lemma CreateSucceeds(c: Config, s: State, h: nat, a: CreateArgs, i: nat, j: nat)
    requires Inv(c, s) && h < |s.harts| && ArgsValid(a) && FreeEid(s.enclaves, 0).Some?
    requires a.epmAddr % PGSIZE == 0 && a.epmSize % PGSIZE == 0 && a.utmAddr % PGSIZE == 0 && a.utmSize % PGSIZE == 0
    requires PowerRegion(a.utmAddr, a.utmSize) && !Collides(s.table, a.epmAddr, a.epmSize)
      && !Collides(s.table, a.utmAddr, a.utmSize)
    requires a.epmAddr + a.epmSize <= a.utmAddr
    requires PickReg(s.table.used, c.nReg, Any, if PowerRegion(a.epmAddr, a.epmSize) then 1 else 2).Some?
    requires i < |s.table.regions| && i !in s.table.defined && j < |s.table.regions| && j !in s.table.defined && i != j
    ensures CreateEnclave(c, s, h, a, 0).1 == SUCCESS
  {
    ArgsMeaning(a);
    InitSucceeds(s.table, c.nReg, a.epmAddr, a.epmSize, Any, false, i);
    InitResult(s.table, c.nReg, a.epmAddr, a.epmSize, Any, false);
    var (t1, epm) := InitRegion(s.table, c.nReg, a.epmAddr, a.epmSize, Any, false);
    forall k | 0 <= k < |t1.regions| && k in t1.defined && !t1.regions[k].overlap
      ensures !Intersects(t1.regions[k], a.utmAddr, a.utmSize)
    {
      if k != epm.rid {
        assert k in s.table.defined;
        assert !Intersects(s.table.regions[k], a.utmAddr, a.utmSize);
      }
    }
    InitSucceeds(t1, c.nReg, a.utmAddr, a.utmSize, Bottom, false, if epm.rid == i then j else i);
  }

  /** The small machine's table, whatever register marks it has. */
  ghost predicate Small(c: Config, s: State) {
    && Inv(c, s) && c.nReg == 3 && |s.table.regions| == 4 && s.table.defined == {c.sm, c.os}
    && s.table.regions[c.sm].addr == 0x8000_0000 && s.table.regions[c.sm].size == 0x1000
    && |s.harts| == 1 && |s.enclaves| == 1 && s.enclaves[0].state == Invalid
  }

  lemma SmallBoot() returns (c: Config, s: State)
    ensures Small(c, s) && s.table.used == {0, 2} && !s.harts[0].inEnclave
  {
    var sm, os, t := SmallTable();
    var thread := Thread(seq(32, _ => 0), 0, 0, Csrs(0, 0, 0, 0, 0, 0, 0, 0, {}, 0));
    var side := Side(Frame(seq(32, _ => 0), 0, 0), Csrs(0, 0, 0, 0, 0, 0, 0, 0, {}, 0));
    c := Config(3, sm, os);
    s := Boot(c, t, [thread], [side]);
    BootInv(3, 4, 0x8000_0000, 0x1000, [thread], [side]);
    assert s.harts[0] == BootHart(c, t, side) && s.enclaves[0].state == Invalid;
  }

  lemma TwoFree(sm: nat, os: nat) returns (i: nat, j: nat)
    ensures i < 4 && j < 4 && i != j && i !in {sm, os} && j !in {sm, os}
  {
    i := if sm != 0 && os != 0 then 0 else if sm != 1 && os != 1 then 1 else 2;
    j := if i != 3 && sm != 3 && os != 3 then 3 else if i != 2 && sm != 2 && os != 2 then 2 else 1;
  }

  /** The pages asked for are not the monitor's. */
  lemma OffMonitor(c: Config, s: State, a: CreateArgs)
    requires Small(c, s) && (a == ONE_PAGE || a == THREE_PAGES)
    ensures !Collides(s.table, a.epmAddr, a.epmSize) && !Collides(s.table, a.utmAddr, a.utmSize)
  {
    hide EnclavesOk, Covered, HartsOk, LifeOk, TableOk;
  }

  lemma RoomFor(c: Config, s: State, a: CreateArgs)
    requires Small(c, s) && (a == ONE_PAGE || a == THREE_PAGES)
    requires PickReg(s.table.used, c.nReg, Any, if PowerRegion(a.epmAddr, a.epmSize) then 1 else 2).Some?
    ensures CreateEnclave(c, s, 0, a, 0).1 == SUCCESS && FreeEid(s.enclaves, 0) == Some(0)
  {
    hide Inv, CreateEnclave, Collides, PickReg;
    PageIsPower();
    ArgsMeaning(a);
    OffMonitor(c, s, a);
    var i, j := TwoFree(c.sm, c.os);
    CreateSucceeds(c, s, 0, a, i, j);
  }

  lemma FirstOfTwo(c: Config, s: State)
    requires Small(c, s) && s.table.used == {0, 2}
    ensures CreateEnclave(c, s, 0, ONE_PAGE, 0).1 == SUCCESS && FreeEid(s.enclaves, 0) == Some(0)
    ensures AvoidsBottom(s.table, c.nReg, ONE_PAGE.epmAddr, ONE_PAGE.epmSize, Any)
  {
    PageIsPower();
    var n: nat := c.nReg;
    assert FreeAt(s.table.used, 1, 1) && !FreeAt(s.table.used, 0, 1);
    assert Search(s.table.used, n, 1, 0) == Some(1);
    RoomFor(c, s, ONE_PAGE);
  }

  lemma SecondOfTwo(c: Config, s: State)
    requires Small(c, s) && s.table.used == {0}
    ensures CreateEnclave(c, s, 0, THREE_PAGES, 0).1 == SUCCESS
    ensures !AvoidsBottom(s.table, c.nReg, THREE_PAGES.epmAddr, THREE_PAGES.epmSize, Any)
  {
    PageIsPower();
    var n: nat := c.nReg;
    assert FreeAt(s.table.used, 1, 2) && !FreeAt(s.table.used, 0, 2);
    assert Search(s.table.used, n, 2, 0) == Some(1);
    RoomFor(c, s, THREE_PAGES);
  }

  lemma Undone(c: Config, s: State)
    requires Small(c, s) && s.table.used == {0, 2} && !s.harts[0].inEnclave
    ensures CreateEnclave(c, s, 0, ONE_PAGE, 0).1 == SUCCESS
    ensures var (s', code) := DestroyEnclave(CreateEnclave(c, s, 0, ONE_PAGE, 0).0, 0);
      code == SUCCESS && Small(c, s') && s'.table.used == {0} && !s'.harts[0].inEnclave
  {
    FirstOfTwo(c, s);
    CreateThenDestroy(c, s, 0, ONE_PAGE);
    CreateInv(c, s, 0, ONE_PAGE, 0);
    DestroyInv(c, CreateEnclave(c, s, 0, ONE_PAGE, 0).0, 0);
  }

  /** Boot, create a one-page enclave, destroy it, create a three-page one: every call succeeds, and the
      last one leaves the host without access to memory that is nobody's. The destruction cleared the
      shared register's mark, and a three-page region takes two neighbouring registers. Once the new
      enclave has run and been interrupted, the host reaches all of its private memory. */
  lemma IsolationCanFail() returns (c: Config, s0: State)
    ensures Small(c, s0) && !s0.harts[0].inEnclave
    ensures var (s1, code1) := CreateEnclave(c, s0, 0, ONE_PAGE, 0);
      var (s2, code2) := DestroyEnclave(s1, 0);
      && Small(c, s2) && !s2.harts[0].inEnclave
      && var (s3, code3) := CreateEnclave(c, s2, 0, THREE_PAGES, 0);
         && code1 == SUCCESS && code2 == SUCCESS && code3 == SUCCESS && Isolated(c, s2) && !Isolated(c, s3)
         && forall addr, pending :: THREE_PAGES.epmAddr <= addr < THREE_PAGES.epmAddr + THREE_PAGES.epmSize ==>
              Leaks(c, RanOnce(c, s3, 0, 0, pending), 0, 0, addr)
  {
    hide TableOk, EnclavesOk, HartsOk, Covered, LifeOk, Isolated, RanOnce;
    c, s0 := SmallBoot();
    Undone(c, s0);
    var s2 := DestroyEnclave(CreateEnclave(c, s0, 0, ONE_PAGE, 0).0, 0).0;
    InvIsolates(c, s2);
    SecondOfTwo(c, s2);
    CreateIsolates(c, s2, 0, THREE_PAGES, 0);
    forall addr, pending | THREE_PAGES.epmAddr <= addr < THREE_PAGES.epmAddr + THREE_PAGES.epmSize
      ensures Leaks(c, RanOnce(c, CreateEnclave(c, s2, 0, THREE_PAGES, 0).0, 0, 0, pending), 0, 0, addr)
    {
      BottomLeaks(c, s2, 0, THREE_PAGES, 0, pending, addr);
    }
  }

  /** The state in between: one enclave has come and gone. */
  lemma OneGone() returns (c: Config, s0: State, s: State)
    ensures Small(c, s0) && Small(c, s) && s.table.used == {0} && !s.harts[0].inEnclave
    ensures CreateEnclave(c, s0, 0, ONE_PAGE, 0).1 == SUCCESS
    ensures DestroyEnclave(CreateEnclave(c, s0, 0, ONE_PAGE, 0).0, 0) == (s, SUCCESS)
  {
    c, s0 := SmallBoot();
    Undone(c, s0);
    s := DestroyEnclave(CreateEnclave(c, s0, 0, ONE_PAGE, 0).0, 0).0;
  }

  /** There, a three-page creation that the platform or the measurement refuses does not leave the hart as
      it was: an address that is nobody's, before and after, was open to the host and is not any more. */
  lemma UndoCanFail(verdict: U64) returns (c: Config, s0: State, s: State)
    requires verdict != 0
    ensures Small(c, s0) && CreateEnclave(c, s0, 0, ONE_PAGE, 0).1 == SUCCESS
    ensures DestroyEnclave(CreateEnclave(c, s0, 0, ONE_PAGE, 0).0, 0) == (s, SUCCESS) && Small(c, s)
    ensures var (s', code) := CreateEnclave(c, s, 0, THREE_PAGES, verdict);
      && code == verdict && s'.table == s.table && s'.harts != s.harts && Isolated(c, s) && !Isolated(c, s')
      && !Protected(c, s, THREE_PAGES.utmAddr) && !Protected(c, s', THREE_PAGES.utmAddr)
      && Allowed(s.harts[0].pmp, THREE_PAGES.utmAddr) && !Allowed(s'.harts[0].pmp, THREE_PAGES.utmAddr)
  {
    c, s0, s := OneGone();
    SecondOfTwo(c, s);
    InvIsolates(c, s);
    WindowOutside(c, s, 0, THREE_PAGES, verdict);
    BottomCloses(c, s, 0, THREE_PAGES, verdict, 0, THREE_PAGES.utmAddr);
    CreateIsolates(c, s, 0, THREE_PAGES, verdict);
    PlacedThenRefused(c, s, 0, THREE_PAGES, verdict);
    assert Reaches(c, s, s.harts[0], THREE_PAGES.utmAddr);
  }
}
