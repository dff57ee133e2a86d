/** The register that all shared regions use: a creation isolates, whatever it returns, exactly if its private
    region stays off it, and what the host reaches otherwise. */
module MonitorBottom {
  import opened Bytes
  import opened Pmp
  import opened Regions
  import opened HartPmp
  import opened Context
  import opened Monitor
  import opened MonitorCycle
  import opened MonitorInv
  import opened MonitorCreate
  import opened MonitorLife
  import opened Options

  // ---------------------------------------------------------------- when a creation isolates

  /** The shared window of a new enclave meets no region that excludes overlap. */
  lemma WindowFree(t: Table, nReg: nat, start: nat, size: nat, i: nat)
    requires nReg > 1 && InitRegion(t, nReg, start, size, Bottom, false).1.Ok? && size > 0
    requires i in t.defined && i < |t.regions| && !t.regions[i].overlap
    ensures !Contains(t.regions[i], start)
  {
    InitResult(t, nReg, start, size, Bottom, false);
    assert !Collides(t, start, size);
    assert !Intersects(t.regions[i], start, size);
  }

  lemma ExcludesOverlap(c: Config, t: Table, i: nat)
    requires TableOk(t, c.nReg) && Private(t, c.nReg, i)
    ensures i in t.defined && i < |t.regions| && !t.regions[i].overlap
  {
    assert RegionOk(t.regions[i], c.nReg);
  }

  lemma WindowUnprotected(c: Config, s: State, h: nat, a: CreateArgs)
    requires Inv(c, s) && h < |s.harts| && CreateEnclave(c, s, h, a, 0).1 == SUCCESS
    ensures !Protected(c, CreateEnclave(c, s, h, a, 0).0, a.utmAddr)
  {
    hide HartsOk, Covered, AvoidsBottom, CreateEnclave, InitRegion;
    var t1, epm, t2, utm, eid, e := Created(c, s, h, a, 0);
    PrivateReg(s.table, c.nReg, a.epmAddr, a.epmSize);
    InitResult(s.table, c.nReg, a.epmAddr, a.epmSize, Any, false);
    InitResult(t1, c.nReg, a.utmAddr, a.utmSize, Bottom, false);
    ArgsMeaning(a);
    ExcludesOverlap(c, s.table, c.sm);
    WindowFree(t1, c.nReg, a.utmAddr, a.utmSize, c.sm);
    WindowFree(t1, c.nReg, a.utmAddr, a.utmSize, epm);
    var s' := CreateEnclave(c, s, h, a, 0).0;
    forall f: nat | InEpm(s', f, a.utmAddr)
      ensures false
    {
      if f != eid {
        assert EnclaveOk(c, s.table, s.enclaves[f]);
        ExcludesOverlap(c, s.table, EpmOf(s.enclaves[f]));
        WindowFree(t1, c.nReg, a.utmAddr, a.utmSize, EpmOf(s.enclaves[f]));
      }
    }
  }

  /** Programming a region on the bottom register makes no entry below it match that did not before. */
  lemma BelowBottom(pmp: seq<Entry>, r: Region, perm: bool, k: nat, a: nat)
    requires r.reg + 1 == |pmp| && k < r.reg && Matches(SetRegion(pmp, r, perm), k, a)
    ensures Matches(pmp, k, a)
  {}

  /** Then the hart reaches nothing outside the private regions any more. */
  lemma BottomClosed(t: Table, nReg: nat, pmp: seq<Entry>, own: Option<nat>, shared: nat, r: Region, a: nat)
    requires TableOk(t, nReg) && PmpOk(t, nReg, pmp, own, shared) && a < TWO64 && r.reg + 1 == nReg
    requires forall i: nat :: Private(t, nReg, i) ==> !Contains(t.regions[i], a)
    ensures !Allowed(SetRegion(pmp, r, false), a)
  {
    var p := SetRegion(pmp, r, false);
    forall k | 0 <= k < nReg - 1
      ensures !Matches(p, k, a)
    {
      if Matches(p, k, a) {
        BelowBottom(pmp, r, false, k, a);
        CoveredByOwner(t, nReg, pmp, own, shared, k, a);
      }
    }
  }

  lemma HostClosed(c: Config, s: State, h: nat, r: Region, a: nat)
    requires Inv(c, s) && h < |s.harts| && !s.harts[h].inEnclave && a < TWO64 && r.reg + 1 == c.nReg
    requires !Protected(c, s, a)
    ensures |s.harts[h].pmp| == c.nReg && !Allowed(SetRegion(s.harts[h].pmp, r, false), a)
  {
    assert HartOk(c, s.table, s.enclaves, s.harts[h]);
    PrivateIsProtected(c, s, a);
    BottomClosed(s.table, c.nReg, s.harts[h].pmp, None, c.os, r, a);
  }

  /** What was protected before a creation is protected after it. */
  lemma StillProtected(c: Config, s: State, s': State, eid: nat, a: nat)
    requires Base(c, s.table) && EnclavesOk(c, s.table, s.enclaves) && Extends(s.table, s'.table)
    requires eid < |s.enclaves| && s.enclaves[eid].state == Invalid
    requires |s'.enclaves| == |s.enclaves| && s'.enclaves == s.enclaves[eid := s'.enclaves[eid]]
    requires Protected(c, s, a)
    ensures Protected(c, s', a)
  {
    if !InRegion(s.table, c.sm, a) {
      var f: nat :| InEpm(s, f, a);
      assert EnclaveOk(c, s.table, s.enclaves[f]);
      assert InEpm(s', f, a);
    }
  }

  /** The shared window a creation places is nobody's, before the call and after it. */
  lemma WindowOutside(c: Config, s: State, h: nat, a: CreateArgs, verdict: U64)
    requires Inv(c, s) && h < |s.harts| && Places(c, s, a)
    ensures !Protected(c, s, a.utmAddr) && !Protected(c, CreateEnclave(c, s, h, a, verdict).0, a.utmAddr)
  {
    WindowUnprotected(c, s, h, a);
    if Protected(c, s, a.utmAddr) {
      var t1, epm, t2, utm, eid, e := Created(c, s, h, a, 0);
      BothPlaced(c, s, a, t1, epm, t2, utm);
      StillProtected(c, s, CreateEnclave(c, s, h, a, 0).0, eid, a.utmAddr);
    }
    if verdict != 0 {
      RefusedProtects(c, s, h, a, verdict, a.utmAddr);
    }
  }

  /** A refused creation protects nothing new. */
  lemma RefusedProtects(c: Config, s: State, h: nat, a: CreateArgs, verdict: U64, addr: nat)
    requires Inv(c, s) && h < |s.harts| && Places(c, s, a) && verdict != 0 && !Protected(c, s, addr)
    ensures !Protected(c, CreateEnclave(c, s, h, a, verdict).0, addr)
  {
    hide TableOk, EnclavesOk, HartsOk, Covered, LifeOk, Spares, InitRegion, FreeRegion;
    PlacedThenRefused(c, s, h, a, verdict);
    var s' := CreateEnclave(c, s, h, a, verdict).0;
    forall f: nat
      ensures !InEpm(s', f, addr)
    {
      assert !InEpm(s, f, addr);
    }
  }

  /** Setting and unsetting a region on the bottom register leaves nothing to match there. */
  lemma BlankedBelow(pmp: seq<Entry>, r: Region, k: nat, a: nat)
    requires r.reg + 1 == |pmp| && k < |pmp| && Matches(UnsetRegion(SetRegion(pmp, r, false), r), k, a)
    ensures k < r.reg && Matches(pmp, k, a)
  {}

  lemma HostBlanked(c: Config, s: State, h: nat, r: Region, a: nat)
    requires Inv(c, s) && h < |s.harts| && !s.harts[h].inEnclave && a < TWO64 && r.reg + 1 == c.nReg
    requires !Protected(c, s, a)
    ensures |s.harts[h].pmp| == c.nReg && !Allowed(UnsetRegion(SetRegion(s.harts[h].pmp, r, false), r), a)
  {
    var pmp := s.harts[h].pmp;
    assert HartOk(c, s.table, s.enclaves, s.harts[h]);
    PrivateIsProtected(c, s, a);
    var p := UnsetRegion(SetRegion(pmp, r, false), r);
    forall k | 0 <= k < |p|
      ensures !Matches(p, k, a)
    {
      if Matches(p, k, a) {
        BlankedBelow(pmp, r, k, a);
        CoveredByOwner(s.table, c.nReg, pmp, None, c.os, k, a);
      }
    }
  }

  lemma BottomTaken(c: Config, s: State, h: nat, a: CreateArgs, verdict: U64, k: nat) returns (r: Region)
    requires Inv(c, s) && h < |s.harts| && !Spares(c, s, a) && k < |s.harts|
    ensures r.reg + 1 == c.nReg == |s.harts[k].pmp|
    ensures var p := SetRegion(s.harts[k].pmp, r, false);
      CreateEnclave(c, s, h, a, verdict).0.harts[k].pmp == if verdict == 0 then p else UnsetRegion(p, r)
  {
    hide SetRegion, UnsetRegion, TableOk, EnclavesOk, Covered, LifeOk, AvoidsBottom;
    var t1, epm, t2, utm, eid, e := Created(c, s, h, a, 0);
    BothPlaced(c, s, a, t1, epm, t2, utm);
    r := t2.regions[epm];
    assert HartOk(c, s.table, s.enclaves, s.harts[k]);
  }

  /** A creation whose private region takes the bottom register cuts every host off from everything that
      was nobody's, whether it then succeeds or is refused. */
  lemma BottomCloses(c: Config, s: State, h: nat, a: CreateArgs, verdict: U64, k: nat, addr: nat)
    requires Inv(c, s) && h < |s.harts| && !Spares(c, s, a)
    requires k < |s.harts| && !s.harts[k].inEnclave && addr < TWO64 && !Protected(c, s, addr)
    ensures !Allowed(CreateEnclave(c, s, h, a, verdict).0.harts[k].pmp, addr)
  {
    hide CreateEnclave, Spares, SetRegion, UnsetRegion, TableOk, EnclavesOk, HartsOk, Covered, LifeOk;
    var r := BottomTaken(c, s, h, a, verdict, k);
    HostClosed(c, s, k, r, addr);
    HostBlanked(c, s, k, r, addr);
  }

  /** Exactly when a creation isolates, whatever it returns: iff it is refused before it writes a register
      or the search for free registers, which the caller can repeat beforehand, stays off the bottom one. */
  lemma CreateIsolates(c: Config, s: State, h: nat, a: CreateArgs, verdict: U64)
    requires Inv(c, s) && h < |s.harts| && !s.harts[h].inEnclave
    ensures Isolated(c, CreateEnclave(c, s, h, a, verdict).0) <==> Spares(c, s, a)
  {
    var s' := CreateEnclave(c, s, h, a, verdict).0;
    if Spares(c, s, a) {
      CreateInv(c, s, h, a, verdict);
      InvIsolates(c, s');
    } else {
      WindowOutside(c, s, h, a, verdict);
      BottomCloses(c, s, h, a, verdict, h, a.utmAddr);
      assert !s'.harts[h].inEnclave;
      assert !Reaches(c, s', s'.harts[h], a.utmAddr);
    }
  }

  // ---------------------------------------------------------------- and what follows when it does not

  /** Running an enclave on a hart and interrupting it there. */
  function RanOnce(c: Config, s: State, h: nat, x: U64, pending: set<nat>): State
    requires c.nReg > 0 && h < |s.harts|
  {
    Step(c, Step(c, s, h, Run(x)), h, Interrupt(pending))
  }

  /** The host on hart h reaches an address of the live enclave e's private memory. */
  ghost predicate Leaks(c: Config, s: State, h: nat, e: nat, a: nat) {
    h < |s.harts| && !s.harts[h].inEnclave && InEpm(s, e, a) && Allowed(s.harts[h].pmp, a)
  }

  /** Below the bottom register q covers a only where p does. */
  ghost predicate Below(p: seq<Entry>, q: seq<Entry>, a: nat) {
    |p| == |q| && forall k :: 0 <= k < |p| - 1 && Matches(q, k, a) ==> Matches(p, k, a)
  }

  lemma BelowSet(p: seq<Entry>, q: seq<Entry>, r: Region, perm: bool, a: nat)
    requires Below(p, q, a) && r.reg + 1 == |q|
    ensures Below(p, SetRegion(q, r, perm), a)
  {
    forall k | 0 <= k < |p| - 1 && Matches(SetRegion(q, r, perm), k, a)
      ensures Matches(p, k, a)
    {
      BelowBottom(q, r, perm, k, a);
    }
  }

  /** Closing and opening three regions of the bottom register, in the order of creation, entry and exit. */
  function Cycled(p: seq<Entry>, epm: Region, utm: Region, os: Region): (q: seq<Entry>)
    requires epm.reg + 1 == utm.reg + 1 == os.reg + 1 == |p|
    ensures |q| == |p|
  {
    var inside := SetRegion(SetRegion(SetRegion(SetRegion(p, epm, false), os, false), epm, true), utm, true);
    SetRegion(SetRegion(inside, epm, false), utm, false)
  }

  lemma CycledBelow(p: seq<Entry>, epm: Region, utm: Region, os: Region, a: nat)
    requires epm.reg + 1 == utm.reg + 1 == os.reg + 1 == |p|
    ensures Below(p, SetRegion(Cycled(p, epm, utm, os), os, true), a)
  {
    hide SetRegion, Matches;
    var p1 := SetRegion(p, epm, false);
    BelowSet(p, p, epm, false, a);
    BelowSet(p, p1, os, false, a);
    var p2 := SetRegion(p1, os, false);
    BelowSet(p, p2, epm, true, a);
    var p3 := SetRegion(p2, epm, true);
    BelowSet(p, p3, utm, true, a);
    var p4 := SetRegion(p3, utm, true);
    BelowSet(p, p4, epm, false, a);
    var p5 := SetRegion(p4, epm, false);
    BelowSet(p, p5, utm, false, a);
    BelowSet(p, SetRegion(p5, utm, false), os, true, a);
  }

  /** With the system's region on the bottom register and nothing below it matching, the hart gets in. */
  lemma OpenAtBottom(p: seq<Entry>, q: seq<Entry>, os: Region, a: nat)
    requires |q| > 0 && os.reg + 1 == |q| && Encodable(os) && IsWhole(os.addr, os.size) && a < TWO64
    requires Below(p, SetRegion(q, os, true), a) && forall k :: 0 <= k < |p| - 1 ==> !Matches(p, k, a)
    ensures Allowed(SetRegion(q, os, true), a)
  {
    SetMatches(q, os, true, a);
    assert Decides(SetRegion(q, os, true), os.reg, a);
  }

  /** A hart outside enclaves has no entry above the bottom one for an address that is nobody's yet. */
  lemma NothingBelow(c: Config, s: State, h: nat, a: CreateArgs, addr: nat)
    requires Inv(c, s) && h < |s.harts| && !s.harts[h].inEnclave && CreateEnclave(c, s, h, a, 0).1 == SUCCESS
    requires a.epmAddr <= addr < a.epmAddr + a.epmSize
    ensures addr < TWO64 && |s.harts[h].pmp| == c.nReg
      && forall k :: 0 <= k < c.nReg - 1 ==> !Matches(s.harts[h].pmp, k, addr)
  {
    var t1, epm, t2, utm, eid, e := Created(c, s, h, a, 0);
    InitResult(s.table, c.nReg, a.epmAddr, a.epmSize, Any, false);
    assert HartOk(c, s.table, s.enclaves, s.harts[h]);
    forall i: nat | Private(s.table, c.nReg, i)
      ensures !Contains(s.table.regions[i], addr)
    {
      ExcludesOverlap(c, s.table, i);
      assert !Intersects(s.table.regions[i], a.epmAddr, a.epmSize);
    }
    forall k | 0 <= k < c.nReg - 1
      ensures !Matches(s.harts[h].pmp, k, addr)
    {
      if Matches(s.harts[h].pmp, k, addr) {
        CoveredByOwner(s.table, c.nReg, s.harts[h].pmp, None, c.os, k, addr);
      }
    }
  }

  /** What running a fresh enclave on a hart and interrupting it does to the hart's registers. */
  lemma RanPmp(c: Config, s: State, h: nat, x: U64, pending: set<nat>)
    requires c.nReg > 0 && h < |s.harts| && !s.harts[h].inEnclave && Fit(s, Eid(x), {Fresh})
    requires var e := s.enclaves[Eid(x)];
      e.slots[0].kind == Epm && e.slots[1].kind == Utm && Shaped(e) && e.nThread == 0
    ensures var e, t, s3 := s.enclaves[Eid(x)], s.table, RanOnce(c, s, h, x, pending);
      var inside := Program(Program(Program(s.harts[h].pmp, t, c.os, false), t, EpmOf(e), true), t, UtmOf(e), true);
      && |s3.harts| == |s.harts| && !s3.harts[h].inEnclave && s3.table == t
      && |s3.enclaves| == |s.enclaves| && s3.enclaves[Eid(x)].slots == e.slots && s3.enclaves[Eid(x)].state == Stopped
      && s3.harts[h].pmp == Program(Program(Program(inside, t, EpmOf(e), false), t, UtmOf(e), false), t, c.os, true)
  {
    hide Program, Switch, FirstEntry, Delivered, Return;
    var e, t := s.enclaves[Eid(x)], s.table;
    SlotsFold(Program(s.harts[h].pmp, t, c.os, false), t, e.slots, true);
    var s2 := Step(c, s, h, Run(x));
    assert s2.harts[h].inEnclave && s2.harts[h].eid == Eid(x) && s2.enclaves[Eid(x)].slots == e.slots
        && s2.enclaves[Eid(x)].nThread == 1 && s2.enclaves[Eid(x)].state == Running && s2.table == t;
    SlotsFold(s2.harts[h].pmp, t, e.slots, false);
  }

  /** What creating, running and interrupting on one hart does to its registers and to the new enclave. */
  lemma CycledRun(c: Config, s: State, h: nat, a: CreateArgs, x: U64, pending: set<nat>)
    returns (epm: Region, utm: Region)
    requires Inv(c, s) && h < |s.harts| && !s.harts[h].inEnclave && CreateEnclave(c, s, h, a, 0).1 == SUCCESS
    requires FreeEid(s.enclaves, 0) == Some(Eid(x)) && !AvoidsBottom(s.table, c.nReg, a.epmAddr, a.epmSize, Any)
    requires |s.harts[h].pmp| == c.nReg
    ensures epm.addr == a.epmAddr && epm.size == a.epmSize
    ensures var os, s3 := s.table.regions[c.os], RanOnce(c, CreateEnclave(c, s, h, a, 0).0, h, x, pending);
      && epm.reg + 1 == utm.reg + 1 == os.reg + 1 == c.nReg
      && h < |s3.harts| && !s3.harts[h].inEnclave && Eid(x) < |s3.enclaves| && Live(s3.enclaves[Eid(x)])
      && EpmOf(s3.enclaves[Eid(x)]) < |s3.table.regions| && s3.table.regions[EpmOf(s3.enclaves[Eid(x)])] == epm
      && s3.harts[h].pmp == SetRegion(Cycled(s.harts[h].pmp, epm, utm, os), os, true)
  {
    hide CreateEnclave, Step, SetRegion, TableOk, EnclavesOk, HartsOk, Covered, AvoidsBottom;
    var t1, e0, t2, u0, eid, e := Created(c, s, h, a, 0);
    PrivateReg(s.table, c.nReg, a.epmAddr, a.epmSize);
    InitResult(s.table, c.nReg, a.epmAddr, a.epmSize, Any, false);
    InitResult(t1, c.nReg, a.utmAddr, a.utmSize, Bottom, false);
    NewShaped(c, s, eid, a, e0, u0, s.harts[h].side.csrs.scounteren);
    epm, utm := t2.regions[e0], t2.regions[u0];
    var s1 := CreateEnclave(c, s, h, a, 0).0;
    RanPmp(c, s1, h, x, pending);
  }

  /** If a creation's private region takes the shared register, then running the enclave and interrupting it
      writes the system's open entry over that region's, and the host reaches all of it. */
  lemma BottomLeaks(c: Config, s: State, h: nat, a: CreateArgs, x: U64, pending: set<nat>, addr: nat)
    requires Inv(c, s) && h < |s.harts| && !s.harts[h].inEnclave && CreateEnclave(c, s, h, a, 0).1 == SUCCESS
    requires FreeEid(s.enclaves, 0) == Some(Eid(x)) && !AvoidsBottom(s.table, c.nReg, a.epmAddr, a.epmSize, Any)
    requires a.epmAddr <= addr < a.epmAddr + a.epmSize
    ensures Leaks(c, RanOnce(c, CreateEnclave(c, s, h, a, 0).0, h, x, pending), h, Eid(x), addr)
  {
    hide Step, CreateEnclave, AvoidsBottom, Cycled, SetRegion, Matches;
    NothingBelow(c, s, h, a, addr);
    var epm, utm := CycledRun(c, s, h, a, x, pending);
    var p, os := s.harts[h].pmp, s.table.regions[c.os];
    CycledBelow(p, epm, utm, os, addr);
    assert RegionOk(os, c.nReg);
    OpenAtBottom(p, Cycled(p, epm, utm, os), os, addr);
  }
}
