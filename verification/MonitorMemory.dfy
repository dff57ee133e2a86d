/** Whose memory is whose, over every run of the monitor: the regions of live enclaves and the monitor's own
    never meet, whichever registers they were given and however creations and destructions interleave. */
module MonitorMemory {
  import opened Bytes
  import opened Pmp
  import opened Regions
  import opened Context
  import opened Monitor
  import opened MonitorCycle
  import opened MonitorInv
  import opened MonitorDestroy

  // ---------------------------------------------------------------- the invariant

  predicate Excludes(t: Table, i: nat) {
    i in t.defined && i < |t.regions| && !t.regions[i].overlap
  }

  /** A live enclave has a private and a shared region, two different ones that exclude overlap. */
  predicate Holds(c: Config, t: Table, e: Enclave) {
    && Shaped(e)
    && (Live(e) ==>
          && e.slots[0].kind == Epm && e.slots[1].kind == Utm && EpmOf(e) != UtmOf(e)
          && Excludes(t, EpmOf(e)) && Excludes(t, UtmOf(e)) && c.sm !in Both(e))
  }

  function Both(e: Enclave): set<nat> {
    {EpmOf(e), UtmOf(e)}
  }

  ghost predicate InTable(t: Table) {
    (forall i :: i in t.defined ==> i < |t.regions|) && Apart(t)
  }

  ghost predicate HoldersOk(c: Config, t: Table, es: seq<Enclave>) {
    && Excludes(t, c.sm)
    && (forall i :: 0 <= i < |es| ==> Holds(c, t, es[i]))
    && (forall i, j :: 0 <= i < |es| && 0 <= j < |es| && i != j && Live(es[i]) && Live(es[j]) ==>
          Both(es[i]) !! Both(es[j]))
  }

  ghost predicate MemoryOk(c: Config, s: State) {
    InTable(s.table) && HoldersOk(c, s.table, s.enclaves)
  }

  // ---------------------------------------------------------------- regions

  lemma InitApart(t: Table, nReg: nat, start: nat, size: nat, pri: Priority, overlap: bool)
    requires nReg > 0 && InTable(t)
    ensures InTable(InitRegion(t, nReg, start, size, pri, overlap).0)
  {
    if overlap || !Collides(t, start, size) {
      PlaceApart(t, start, size, Napot, overlap, PickReg(t.used, nReg, pri, 1));
      PlaceApart(t, start, size, Tor, overlap, PickReg(t.used, nReg, pri, 2));
    }
  }

  lemma FreeApart(t: Table, rid: nat)
    requires InTable(t)
    ensures InTable(FreeRegion(t, rid).0)
  {}

  /** A new region gets a number nobody has. */
  lemma InitFresh(t: Table, nReg: nat, start: nat, size: nat, pri: Priority)
    requires nReg > 0
    ensures var (t', out) := InitRegion(t, nReg, start, size, pri, false);
      && (!out.Ok? ==> t' == t)
      && (out.Ok? ==>
            && out.rid !in t.defined && Excludes(t', out.rid) && t'.defined == t.defined + {out.rid}
            && |t'.regions| == |t.regions|
            && (forall i :: 0 <= i < |t.regions| && i != out.rid ==> t'.regions[i] == t.regions[i]))
  {
    var out := InitRegion(t, nReg, start, size, pri, false).1;
    assert out.Ok? ==> FreeAt(t.defined, out.rid, 1);
  }

  // ---------------------------------------------------------------- every step keeps it

  /** One enclave's record changes but keeps its regions and stays live. */
  lemma SameHolder(c: Config, t: Table, es: seq<Enclave>, eid: nat, e: Enclave)
    requires HoldersOk(c, t, es) && eid < |es| && Live(es[eid]) && Live(e) && e.slots == es[eid].slots
    ensures HoldersOk(c, t, es[eid := e])
  {
    var es' := es[eid := e];
    forall i | 0 <= i < |es'|
      ensures Holds(c, t, es'[i])
    {
      assert Holds(c, t, es[i]);
    }
  }

  /** An invalid entry becomes the holder of two new regions, or stays invalid. */
  lemma NewHolder(c: Config, t: Table, t2: Table, es: seq<Enclave>, eid: nat, e: Enclave)
    requires HoldersOk(c, t, es) && eid < |es| && es[eid].state == Invalid
    requires forall i: nat :: Excludes(t, i) ==> Excludes(t2, i)
    requires Holds(c, t2, e) && (Live(e) ==> Both(e) !! t.defined)
    ensures HoldersOk(c, t2, es[eid := e])
  {
    var es' := es[eid := e];
    forall i | 0 <= i < |es| && i != eid
      ensures Holds(c, t2, es'[i]) && (Live(es'[i]) && Live(e) ==> Both(es'[i]) !! Both(e))
    {
      assert Holds(c, t, es[i]);
    }
  }

  /** A holder goes, and its two regions with it. */
  lemma LostHolder(c: Config, t: Table, es: seq<Enclave>, eid: nat, e: Enclave)
    requires HoldersOk(c, t, es) && eid < |es| && Live(es[eid]) && e.state == Invalid && Shaped(e)
    ensures HoldersOk(c, FreeRegion(FreeRegion(t, EpmOf(es[eid])).0, UtmOf(es[eid])).0, es[eid := e])
  {
    var es', t2 := es[eid := e], FreeRegion(FreeRegion(t, EpmOf(es[eid])).0, UtmOf(es[eid])).0;
    assert Holds(c, t, es[eid]);
    assert forall i: nat :: Excludes(t, i) && i !in Both(es[eid]) ==> Excludes(t2, i);
    forall i | 0 <= i < |es| && i != eid
      ensures Holds(c, t2, es'[i])
    {
      assert Holds(c, t, es[i]);
      assert Live(es[i]) ==> Both(es[i]) !! Both(es[eid]);
    }
  }

  lemma CreateMemory(c: Config, s: State, h: nat, a: CreateArgs, verdict: U64)
    requires MemoryOk(c, s) && h < |s.harts| && c.nReg > 0
    ensures MemoryOk(c, CreateEnclave(c, s, h, a, verdict).0)
  {
    var s', eid := CreateEnclave(c, s, h, a, verdict).0, FreeEid(s.enclaves, 0);
    var (t1, epm) := InitRegion(s.table, c.nReg, a.epmAddr, a.epmSize, Any, false);
    var (t2, utm) := InitRegion(t1, c.nReg, a.utmAddr, a.utmSize, Bottom, false);
    InitApart(s.table, c.nReg, a.epmAddr, a.epmSize, Any, false);
    InitApart(t1, c.nReg, a.utmAddr, a.utmSize, Bottom, false);
    InitFresh(s.table, c.nReg, a.epmAddr, a.epmSize, Any);
    InitFresh(t1, c.nReg, a.utmAddr, a.utmSize, Bottom);
    hide InitRegion;
    if ArgsValid(a) && eid.Some? && epm.Ok? {
      var e := s'.enclaves[eid.value];
      assert Holds(c, s.table, s.enclaves[eid.value]);
      if utm.Ok? {
        FreeApart(t2, utm.rid);
        FreeApart(FreeRegion(t2, utm.rid).0, epm.rid);
        NewHolder(c, s.table, s'.table, s.enclaves, eid.value, e);
      } else {
        FreeApart(t1, epm.rid);
        NewHolder(c, s.table, s'.table, s.enclaves, eid.value, s.enclaves[eid.value]);
        assert s.enclaves[eid.value := s.enclaves[eid.value]] == s.enclaves;
      }
    }
  }

  lemma DestroyMemory(c: Config, s: State, eid: nat)
    requires MemoryOk(c, s) && LifeOk(s.enclaves, s.harts)
    ensures MemoryOk(c, DestroyEnclave(s, eid).0)
  {
    if eid < |s.enclaves| {
      var e := s.enclaves[eid];
      assert Counted(e) && Holds(c, s.table, e);
      if Fit(s, eid, {Fresh, Stopped}) {
        DestroyResult(s, eid);
        var s' := DestroyEnclave(s, eid).0;
        FreeApart(s.table, EpmOf(e));
        FreeApart(FreeRegion(s.table, EpmOf(e)).0, UtmOf(e));
        LostHolder(c, s.table, s.enclaves, eid, s'.enclaves[eid]);
      }
    }
  }

  lemma EntryMemory(c: Config, s: State, h: nat, eid: nat)
    requires MemoryOk(c, s) && h < |s.harts|
    ensures MemoryOk(c, RunEnclave(c, s, h, eid).0) && MemoryOk(c, ResumeEnclave(c, s, h, eid).0)
  {
    if Fit(s, eid, {Fresh, Stopped, Running}) {
      SameHolder(c, s.table, s.enclaves, eid, Enter(c, s, h, eid, true).enclaves[eid]);
      SameHolder(c, s.table, s.enclaves, eid, Enter(c, s, h, eid, false).enclaves[eid]);
    }
  }

  lemma LeaveMemory(c: Config, s: State, h: nat, eid: nat, edge: bool, pending: set<nat>)
    requires MemoryOk(c, s) && h < |s.harts| && Fit(s, eid, {Running})
    ensures MemoryOk(c, Leave(c, s, h, eid, edge, pending))
  {
    SameHolder(c, s.table, s.enclaves, eid, Leave(c, s, h, eid, edge, pending).enclaves[eid]);
  }

  /** Every call keeps it, whatever it is given and whatever it returns. */
  lemma StepMemory(c: Config, s: State, h: nat, call: Call)
    requires MemoryOk(c, s) && LifeOk(s.enclaves, s.harts) && h < |s.harts| && c.nReg > 0
    ensures MemoryOk(c, Step(c, s, h, call))
  {
    hide InTable, HoldersOk, LifeOk, CreateEnclave, DestroyEnclave, RunEnclave, ResumeEnclave, Leave;
    if Permitted(s.harts[h], call) {
      var eid := s.harts[h].eid;
      match call
      case Create(a, verdict) => CreateMemory(c, s, h, a, verdict);
      case Destroy(x) => DestroyMemory(c, s, Eid(x));
      case Run(x) => EntryMemory(c, s, h, Eid(x));
      case Resume(x) => EntryMemory(c, s, h, Eid(x));
      case Stop(request, pending) =>
        if Fit(s, eid, {Running}) {
          LeaveMemory(c, s, h, eid, request == STOP_EDGE_CALL_HOST, pending);
        }
      case Exit(_, pending) =>
        if Fit(s, eid, {Running}) {
          LeaveMemory(c, s, h, eid, false, pending);
        }
      case Interrupt(pending) =>
        if Fit(s, eid, {Running}) {
          LeaveMemory(c, OnHart(s, h, Interrupted(s.harts[h].side)), h, eid, false, pending);
        }
      case Compute(_) =>
    }
  }

  // ---------------------------------------------------------------- what it means

  /** No region of a live enclave meets the monitor's or another live enclave's, and its own two are apart. */
  ghost predicate MemoryApart(c: Config, s: State) {
    && (forall e: nat, f: nat, a: nat :: OwnMemory(s, e, a) && OwnMemory(s, f, a) ==> e == f)
    && (forall e: nat, a: nat :: OwnMemory(s, e, a) ==> !InRegion(s.table, c.sm, a))
    && (forall e: nat, a: nat :: InEpm(s, e, a) ==> !InRegion(s.table, UtmOf(s.enclaves[e]), a))
  }

  lemma HoldersApart(c: Config, s: State)
    requires MemoryOk(c, s)
    ensures MemoryApart(c, s)
  {
    var t, es := s.table, s.enclaves;
    forall e: nat, a: nat | OwnMemory(s, e, a)
      ensures !InRegion(t, c.sm, a) && !(InRegion(t, EpmOf(es[e]), a) && InRegion(t, UtmOf(es[e]), a))
    {
      assert Holds(c, t, es[e]);
      Disjoint(t, EpmOf(es[e]), UtmOf(es[e]), a);
      Disjoint(t, EpmOf(es[e]), c.sm, a);
      Disjoint(t, UtmOf(es[e]), c.sm, a);
    }
    forall e: nat, f: nat, a: nat | OwnMemory(s, e, a) && OwnMemory(s, f, a)
      ensures e == f
    {
      if e != f {
        assert Holds(c, t, es[e]) && Holds(c, t, es[f]) && Both(es[e]) !! Both(es[f]);
        assert EpmOf(es[e]) in Both(es[e]) && UtmOf(es[e]) in Both(es[e]);
        Disjoint(t, EpmOf(es[e]), EpmOf(es[f]), a);
        Disjoint(t, EpmOf(es[e]), UtmOf(es[f]), a);
        Disjoint(t, UtmOf(es[e]), EpmOf(es[f]), a);
        Disjoint(t, UtmOf(es[e]), UtmOf(es[f]), a);
      }
    }
  }

  /** Over every run, with no condition on its calls, the memory of live enclaves stays apart. */
  lemma {:induction false} RunApart(c: Config, s: State, run: seq<Event>)
    requires MemoryOk(c, s) && LifeOk(s.enclaves, s.harts) && c.nReg > 0
    ensures MemoryOk(c, Exec(c, s, run)) && MemoryApart(c, Exec(c, s, run))
    decreases |run|
  {
    hide MemoryOk, MemoryApart, LifeOk, Step;
    if |run| == 0 || run[0].hart >= |s.harts| {
      HoldersApart(c, s);
    } else {
      StepMemory(c, s, run[0].hart, run[0].call);
      StepLife(c, s, run[0].hart, run[0].call);
      RunApart(c, Step(c, s, run[0].hart, run[0].call), run[1..]);
    }
  }

  /** The full invariant, which also speaks of registers, contains this one. */
  lemma InvMemory(c: Config, s: State)
    requires Inv(c, s)
    ensures MemoryOk(c, s) && LifeOk(s.enclaves, s.harts)
  {
    var t, es := s.table, s.enclaves;
    assert RegionOk(t.regions[c.sm], c.nReg);
    forall i | 0 <= i < |es|
      ensures Holds(c, t, es[i])
    {
      assert EnclaveOk(c, t, es[i]);
      assert Live(es[i]) ==> RegionOk(t.regions[EpmOf(es[i])], c.nReg);
    }
    forall i, j | 0 <= i < |es| && 0 <= j < |es| && i != j && Live(es[i]) && Live(es[j])
      ensures Both(es[i]) !! Both(es[j])
    {
      assert EnclaveOk(c, t, es[i]) && EnclaveOk(c, t, es[j]);
    }
  }
}
