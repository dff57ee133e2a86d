/** The monitor as it runs: the region table, enclaves[] and the harts, updated in place by the calls. */
module MonitorImpl {
  import opened Bytes
  import opened Pmp
  import opened Regions
  import opened Context
  import opened Monitor
  import opened Options

  class SecurityMonitor {
    const c: Config
    const table: RegionTable
    var enclaves: seq<Enclave>
    var harts: seq<Hart>

    ghost function St(): State
      reads this, table
    {
      State(table.T(), enclaves, harts)
    }

    ghost predicate Valid()
      reads this, table
    {
      table.Valid() && table.nReg == c.nReg
    }

    constructor (c: Config, table: RegionTable, enclaves: seq<Enclave>, harts: seq<Hart>)
      requires table.Valid() && table.nReg == c.nReg
      ensures Valid() && this.c == c && this.table == table && St() == State(table.T(), enclaves, harts)
    {
      this.c, this.table, this.enclaves, this.harts := c, table, enclaves, harts;
    }

    // ---------------------------------------------------------------- loops

    /** encl_alloc_eid's search. */
    method AllocEid() returns (r: Option<nat>)
      ensures r == FreeEid(enclaves, 0)
    {
      var i := 0;
      while i < |enclaves|
        invariant 0 <= i <= |enclaves| && FreeEid(enclaves, i) == FreeEid(enclaves, 0)
      {
        if enclaves[i].state == Invalid {
          return Some(i);
        }
        i := i + 1;
      }
      r := None;
    }

    /** get_enclave_region_index. */
    method RegionIndex(eid: nat, kind: Kind) returns (r: Option<nat>)
      requires eid < |enclaves|
      ensures r == SlotIndex(enclaves[eid].slots, kind, 0)
    {
      var slots := enclaves[eid].slots;
      var i := 0;
      while i < |slots|
        invariant 0 <= i <= |slots| && SlotIndex(slots, kind, i) == SlotIndex(slots, kind, 0)
      {
        if slots[i].kind == kind {
          return Some(i);
        }
        i := i + 1;
      }
      r := None;
    }

    /** send_and_sync_pmp_ipi: every hart acts, one after the other. */
    method Broadcast(rid: nat, unset: bool, perm: bool)
      requires Valid()
      modifies this`harts
      ensures harts == if unset then UnsetGlobal(old(harts), table.T(), rid)
        else SetGlobal(old(harts), table.T(), rid, perm)
    {
      var i := 0;
      while i < |harts|
        invariant 0 <= i <= |harts| == |old(harts)|
        invariant harts[i..] == old(harts)[i..]
        invariant forall k :: 0 <= k < i ==> harts[k] == old(harts)[k].(pmp :=
          if unset then Unprogram(old(harts)[k].pmp, table.T(), rid)
            else Program(old(harts)[k].pmp, table.T(), rid, perm))
      {
        var pmp := ProgramOne(harts[i].pmp, rid, unset, perm);
        assert harts[i] == old(harts)[i..][0];
        harts := harts[i := harts[i].(pmp := pmp)];
        i := i + 1;
      }
    }

    /** pmp_set_keystone and pmp_unset on one hart. */
    method ProgramOne(pmp: seq<Entry>, rid: nat, unset: bool, perm: bool) returns (p: seq<Entry>)
      ensures p == if unset then Unprogram(pmp, table.T(), rid) else Program(pmp, table.T(), rid, perm)
    {
      p := pmp;
      if rid in table.defined && rid < |table.regions| && table.regions[rid].reg < |pmp| {
        var r := table.regions[rid];
        var n := r.reg;
        p := p[n := if unset then Entry(Off, false, 0) else Entry(r.mode, perm, PmpAddr(r))];
        if r.mode == Tor && r.reg > 0 {
          n := n - 1;
          p := p[n := Entry(Off, false, if unset then 0 else r.addr / 4)];
        }
      }
    }

    /** The loop over an enclave's regions in a context switch. */
    method ProgramAll(pmp: seq<Entry>, slots: Slots, perm: bool) returns (p: seq<Entry>)
      ensures p == ProgramSlots(pmp, table.T(), slots, perm)
    {
      p := pmp;
      var i := 0;
      while i < |slots|
        invariant 0 <= i <= |slots| && p == ProgramSlots(pmp, table.T(), slots[..i], perm)
      {
        assert slots[..i + 1][..i] == slots[..i];
        if slots[i].kind != NoRegion {
          p := ProgramOne(p, slots[i].rid, false, perm);
        }
        i := i + 1;
      }
      assert slots[..i] == slots;
    }

    // ---------------------------------------------------------------- context switches

    /** context_switch_to_enclave. */
    method SwitchToEnclave(h: nat, eid: nat, first: bool)
      requires h < |harts| && eid < |enclaves|
      modifies this
      ensures St() == old(Enter(c, St(), h, eid, first))
    {
      var e, hart := enclaves[eid], harts[h];
      var thread, frame, csrs := SwapState(e.thread, hart.side.frame, hart.side.csrs, true);
      thread := thread.(mepc := hart.side.frame.mepc, mstatus := hart.side.frame.mstatus);
      frame := frame.(mepc := e.thread.mepc, mstatus := SwapStatus(hart.side.frame.mstatus, e.thread.mstatus));
      var side := Side(frame, csrs);
      if first {
        side := FirstEntry(side, e.params.dramBase, EntryArgs(e.params));
      }
      var pmp := ProgramOne(hart.pmp, c.os, false, false);
      pmp := ProgramAll(pmp, e.slots, true);
      enclaves := enclaves[eid := e.(state := Running, nThread := Plus32(e.nThread, 1), thread := thread)];
      harts := harts[h := Hart(pmp, true, eid, side)];
    }

    /** context_switch_to_host; `pending` is what it reads in mip. */
    method SwitchToHost(h: nat, eid: nat, edge: bool, pending: set<nat>)
      requires h < |harts| && eid < |enclaves|
      modifies this
      ensures St() == old(Leave(c, St(), h, eid, edge, pending))
    {
      hide ProgramSlots, Program, SwapStatus, Raised;
      var e, hart := enclaves[eid], harts[h];
      var pmp := ProgramAll(hart.pmp, e.slots, false);
      pmp := ProgramOne(pmp, c.os, false, true);
      var thread, frame, csrs := SwapState(e.thread, hart.side.frame, hart.side.csrs, edge);
      thread := thread.(mepc := hart.side.frame.mepc, mstatus := hart.side.frame.mstatus);
      frame := frame.(mepc := e.thread.mepc, mstatus := SwapStatus(hart.side.frame.mstatus, e.thread.mstatus));
      var sip := Deliver(csrs.sip, pending);
      csrs := csrs.(sip := sip);
      var n := Plus32(e.nThread, -1);
      enclaves := enclaves[eid := e.(state := if n == 0 then Stopped else e.state, nThread := n, thread := thread)];
      harts := harts[h := Hart(pmp, false, hart.eid, Side(frame, csrs))];
    }

    // ---------------------------------------------------------------- creation and destruction

    /** create_enclave, with its unwinding in the source's order. */
    method CreateCall(h: nat, a: CreateArgs, verdict: U64) returns (code: U64)
      requires Valid() && h < |harts|
      modifies this, table
      ensures Valid() && (St(), code) == old(CreateEnclave(c, St(), h, a, verdict))
    {
      if !ArgsValid(a) {
        return ILLEGAL_ARGUMENT;
      }
      var eid := AllocEid();
      if eid.None? {
        return NO_FREE_RESOURCE;
      }
      var epm := table.Init(a.epmAddr, a.epmSize, Any, false);
      if !epm.Ok? {
        return PMP_FAILURE;
      }
      var utm := table.Init(a.utmAddr, a.utmSize, Bottom, false);
      var out;
      if !utm.Ok? {
        out := table.Free(epm.rid);
        return PMP_FAILURE;
      }
      var scounteren := harts[h].side.csrs.scounteren;
      Broadcast(epm.rid, false, false);
      enclaves := enclaves[eid.value :=
        NewEnclave(enclaves[eid.value], a, epm.rid, utm.rid, scounteren, if verdict == 0 then Fresh else Invalid)];
      if verdict != 0 {
        Broadcast(epm.rid, true, false);
        out := table.Free(utm.rid);
        out := table.Free(epm.rid);
      }
      code := verdict;
    }

    /** The first loop of destroy_enclave. */
    method DropPrivateRegions(slots: Slots)
      requires Valid()
      modifies this`harts, table
      ensures Valid() && (table.T(), harts) == DropSlots(old(table.T()), old(harts), slots)
    {
      var i := 0;
      while i < |slots|
        invariant 0 <= i <= |slots| && Valid()
        invariant (table.T(), harts) == DropSlots(old(table.T()), old(harts), slots[..i])
      {
        assert slots[..i + 1][..i] == slots[..i];
        if slots[i].kind != NoRegion && slots[i].kind != Utm {
          Broadcast(slots[i].rid, true, false);
          var out := table.Free(slots[i].rid);
        }
        i := i + 1;
      }
      assert slots[..i] == slots;
    }

    /** destroy_enclave. */
    method DestroyCall(eid: nat) returns (code: U64)
      requires Valid()
      modifies this, table
      ensures Valid() && (St(), code) == old(DestroyEnclave(St(), eid))
    {
      if eid >= |enclaves| || enclaves[eid].state == Invalid || enclaves[eid].state == Running {
        return NOT_DESTROYABLE;
      }
      var e := enclaves[eid];
      DropPrivateRegions(e.slots);
      var u := RegionIndex(eid, Utm);
      if u.Some? {
        var out := table.Free(e.slots[u.value].rid);
      }
      enclaves := enclaves[eid := Enclave(Invalid, ClearSlots(e.slots), 0, Params(0, 0, 0, 0, 0, 0, 0), e.thread)];
      code := SUCCESS;
    }

    // ---------------------------------------------------------------- one call

    /** The dispatcher and the sbi_sm_* functions: one atomic step of the state machine. */
    method Dispatch(h: nat, call: Call)
      requires Valid() && h < |harts|
      modifies this, table
      ensures Valid() && St() == old(Step(c, St(), h, call))
    {
      if !Permitted(harts[h], call) {
        return;
      }
      var code := Perform(h, call);
      harts := harts[h := harts[h].(side := Return(call, harts[h].side, code))];
    }

    method Perform(h: nat, call: Call) returns (code: U64)
      requires Valid() && h < |harts| && Permitted(harts[h], call)
      modifies this, table
      ensures Valid() && |harts| == old(|harts|) && (St(), code) == old(Effect(c, St(), h, call))
    {
      match call {
        case Create(a, verdict) =>
          code := CreateCall(h, a, verdict);
        case Destroy(eid) =>
          code := DestroyCall(Eid(eid));
        case Run(eid) =>
          code := EnterCall(h, Eid(eid), true);
        case Resume(eid) =>
          code := EnterCall(h, Eid(eid), false);
        case Stop(request, pending) =>
          code := LeaveCall(h, request == STOP_EDGE_CALL_HOST, StopCode(request), pending);
        case Exit(_, pending) =>
          code := LeaveCall(h, false, SUCCESS, pending);
        case Interrupt(pending) =>
          harts := harts[h := harts[h].(side := Interrupted(harts[h].side))];
          code := LeaveCall(h, false, INTERRUPTED, pending);
        case Compute(side) =>
          harts := harts[h := harts[h].(side := side)];
          code := SUCCESS;
      }
    }

    /** run_enclave and resume_enclave. */
    method EnterCall(h: nat, eid: nat, first: bool) returns (code: U64)
      requires h < |harts|
      modifies this
      ensures (St(), code) == old(if first then RunEnclave(c, St(), h, eid) else ResumeEnclave(c, St(), h, eid))
    {
      if eid < |enclaves| {
        var e := enclaves[eid];
        var ok := if first then e.state == Fresh
          else (e.state == Running || e.state == Stopped) && e.nThread < MAX_ENCL_THREADS;
        if ok {
          SwitchToEnclave(h, eid, first);
          return SUCCESS;
        }
      }
      code := if first then NOT_FRESH else NOT_RESUMABLE;
    }

    /** stop_enclave and exit_enclave on the hart's own enclave. */
    method LeaveCall(h: nat, edge: bool, done: U64, pending: set<nat>) returns (code: U64)
      requires h < |harts|
      modifies this
      ensures (St(), code) == old(if Fit(St(), harts[h].eid, {Running})
                                  then (Leave(c, St(), h, harts[h].eid, edge, pending), done)
                                  else (St(), NOT_RUNNING))
    {
      var eid := harts[h].eid;
      if eid < |enclaves| && enclaves[eid].state == Running {
        SwitchToHost(h, eid, edge, pending);
        return done;
      }
      code := NOT_RUNNING;
    }
  }
}
