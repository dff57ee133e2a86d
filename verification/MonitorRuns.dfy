/** Isolation over whole runs: the invariant is kept by every call but a creation that takes the bottom
    register, and a run isolates every hart at every point if and only if it makes no such creation. */
module MonitorRuns {
  import opened Bytes
  import opened Pmp
  import opened Regions
  import opened Context
  import opened Monitor
  import opened MonitorCycle
  import opened MonitorInv
  import opened MonitorMemory
  import opened MonitorBoot
  import opened MonitorLife
  import opened MonitorDestroy
  import opened MonitorBottom

  // ---------------------------------------------------------------- one step

  /** The caller's side of a creation. */
  predicate Careful(c: Config, s: State, h: nat, call: Call)
    requires c.nReg > 0 && h < |s.harts|
  {
    call.Create? && !s.harts[h].inEnclave ==> Spares(c, s, call.args)
  }

  lemma SideInv(c: Config, s: State, h: nat, side: Side)
    requires h < |s.harts|
    ensures Inv(c, OnHart(s, h, side)) <==> Inv(c, s)
  {
    var s' := OnHart(s, h, side);
    assert forall k :: 0 <= k < |s.harts| ==>
      (HartOk(c, s'.table, s'.enclaves, s'.harts[k]) <==> HartOk(c, s.table, s.enclaves, s.harts[k]));
    assert SamePlaces(s.harts, s'.harts);
    if LifeOk(s.enclaves, s.harts) {
      SameLife(s.enclaves, s.harts, s'.harts);
    }
    if LifeOk(s.enclaves, s'.harts) {
      SameLife(s.enclaves, s'.harts, s.harts);
    }
  }

  lemma EntryInv(c: Config, s: State, h: nat, eid: nat)
    requires Inv(c, s) && h < |s.harts| && !s.harts[h].inEnclave
    ensures Inv(c, RunEnclave(c, s, h, eid).0) && Inv(c, ResumeEnclave(c, s, h, eid).0)
  {
    if Fit(s, eid, {Fresh}) {
      EnterInv(c, s, h, eid, true);
    } else if Fit(s, eid, {Running, Stopped}) {
      assert Counted(s.enclaves[eid]);
      if s.enclaves[eid].state == Stopped {
        EnterInv(c, s, h, eid, false);
      }
    }
  }

  lemma ExitInv(c: Config, s: State, h: nat, request: U64, pending: set<nat>)
    requires Inv(c, s) && h < |s.harts| && s.harts[h].inEnclave
    ensures Inv(c, StopEnclave(c, s, h, request, s.harts[h].eid, pending).0)
    ensures Inv(c, ExitEnclave(c, s, h, s.harts[h].eid, pending).0)
  {
    LeaveInv(c, s, h, request == STOP_EDGE_CALL_HOST, pending);
    LeaveInv(c, s, h, false, pending);
  }

  /** A call keeps the invariant if and only if it is not a creation that takes the bottom register. */
  lemma EffectInv(c: Config, s: State, h: nat, call: Call)
    requires Inv(c, s) && h < |s.harts|
    ensures Inv(c, Effect(c, s, h, call).0) <==> Careful(c, s, h, call)
  {
    hide TableOk, EnclavesOk, HartsOk, Covered, LifeOk, Spares;
    if Permitted(s.harts[h], call) {
      match call
      case Create(a, verdict) => CreateInv(c, s, h, a, verdict);
      case Destroy(eid) => DestroyInv(c, s, Eid(eid));
      case Run(eid) => EntryInv(c, s, h, Eid(eid));
      case Resume(eid) => EntryInv(c, s, h, Eid(eid));
      case Stop(request, pending) => ExitInv(c, s, h, request, pending);
      case Exit(_, pending) => ExitInv(c, s, h, 0, pending);
      case Interrupt(pending) =>
        SideInv(c, s, h, Interrupted(s.harts[h].side));
        ExitInv(c, OnHart(s, h, Interrupted(s.harts[h].side)), h, STOP_TIMER_INTERRUPT, pending);
      case Compute(side) => SideInv(c, s, h, side);
    }
  }

  lemma StepInv(c: Config, s: State, h: nat, call: Call)
    requires Inv(c, s) && h < |s.harts|
    ensures Inv(c, Step(c, s, h, call)) <==> Careful(c, s, h, call)
  {
    EffectInv(c, s, h, call);
    var (s', code) := Effect(c, s, h, call);
    SideInv(c, s', h, Return(call, s'.harts[h].side, code));
  }

  /** The same of isolation itself. */
  lemma StepIsolates(c: Config, s: State, h: nat, call: Call)
    requires Inv(c, s) && h < |s.harts|
    ensures Isolated(c, Step(c, s, h, call)) <==> Careful(c, s, h, call)
  {
    hide TableOk, EnclavesOk, HartsOk, Covered, LifeOk, Spares, Isolated, CreateEnclave;
    StepInv(c, s, h, call);
    if Careful(c, s, h, call) {
      InvIsolates(c, Step(c, s, h, call));
    } else {
      CreateIsolates(c, s, h, call.args, call.verdict);
      assert Step(c, s, h, call) == Effect(c, s, h, call).0;
    }
  }

  // ---------------------------------------------------------------- whole runs

  /** Every creation of the run spares the bottom register. */
  predicate Legal(c: Config, s: State, run: seq<Event>)
    requires c.nReg > 0
    decreases |run|
  {
    |run| > 0 && run[0].hart < |s.harts| ==>
      && Careful(c, s, run[0].hart, run[0].call)
      && Legal(c, Step(c, s, run[0].hart, run[0].call), run[1..])
  }

  /** Every hart is isolated at every point of the run. */
  ghost predicate AlwaysIsolated(c: Config, s: State, run: seq<Event>)
    requires c.nReg > 0
    decreases |run|
  {
    && Isolated(c, s)
    && (|run| > 0 && run[0].hart < |s.harts| ==> AlwaysIsolated(c, Step(c, s, run[0].hart, run[0].call), run[1..]))
  }

  /** A run isolates throughout if and only if it is legal, and then the invariant holds at its end. */
  lemma {:induction false} RunIsolated(c: Config, s: State, run: seq<Event>)
    requires Inv(c, s)
    ensures AlwaysIsolated(c, s, run) <==> Legal(c, s, run)
    ensures Legal(c, s, run) ==> Inv(c, Exec(c, s, run)) && Isolated(c, Exec(c, s, run))
    decreases |run|
  {
    hide TableOk, EnclavesOk, HartsOk, Covered, LifeOk, Isolated, Step, Careful;
    InvIsolates(c, s);
    if |run| > 0 && run[0].hart < |s.harts| {
      var s' := Step(c, s, run[0].hart, run[0].call);
      StepInv(c, s, run[0].hart, run[0].call);
      StepIsolates(c, s, run[0].hart, run[0].call);
      if Inv(c, s') {
        RunIsolated(c, s', run[1..]);
      } else {
        assert !Isolated(c, s');
        assert !AlwaysIsolated(c, s', run[1..]);
      }
    }
  }

  // ---------------------------------------------------------------- from power-on

  /** Every run from boot: the life cycle's invariant holds at its end, live enclaves and the monitor share no
      address there, and every hart is isolated throughout exactly if no creation takes the bottom register. */
  lemma FromBoot(nReg: nat, maxRegion: nat, smBase: U64, smSize: U64, threads: seq<Thread>, sides: seq<Side>,
                 run: seq<Event>)
    requires nReg > 1 && !IsWhole(smBase, smSize)
    ensures var (t, sm, os) := BootTable(nReg, maxRegion, smBase, smSize);
      sm.Ok? && os.Ok? ==>
        var c := Config(nReg, sm.rid, os.rid);
        var s0 := Boot(c, t, threads, sides);
        var s := Exec(c, s0, run);
        && LifeOk(s.enclaves, s.harts) && MemoryApart(c, s)
        && (AlwaysIsolated(c, s0, run) <==> Legal(c, s0, run))
  {
    hide Inv, MemoryApart, MemoryOk, LifeOk, AlwaysIsolated, Legal, Boot, BootTable, Exec;
    var (t, sm, os) := BootTable(nReg, maxRegion, smBase, smSize);
    if sm.Ok? && os.Ok? {
      var c := Config(nReg, sm.rid, os.rid);
      var s0 := Boot(c, t, threads, sides);
      BootInv(nReg, maxRegion, smBase, smSize, threads, sides);
      InvMemory(c, s0);
      RunLife(c, s0, run);
      RunApart(c, s0, run);
      RunIsolated(c, s0, run);
    }
  }
}
