/** Context switches are transparent: what an enclave finds when it gets the hart back is what it left,
    whatever other harts and enclaves did in the meantime; a host finds that and the interrupts that
    became pending for it. */
module MonitorContext {
  import opened Bytes
  import opened Context
  import opened Monitor
  import opened MonitorCycle
  import opened Options

  /** Registers x1 to x31 but for those in `except` and the seven status fields are the same, the
      supervisor registers are as given, and execution continues at pc. Another status bit is set if it
      was set then or on the other side of the switch back. */
  ghost predicate Continues(before: Side, other: Side, after: Side, pc: U64, except: set<nat>, csrs: Csrs) {
    && SameRegisters(before.frame.x, after.frame.x, except)
    && after.csrs == csrs && after.frame.mepc == pc
    && SameStatus(before.frame.mstatus, other.frame.mstatus, after.frame.mstatus)
  }

  predicate SameRegisters(before: RegFile, after: RegFile, except: set<nat>) {
    forall i :: 1 <= i < 32 && i !in except ==> after[i] == before[i]
  }

  predicate SameStatus(before: bv64, other: bv64, after: bv64) {
    Fields(after) == Fields(before) && Others(after) == Others(before) | Others(other)
  }

  // ---------------------------------------------------------------- the record in between

  predicate Edge(call: Call) {
    call.Stop? && call.request == 1
  }

  /** What is saved when a hart leaves. */
  function Saved(call: Call, side: Side): Side {
    if call.Interrupt? then Interrupted(side) else side
  }

  lemma LeaveRecord(c: Config, s: State, h: nat, call: Call)
    requires LifeOk(s.enclaves, s.harts) && c.nReg > 0 && h < |s.harts|
    requires s.harts[h].inEnclave && (call.Stop? || call.Exit? || call.Interrupt?)
    ensures var s', eid := Step(c, s, h, call), s.harts[h].eid;
      && Fit(s, eid, {Running}) && Fit(s', eid, {Stopped})
      && s'.enclaves[eid].thread == Switch(s.enclaves[eid].thread, Saved(call, s.harts[h].side), Edge(call)).0
      && s'.harts[h].side ==
           Return(call, Delivered(Switch(s.enclaves[eid].thread, Saved(call, s.harts[h].side), Edge(call)).1,
             call.pending), Effect(c, s, h, call).1)
  {
    LeavingSucceeds(c, s, h, call);
  }

  lemma EnterRecord(c: Config, s: State, h: nat, x: U64, first: bool)
    requires c.nReg > 0 && h < |s.harts| && !s.harts[h].inEnclave
    requires Fit(s, Eid(x), {if first then Fresh else Stopped}) && s.enclaves[Eid(x)].nThread == 0
    ensures var s', e := Step(c, s, h, if first then Run(x) else Resume(x)), s.enclaves[Eid(x)];
      var (thread, side) := Switch(e.thread, s.harts[h].side, true);
      && |s'.enclaves| == |s.enclaves| && s'.enclaves[Eid(x)].thread == thread && Inside(s'.harts, h, Eid(x))
      && s'.harts[h].side ==
           if first then Epilogue(FirstEntry(side, e.params.dramBase, EntryArgs(e.params)), SUCCESS)
           else ResumeEpilogue(side, SUCCESS)
  {}

  // ---------------------------------------------------------------- the enclave's view

  lemma StatusThrough(thread: Thread, side: Side, edge: bool, other: Side)
    ensures var saved := Switch(thread, side, edge).0;
      SameStatus(side.frame.mstatus, other.frame.mstatus, Switch(saved, other, true).1.frame.mstatus)
      && SameStatus(side.frame.mstatus, other.frame.mstatus, Switch(saved, other, false).1.frame.mstatus)
  {
    hide SameStatus, SwapStatus;
    StatusBack(other.frame.mstatus, side.frame.mstatus);
  }

  lemma StatusBack(current: bv64, saved: bv64)
    ensures SameStatus(saved, current, SwapStatus(current, saved))
  {
    StatusFields(current, saved);
  }

  lemma ThereAndBack(thread: Thread, side: Side, edge: bool, host: Side)
    ensures var back := Switch(Switch(thread, side, edge).0, host, true).1;
      var after := ResumeEpilogue(back, SUCCESS);
      && SameRegisters(side.frame.x, after.frame.x, if edge then {A0} else {})
      && after.csrs == side.csrs && after.frame.mepc == Plus4(side.frame.mepc)
      && after.frame.mstatus == back.frame.mstatus && (edge ==> after.frame.x[A0] == SUCCESS)
  {}

  lemma Resumed(call: Call, thread: Thread, side: Side, host: Side)
    requires call.Stop? || call.Interrupt?
    ensures var after := ResumeEpilogue(Switch(Switch(thread, Saved(call, side), Edge(call)).0, host, true).1, SUCCESS);
      && Continues(side, host, after, (side.frame.mepc + if call.Interrupt? then 0 else 4) % TWO64,
                   if Edge(call) then {10} else {}, side.csrs)
      && (Edge(call) ==> after.frame.x[10] == 0)
  {
    hide SameStatus, SwapStatus;
    var saved := Saved(call, side);
    ThereAndBack(thread, saved, Edge(call), host);
    StatusThrough(thread, saved, Edge(call), host);
    PcRoundTrip(side.frame.mepc);
  }

  /** An enclave stopped on hart h and resumed later on any hart k, after any run in which it stayed
      stopped, continues where it was: behind its call, or at the interrupted instruction. Only the
      result register of an edge call differs. */
  lemma StopResume(c: Config, s: State, h: nat, call: Call, run: seq<Event>, k: nat, x: U64)
    requires LifeOk(s.enclaves, s.harts) && c.nReg > 0 && Inside(s.harts, h, Eid(x)) && (call.Stop? || call.Interrupt?)
    requires Stays(c, Step(c, s, h, call), run, Eid(x), {Stopped})
    requires k < |Exec(c, Step(c, s, h, call), run).harts| && !Exec(c, Step(c, s, h, call), run).harts[k].inEnclave
    ensures var s2 := Exec(c, Step(c, s, h, call), run);
      var s' := Step(c, s2, k, Resume(x));
      && Inside(s'.harts, k, Eid(x))
      && Continues(s.harts[h].side, s2.harts[k].side, s'.harts[k].side,
                   (s.harts[h].side.frame.mepc + if call.Interrupt? then 0 else 4) % TWO64,
                   if Edge(call) then {10} else {}, s.harts[h].side.csrs)
      && (Edge(call) ==> s'.harts[k].side.frame.x[10] == 0)
  {
    hide Exclusive, Continues, Switch, Saved, ResumeEpilogue, Stays;
    var s1 := Step(c, s, h, call);
    var s2 := Exec(c, s1, run);
    LeaveRecord(c, s, h, call);
    StepLife(c, s, h, call);
    IdleRun(c, s1, run, Eid(x), Stopped);
    RunLife(c, s1, run);
    assert Counted(s2.enclaves[Eid(x)]);
    EnterRecord(c, s2, k, x, false);
    Resumed(call, s.enclaves[Eid(x)].thread, s.harts[h].side, s2.harts[k].side);
  }

  // ---------------------------------------------------------------- the host's view

  lemma OutAndBack(thread: Thread, host: Side, inside: Side, edge: bool, call: Call, code: U64)
    requires call.Stop? || call.Exit? || call.Interrupt?
    ensures var back := Switch(Switch(thread, host, true).0, inside, edge).1;
      var after := Return(call, Delivered(back, call.pending), code);
      && SameRegisters(host.frame.x, after.frame.x, if call.Exit? then {A0, A1} else {A0})
      && after.csrs == Delivered(host, call.pending).csrs && after.frame.mepc == Plus4(host.frame.mepc)
      && after.frame.mstatus == back.frame.mstatus
      && after.frame.x[A0] == code && (call.Exit? ==> after.frame.x[A1] == call.retval)
  {}

  lemma Returned(thread: Thread, host: Side, inside: Side, call: Call, code: U64)
    requires call.Stop? || call.Exit? || call.Interrupt?
    ensures var back := Switch(Switch(thread, host, true).0, Saved(call, inside), Edge(call)).1;
      var after := Return(call, Delivered(back, call.pending), code);
      && Continues(host, inside, after, (host.frame.mepc + 4) % TWO64, if call.Exit? then {10, 11} else {10},
                   Delivered(host, call.pending).csrs)
      && (after.csrs == host.csrs <==> Raised(call.pending) <= host.csrs.sip)
      && after.frame.x[10] == code && (call.Exit? ==> after.frame.x[11] == call.retval)
  {
    hide SameStatus, SwapStatus;
    OutAndBack(thread, host, Saved(call, inside), Edge(call), call, code);
    StatusThrough(thread, host, true, Saved(call, inside));
    DeliveredBits(host, call.pending);
  }

  /** What a host is told: the enclave exited, it was interrupted, it has a call for the host, or it
      stopped for no known reason. */
  function Reason(call: Call): U64
    requires call.Stop? || call.Exit? || call.Interrupt?
  {
    if call.Exit? then 0
    else if call.Interrupt? || call.request == 0 then 100002
    else if call.request == 1 then 100011
    else 100000
  }

  /** A host that entered an enclave gets its hart back behind its call, whatever ran on any hart in between:
      with the result in a0, an exit value in a1, and every other register as it was, but for the
      interrupts pending at that moment, which its sip gains. Its supervisor registers are unchanged
      if and only if each of those was pending for it before. */
  lemma EnterLeave(c: Config, s: State, h: nat, x: U64, first: bool, run: seq<Event>, call: Call)
    requires LifeOk(s.enclaves, s.harts) && c.nReg > 0 && h < |s.harts| && !s.harts[h].inEnclave
    requires Fit(s, Eid(x), {if first then Fresh else Stopped})
    requires call.Stop? || call.Exit? || call.Interrupt?
    requires Resides(c, Step(c, s, h, if first then Run(x) else Resume(x)), run, h, Eid(x))
    ensures var s2 := Exec(c, Step(c, s, h, if first then Run(x) else Resume(x)), run);
      && h < |s2.harts|
      && var s' := Step(c, s2, h, call);
         && !s'.harts[h].inEnclave
         && Continues(s.harts[h].side, s2.harts[h].side, s'.harts[h].side, (s.harts[h].side.frame.mepc + 4) % TWO64,
                      if call.Exit? then {10, 11} else {10}, Delivered(s.harts[h].side, call.pending).csrs)
         && (s'.harts[h].side.csrs == s.harts[h].side.csrs <==> Raised(call.pending) <= s.harts[h].side.csrs.sip)
         && s'.harts[h].side.frame.x[10] == Reason(call)
         && (call.Exit? ==> s'.harts[h].side.frame.x[11] == call.retval)
  {
    hide Continues, Switch, Delivered, Raised;
    var entry := if first then Run(x) else Resume(x);
    var s1 := Step(c, s, h, entry);
    var s2 := Exec(c, s1, run);
    assert Counted(s.enclaves[Eid(x)]);
    EnterRecord(c, s, h, x, first);
    StepLife(c, s, h, entry);
    OccupiedRun(c, s1, run, h, Eid(x));
    RunLife(c, s1, run);
    LeaveRecord(c, s2, h, call);
    LeavingSucceeds(c, s2, h, call);
    Returned(s.enclaves[Eid(x)].thread, s.harts[h].side, s2.harts[h].side, call, Effect(c, s2, h, call).1);
  }

  // ---------------------------------------------------------------- the first entry

  ghost predicate Starts(side: Side, p: Params, scounteren: U64) {
    && (forall i :: 1 <= i < 32 && !(11 <= i < 18) ==> side.frame.x[i] == 0)
    && side.frame.x[11] == p.dramBase && side.frame.x[12] == p.dramSize
    && side.frame.x[13] == p.runtimeBase && side.frame.x[14] == p.userBase && side.frame.x[15] == p.freeBase
    && side.frame.x[16] == p.untrustedBase && side.frame.x[17] == p.untrustedSize
    && side.frame.mepc == p.dramBase && side.csrs == Csrs(0, 0, 0, scounteren, 0, 0, 0, 0, {}, 0)
    && Fields(side.frame.mstatus) == Status(0, 0, 0, 1, 0, 0, 0) && Others(side.frame.mstatus) == 0
  }

  lemma CleanStart(was: Thread, scounteren: U64, host: Side, p: Params)
    ensures Starts(Epilogue(FirstEntry(Switch(CleanThread(was, scounteren), host, true).1, p.dramBase, EntryArgs(p)),
      SUCCESS), p, scounteren)
  {
    PcRoundTrip(p.dramBase);
  }

  lemma CreateRecord(c: Config, s: State, h: nat, a: CreateArgs)
    requires c.nReg > 0 && h < |s.harts| && !s.harts[h].inEnclave && CreateEnclave(c, s, h, a, 0).1 == SUCCESS
    ensures var s', eid := Step(c, s, h, Create(a, 0)), FreeEid(s.enclaves, 0).value;
      && Fit(s', eid, {Fresh}) && s'.enclaves[eid].nThread == 0
      && s'.enclaves[eid].thread == CleanThread(s.enclaves[eid].thread, s.harts[h].side.csrs.scounteren)
      && s'.enclaves[eid].params == Params(a.epmAddr, a.epmSize, a.runtime, a.user, a.free, a.utmAddr, a.utmSize)
  {}

  /** A new enclave starts in supervisor mode at its private memory's base, its parameters in a1 to a7 and
      every other register 0, however long ago it was created: nothing of the host that runs it, and of the
      one that created it only which counters are enabled. */
  lemma FirstRun(c: Config, s: State, h: nat, a: CreateArgs, run: seq<Event>, k: nat, x: U64)
    requires LifeOk(s.enclaves, s.harts) && c.nReg > 0 && h < |s.harts| && !s.harts[h].inEnclave
    requires CreateEnclave(c, s, h, a, 0).1 == SUCCESS && FreeEid(s.enclaves, 0) == Some(Eid(x))
    requires Stays(c, Step(c, s, h, Create(a, 0)), run, Eid(x), {Fresh})
    requires k < |Exec(c, Step(c, s, h, Create(a, 0)), run).harts|
    requires !Exec(c, Step(c, s, h, Create(a, 0)), run).harts[k].inEnclave
    ensures Starts(Step(c, Exec(c, Step(c, s, h, Create(a, 0)), run), k, Run(x)).harts[k].side,
                   Params(a.epmAddr, a.epmSize, a.runtime, a.user, a.free, a.utmAddr, a.utmSize),
                   s.harts[h].side.csrs.scounteren)
  {
    var s1 := Step(c, s, h, Create(a, 0));
    var s2 := Exec(c, s1, run);
    CreateRecord(c, s, h, a);
    StepLife(c, s, h, Create(a, 0));
    IdleRun(c, s1, run, Eid(x), Fresh);
    EnterRecord(c, s2, k, x, true);
    CleanStart(s.enclaves[Eid(x)].thread, s.harts[h].side.csrs.scounteren, s2.harts[k].side,
      s2.enclaves[Eid(x)].params);
  }
}
