/** The security monitor: enclaves, harts and the calls that move between them. A call is atomic, as the
    monitor's locks make it. */
module Monitor {
  import opened Bytes
  import opened Pmp
  import opened Regions
  import opened Context
  import opened Options

  // ---------------------------------------------------------------- state

  datatype EState = Invalid | Destroying | Allocated | Fresh | Stopped | Running

  datatype Kind = NoRegion | Epm | Utm | Other

  datatype Slot = Slot(rid: nat, kind: Kind)

  /** regions[]: a fixed array with room for the two every enclave gets. */
  type Slots = s: seq<Slot> | |s| >= 2 witness [Slot(0, NoRegion), Slot(0, NoRegion)]

  datatype Params = Params(dramBase: U64, dramSize: U64, runtimeBase: U64, userBase: U64, freeBase: U64,
                           untrustedBase: U64, untrustedSize: U64)

  datatype Enclave = Enclave(state: EState, slots: Slots, nThread: nat, params: Params, thread: Thread)

  /** One hart: its PMP registers, its entry in cpus[], and the context it is executing. */
  datatype Hart = Hart(pmp: seq<Entry>, inEnclave: bool, eid: nat, side: Side)

  datatype State = State(table: Table, enclaves: seq<Enclave>, harts: seq<Hart>)

  /** The number of PMP registers and the two regions made at boot. */
  datatype Config = Config(nReg: nat, sm: nat, os: nat)

  datatype CreateArgs = CreateArgs(epmAddr: U64, epmSize: U64, utmAddr: U64, utmSize: U64,
                                   runtime: U64, user: U64, free: U64)

  /** A host's or an enclave's call, a trap taken inside an enclave, or the hart's own computation.
      `verdict` is what the platform hook and the measurement return for a creation. */
  datatype Call =
    | Create(args: CreateArgs, verdict: U64)
    | Destroy(eid: U64)
    | Run(eid: U64)
    | Resume(eid: U64)
    | Stop(request: U64, pending: set<nat>)
    | Exit(retval: U64, pending: set<nat>)
    | Interrupt(pending: set<nat>)
    | Compute(side: Side)

  const SUCCESS: U64 := 0
  const UNKNOWN_ERROR: U64 := 100000
  const INTERRUPTED: U64 := 100002
  const PMP_FAILURE: U64 := 100003
  const NOT_DESTROYABLE: U64 := 100005
  const ILLEGAL_ARGUMENT: U64 := 100008
  const NOT_RUNNING: U64 := 100009
  const NOT_RESUMABLE: U64 := 100010
  const EDGE_CALL_HOST: U64 := 100011
  const NO_FREE_RESOURCE: U64 := 100013
  const PROHIBITED: U64 := 100014
  const NOT_FRESH: U64 := 100016

  const STOP_TIMER_INTERRUPT: U64 := 0
  const STOP_EDGE_CALL_HOST: U64 := 1

  const MAX_ENCL_THREADS: nat := 1

  // ---------------------------------------------------------------- creation arguments

  function Add64(a: U64, b: U64): U64 {
    (a + b) % TWO64
  }

  /** is_create_args_valid, with the source's wrapping additions. */
  predicate ArgsValid(a: CreateArgs) {
    && a.epmSize > 0
    && a.epmAddr < Add64(a.epmAddr, a.epmSize)
    && a.utmAddr < Add64(a.utmAddr, a.utmSize)
    && a.epmAddr <= a.runtime < Add64(a.epmAddr, a.epmSize)
    && a.epmAddr <= a.user < Add64(a.epmAddr, a.epmSize)
    && a.epmAddr <= a.free <= Add64(a.epmAddr, a.epmSize)
    && a.runtime <= a.user <= a.free
  }

  /** The wrapping comparisons accept exactly the non-empty ranges that end below 2^64 with the three
      sections in order inside the private one. */
  lemma ArgsMeaning(a: CreateArgs)
    ensures ArgsValid(a) <==>
      && a.epmSize > 0 && a.epmAddr + a.epmSize < TWO64
      && a.utmSize > 0 && a.utmAddr + a.utmSize < TWO64
      && a.epmAddr <= a.runtime <= a.user <= a.free <= a.epmAddr + a.epmSize
      && a.user < a.epmAddr + a.epmSize
  {
    WrapMeaning(a.epmAddr, a.epmSize);
    WrapMeaning(a.utmAddr, a.utmSize);
  }

  lemma WrapMeaning(a: U64, b: U64)
    ensures a < Add64(a, b) <==> b > 0 && a + b < TWO64
    ensures a + b < TWO64 ==> Add64(a, b) == a + b
  {
    if a + b >= TWO64 {
      assert Add64(a, b) == a + b - TWO64;
    }
  }

  // ---------------------------------------------------------------- programming the registers

  /** is_pmp_region_valid, and a register the hart has. */
  predicate Programmable(pmp: seq<Entry>, t: Table, rid: nat) {
    rid in t.defined && rid < |t.regions| && t.regions[rid].reg < |pmp|
  }

  function Program(pmp: seq<Entry>, t: Table, rid: nat, perm: bool): seq<Entry> {
    if Programmable(pmp, t, rid) then SetRegion(pmp, t.regions[rid], perm) else pmp
  }

  function Unprogram(pmp: seq<Entry>, t: Table, rid: nat): seq<Entry> {
    if Programmable(pmp, t, rid) then UnsetRegion(pmp, t.regions[rid]) else pmp
  }

  /** The loop over an enclave's regions. */
  function ProgramSlots(pmp: seq<Entry>, t: Table, slots: seq<Slot>, perm: bool): seq<Entry> {
    if |slots| == 0 then pmp
    else
      var last := slots[|slots| - 1];
      var p := ProgramSlots(pmp, t, slots[..|slots| - 1], perm);
      if last.kind == NoRegion then p else Program(p, t, last.rid, perm)
  }

  /** pmp_set_global and pmp_unset_global: every hart acts on the request. */
  function SetGlobal(harts: seq<Hart>, t: Table, rid: nat, perm: bool): (r: seq<Hart>)
    ensures |r| == |harts|
    ensures forall i :: 0 <= i < |harts| ==> r[i] == harts[i].(pmp := Program(harts[i].pmp, t, rid, perm))
  {
    seq(|harts|, i requires 0 <= i < |harts| => harts[i].(pmp := Program(harts[i].pmp, t, rid, perm)))
  }

  function UnsetGlobal(harts: seq<Hart>, t: Table, rid: nat): (r: seq<Hart>)
    ensures |r| == |harts|
    ensures forall i :: 0 <= i < |harts| ==> r[i] == harts[i].(pmp := Unprogram(harts[i].pmp, t, rid))
  {
    seq(|harts|, i requires 0 <= i < |harts| => harts[i].(pmp := Unprogram(harts[i].pmp, t, rid)))
  }

  // ---------------------------------------------------------------- entering and leaving

  function EntryArgs(p: Params): seq<U64> {
    [p.dramBase, p.dramSize, p.runtimeBase, p.userBase, p.freeBase, p.untrustedBase, p.untrustedSize]
  }

  /** n_thread is a 32-bit counter. */
  function Plus32(n: nat, d: int): nat {
    (n + d) % 0x1_0000_0000
  }

  /** context_switch_to_enclave, with the bookkeeping of run_enclave and resume_enclave before it. */
  function Enter(c: Config, s: State, h: nat, eid: nat, first: bool): (r: State)
    requires h < |s.harts| && eid < |s.enclaves|
    ensures |r.harts| == |s.harts| && |r.enclaves| == |s.enclaves|
  {
    var e, hart := s.enclaves[eid], s.harts[h];
    var (thread, side) := Switch(e.thread, hart.side, true);
    var pmp := ProgramSlots(Program(hart.pmp, s.table, c.os, false), s.table, e.slots, true);
    s.(enclaves := s.enclaves[eid := e.(state := Running, nThread := Plus32(e.nThread, 1), thread := thread)],
       harts := s.harts[h := Hart(pmp, true, eid,
         if first then FirstEntry(side, e.params.dramBase, EntryArgs(e.params)) else side)])
  }

  /** context_switch_to_host, with the bookkeeping of stop_enclave and exit_enclave before it. */
  function Leave(c: Config, s: State, h: nat, eid: nat, edge: bool, pending: set<nat>): (r: State)
    requires h < |s.harts| && eid < |s.enclaves|
    ensures |r.harts| == |s.harts| && |r.enclaves| == |s.enclaves|
  {
    var e, hart := s.enclaves[eid], s.harts[h];
    var (thread, side) := Switch(e.thread, hart.side, edge);
    var pmp := Program(ProgramSlots(hart.pmp, s.table, e.slots, false), s.table, c.os, true);
    var n := Plus32(e.nThread, -1);
    s.(enclaves := s.enclaves[eid := e.(state := if n == 0 then Stopped else e.state, nThread := n, thread := thread)],
       harts := s.harts[h := Hart(pmp, false, hart.eid, Delivered(side, pending))])
  }

  /** What the call's epilogue does to the hart that returns. */
  function OnHart(s: State, h: nat, side: Side): (r: State)
    requires h < |s.harts|
    ensures |r.harts| == |s.harts|
  {
    s.(harts := s.harts[h := s.harts[h].(side := side)])
  }

  /** An enclave number is truncated to 32 bits on the way in. */
  function Eid(eid: U64): nat {
    eid % 0x1_0000_0000
  }

  predicate Fit(s: State, eid: nat, states: set<EState>) {
    eid < |s.enclaves| && s.enclaves[eid].state in states
  }

  function RunEnclave(c: Config, s: State, h: nat, eid: nat): (r: (State, U64))
    requires h < |s.harts|
    ensures |r.0.harts| == |s.harts|
  {
    if Fit(s, eid, {Fresh}) then (Enter(c, s, h, eid, true), SUCCESS) else (s, NOT_FRESH)
  }

  function ResumeEnclave(c: Config, s: State, h: nat, eid: nat): (r: (State, U64))
    requires h < |s.harts|
    ensures |r.0.harts| == |s.harts|
  {
    if Fit(s, eid, {Running, Stopped}) && s.enclaves[eid].nThread < MAX_ENCL_THREADS
    then (Enter(c, s, h, eid, false), SUCCESS)
    else (s, NOT_RESUMABLE)
  }

  function StopCode(request: U64): U64 {
    if request == STOP_TIMER_INTERRUPT then INTERRUPTED
    else if request == STOP_EDGE_CALL_HOST then EDGE_CALL_HOST
    else UNKNOWN_ERROR
  }

  function StopEnclave(c: Config, s: State, h: nat, request: U64, eid: nat, pending: set<nat>): (r: (State, U64))
    requires h < |s.harts|
    ensures |r.0.harts| == |s.harts|
  {
    if Fit(s, eid, {Running}) then (Leave(c, s, h, eid, request == STOP_EDGE_CALL_HOST, pending), StopCode(request))
    else (s, NOT_RUNNING)
  }

  function ExitEnclave(c: Config, s: State, h: nat, eid: nat, pending: set<nat>): (r: (State, U64))
    requires h < |s.harts|
    ensures |r.0.harts| == |s.harts|
  {
    if Fit(s, eid, {Running}) then (Leave(c, s, h, eid, false, pending), SUCCESS) else (s, NOT_RUNNING)
  }

  // ---------------------------------------------------------------- creating and destroying

  /** encl_alloc_eid: the lowest invalid entry. */
  function FreeEid(enclaves: seq<Enclave>, i: nat): (r: Option<nat>)
    requires i <= |enclaves|
    ensures r.Some? ==> i <= r.value < |enclaves| && enclaves[r.value].state == Invalid
    ensures forall j :: i <= j < (if r.Some? then r.value else |enclaves|) ==> enclaves[j].state != Invalid
    decreases |enclaves| - i
  {
    if i == |enclaves| then None
    else if enclaves[i].state == Invalid then Some(i)
    else FreeEid(enclaves, i + 1)
  }

  /** clean_state: slot 0, the program counter and the status word are left as they were. */
  function CleanThread(old_: Thread, scounteren: U64): Thread {
    Thread([old_.x[0]] + seq(31, _ => 0), old_.mepc, old_.mstatus, Csrs(0, 0, 0, scounteren, 0, 0, 0, 0, {}, 0))
  }

  function NewEnclave(e: Enclave, a: CreateArgs, rid: nat, shared: nat, scounteren: U64, state: EState): Enclave
  {
    Enclave(state, e.slots[0 := Slot(rid, Epm)][1 := Slot(shared, Utm)], 0,
            Params(a.epmAddr, a.epmSize, a.runtime, a.user, a.free, a.utmAddr, a.utmSize),
            CleanThread(e.thread, scounteren))
  }

  /** create_enclave with its unwinding. */
  function CreateEnclave(c: Config, s: State, h: nat, a: CreateArgs, verdict: U64): (r: (State, U64))
    requires h < |s.harts| && c.nReg > 0
    ensures |r.0.harts| == |s.harts|
  {
    var eid := FreeEid(s.enclaves, 0);
    var (t1, epm) := InitRegion(s.table, c.nReg, a.epmAddr, a.epmSize, Any, false);
    var (t2, utm) := InitRegion(t1, c.nReg, a.utmAddr, a.utmSize, Bottom, false);
    if !ArgsValid(a) then (s, ILLEGAL_ARGUMENT)
    else if eid.None? then (s, NO_FREE_RESOURCE)
    else if !epm.Ok? then (s, PMP_FAILURE)
    else if !utm.Ok? then (s.(table := FreeRegion(t1, epm.rid).0), PMP_FAILURE)
    else
      var harts := SetGlobal(s.harts, t2, epm.rid, false);
      var scounteren := s.harts[h].side.csrs.scounteren;
      var e := NewEnclave(s.enclaves[eid.value], a, epm.rid, utm.rid, scounteren,
        if verdict == 0 then Fresh else Invalid);
      var enclaves := s.enclaves[eid.value := e];
      if verdict == 0 then (State(t2, enclaves, harts), SUCCESS)
      else (State(FreeRegion(FreeRegion(t2, utm.rid).0, epm.rid).0, enclaves, UnsetGlobal(harts, t2, epm.rid)), verdict)
  }

  /** The first loop of destroy_enclave: private regions are closed everywhere and freed. */
  function DropSlots(t: Table, harts: seq<Hart>, slots: seq<Slot>): (r: (Table, seq<Hart>))
    ensures |r.1| == |harts|
  {
    if |slots| == 0 then (t, harts)
    else
      var last := slots[|slots| - 1];
      var (t', harts') := DropSlots(t, harts, slots[..|slots| - 1]);
      if last.kind == NoRegion || last.kind == Utm then (t', harts')
      else (FreeRegion(t', last.rid).0, UnsetGlobal(harts', t', last.rid))
  }

  /** get_enclave_region_index. */
  function SlotIndex(slots: seq<Slot>, kind: Kind, i: nat): (r: Option<nat>)
    requires i <= |slots|
    ensures r.Some? ==> i <= r.value < |slots| && slots[r.value].kind == kind
    ensures forall j :: i <= j < (if r.Some? then r.value else |slots|) ==> slots[j].kind != kind
    decreases |slots| - i
  {
    if i == |slots| then None
    else if slots[i].kind == kind then Some(i)
    else SlotIndex(slots, kind, i + 1)
  }

  function ClearSlots(slots: Slots): (r: Slots)
    ensures |r| == |slots|
  {
    seq(|slots|, i requires 0 <= i < |slots| => slots[i].(kind := NoRegion))
  }

  function DestroyEnclave(s: State, eid: nat): (r: (State, U64))
    ensures |r.0.harts| == |s.harts|
  {
    if Fit(s, eid, {Destroying, Allocated, Fresh, Stopped}) then
      var e := s.enclaves[eid];
      var (t, harts) := DropSlots(s.table, s.harts, e.slots);
      var u := SlotIndex(e.slots, Utm, 0);
      var t' := if u.Some? then FreeRegion(t, e.slots[u.value].rid).0 else t;
      var e' := Enclave(Invalid, ClearSlots(e.slots), 0, Params(0, 0, 0, 0, 0, 0, 0), e.thread);
      (State(t', s.enclaves[eid := e'], harts), SUCCESS)
    else (s, NOT_DESTROYABLE)
  }

  // ---------------------------------------------------------------- one step

  /** The function-number ranges of the call dispatcher: host calls are refused inside an enclave and
      enclave calls outside one. */
  predicate Permitted(hart: Hart, call: Call) {
    match call
    case Create(_, _) => !hart.inEnclave
    case Destroy(_) => !hart.inEnclave
    case Run(_) => !hart.inEnclave
    case Resume(_) => !hart.inEnclave
    case Stop(_, _) => hart.inEnclave
    case Exit(_, _) => hart.inEnclave
    case Interrupt(_) => hart.inEnclave
    case Compute(_) => true
  }

  /** What a call returns and does, before the trap returns. */
  function Effect(c: Config, s: State, h: nat, call: Call): (r: (State, U64))
    requires h < |s.harts| && c.nReg > 0
    ensures |r.0.harts| == |s.harts|
  {
    var side := s.harts[h].side;
    if !Permitted(s.harts[h], call) then (s, PROHIBITED)
    else match call
      case Create(a, verdict) => CreateEnclave(c, s, h, a, verdict)
      case Destroy(eid) => DestroyEnclave(s, Eid(eid))
      case Run(eid) => RunEnclave(c, s, h, Eid(eid))
      case Resume(eid) => ResumeEnclave(c, s, h, Eid(eid))
      case Stop(request, pending) => StopEnclave(c, s, h, request, s.harts[h].eid, pending)
      case Exit(_, pending) => ExitEnclave(c, s, h, s.harts[h].eid, pending)
      case Interrupt(pending) =>
        StopEnclave(c, OnHart(s, h, Interrupted(side)), h, STOP_TIMER_INTERRUPT, s.harts[h].eid, pending)
      case Compute(side') => (OnHart(s, h, side'), SUCCESS)
  }

  /** The sbi_sm_* epilogues: what the trap returns to. */
  function Return(call: Call, side: Side, code: U64): Side {
    match call
    case Run(_) => Epilogue(side, code)
    case Resume(_) => ResumeEpilogue(side, code)
    case Stop(_, _) => Epilogue(side, code)
    case Exit(retval, _) => ExitEpilogue(side, code, retval)
    case Interrupt(_) => Epilogue(side, code)
    case Create(_, _) => side
    case Destroy(_) => side
    case Compute(_) => side
  }

  function Step(c: Config, s: State, h: nat, call: Call): State
    requires h < |s.harts| && c.nReg > 0
  {
    var (s', code) := Effect(c, s, h, call);
    if !Permitted(s.harts[h], call) then s else OnHart(s', h, Return(call, s'.harts[h].side, code))
  }
}
