/** What every call answers, in the error numbers the host and the enclave see. */
module MonitorAnswers {
  import opened Bytes
  import opened Regions
  import opened Monitor
  import opened MonitorCycle

  /** The enclave a call names, by the low 32 bits of its argument, is in this state. */
  predicate Named(s: State, x: U64, state: EState) {
    x % 0x1_0000_0000 < |s.enclaves| && s.enclaves[x % 0x1_0000_0000].state == state
  }

  /** The private region finds its registers and after it the shared one. */
  predicate BothFit(c: Config, t: Table, a: CreateArgs)
    requires c.nReg > 0
  {
    var (t1, epm) := InitRegion(t, c.nReg, a.epmAddr, a.epmSize, Any, false);
    epm.Ok? && InitRegion(t1, c.nReg, a.utmAddr, a.utmSize, Bottom, false).1.Ok?
  }

  /** A call of the wrong side is prohibited; a fresh enclave and no other can be run, a stopped one and no other
      resumed, and these two and no other destroyed. Refused calls change nothing, and what a hart computes
      between calls is its own registers. */
  lemma Refused(c: Config, s: State, h: nat, call: Call)
    requires LifeOk(s.enclaves, s.harts) && c.nReg > 0 && h < |s.harts|
    ensures var (s', code) := Effect(c, s, h, call);
      var inside := s.harts[h].inEnclave;
      match call
      case Run(x) =>
        && code == (if inside then 100014 else if Named(s, x, Fresh) then 0 else 100016)
        && (code != 0 ==> s' == s)
      case Resume(x) =>
        && code == (if inside then 100014 else if Named(s, x, Stopped) then 0 else 100010)
        && (code != 0 ==> s' == s)
      case Destroy(x) =>
        && code == (if inside then 100014 else if Named(s, x, Fresh) || Named(s, x, Stopped) then 0 else 100005)
        && (code != 0 ==> s' == s)
      case Create(a, verdict) =>
        && (inside ==> code == 100014 && s' == s)
        && (!inside && !ArgsValid(a) ==> code == 100008 && s' == s)
        && (!inside && ArgsValid(a) && FreeEid(s.enclaves, 0).None? ==> code == 100013 && s' == s)
        && (!inside && ArgsValid(a) && FreeEid(s.enclaves, 0).Some? ==>
             code == if !BothFit(c, s.table, a) then 100003 else verdict)
      case Stop(request, _) =>
        && (!inside ==> code == 100014 && s' == s)
        && (inside ==> code == if request == 0 then 100002 else if request == 1 then 100011 else 100000)
      case Exit(_, _) => if inside then code == 0 else code == 100014 && s' == s
      case Interrupt(_) => if inside then code == 100002 else code == 100014 && s' == s
      case Compute(side) => s' == OnHart(s, h, side)
  {
    hide InitRegion, Enter, Leave, DropSlots;
    if s.harts[h].inEnclave {
      assert Inside(s.harts, h, s.harts[h].eid);
    }
    match call
    case Resume(x) => CountedNamed(s, x);
    case Destroy(x) => CountedNamed(s, x);
    case _ =>
  }

  /** Without the invariant, an enclave that does not run could call too; it would be told so. */
  lemma NotRunning(c: Config, s: State, h: nat, request: U64, pending: set<nat>)
    requires c.nReg > 0 && h < |s.harts| && s.harts[h].inEnclave && !Fit(s, s.harts[h].eid, {Running})
    ensures Effect(c, s, h, Stop(request, pending)) == (s, 100009)
    ensures Effect(c, s, h, Exit(request, pending)) == (s, 100009)
  {}

  lemma CountedNamed(s: State, x: U64)
    requires LifeOk(s.enclaves, s.harts)
    ensures Eid(x) < |s.enclaves| ==> Counted(s.enclaves[Eid(x)])
  {}
}
