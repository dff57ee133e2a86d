/** The life cycle of an enclave over every run of the monitor: its states, its thread count and the hart
    that is inside it. None of this depends on which registers its memory was given. */
module MonitorCycle {
  import opened Bytes
  import opened Regions
  import opened Context
  import opened Monitor
  import opened Options

  // ---------------------------------------------------------------- the invariant

  predicate Live(e: Enclave) {
    e.state in {Fresh, Stopped, Running}
  }

  predicate Inside(harts: seq<Hart>, h: nat, eid: nat) {
    h < |harts| && harts[h].inEnclave && harts[h].eid == eid
  }

  /** No two harts share an enclave, and a running enclave has its hart. */
  ghost predicate Exclusive(es: seq<Enclave>, harts: seq<Hart>) {
    && (forall h: nat, k: nat, e: nat :: Inside(harts, h, e) && Inside(harts, k, e) ==> h == k)
    && (forall e: nat :: e < |es| && es[e].state == Running ==> exists h: nat :: Inside(harts, h, e))
  }

  /** Between calls an enclave is invalid or live, and it counts one thread exactly while it runs. */
  predicate Counted(e: Enclave) {
    (e.state == Invalid || Live(e)) && (Live(e) ==> e.nThread == if e.state == Running then 1 else 0)
  }

  ghost predicate LifeOk(es: seq<Enclave>, harts: seq<Hart>) {
    && (forall i :: 0 <= i < |es| ==> Counted(es[i]))
    && (forall h: nat, e: nat :: Inside(harts, h, e) ==> e < |es| && es[e].state == Running)
    && Exclusive(es, harts)
  }

  // ---------------------------------------------------------------- every step keeps it

  /** The same harts are inside the same enclaves. */
  ghost predicate SamePlaces(harts: seq<Hart>, harts': seq<Hart>) {
    forall h: nat, e: nat :: Inside(harts', h, e) <==> Inside(harts, h, e)
  }

  lemma StillExclusive(es: seq<Enclave>, es': seq<Enclave>, harts: seq<Hart>, harts': seq<Hart>)
    requires Exclusive(es, harts) && SamePlaces(harts, harts') && |es'| == |es|
    requires forall e :: 0 <= e < |es| && es'[e].state == Running ==> es[e].state == Running
    ensures Exclusive(es', harts')
  {
    forall e: nat | e < |es'| && es'[e].state == Running
      ensures exists h: nat :: Inside(harts', h, e)
    {
      var h: nat :| Inside(harts, h, e);
      assert Inside(harts', h, e);
    }
  }

  lemma NobodyInside(es: seq<Enclave>, harts: seq<Hart>, eid: nat)
    requires LifeOk(es, harts) && eid < |es| && es[eid].state != Running
    ensures forall k: nat :: !Inside(harts, k, eid)
  {}

  /** Harts stay where they are; at most one enclave that nobody is in changes, and it does not start. */
  lemma IdleLife(es: seq<Enclave>, harts: seq<Hart>, harts': seq<Hart>, eid: nat, e: Enclave)
    requires LifeOk(es, harts) && SamePlaces(harts, harts') && eid < |es|
    requires es[eid] == e || (es[eid].state != Running && e.state != Running && Counted(e))
    ensures LifeOk(es[eid := e], harts')
  {
    StillExclusive(es, es[eid := e], harts, harts');
  }

  lemma SameLife(es: seq<Enclave>, harts: seq<Hart>, harts': seq<Hart>)
    requires LifeOk(es, harts) && SamePlaces(harts, harts')
    ensures LifeOk(es, harts')
  {
    StillExclusive(es, es, harts, harts');
  }

  lemma EnterLife(c: Config, s: State, h: nat, eid: nat, first: bool)
    requires LifeOk(s.enclaves, s.harts) && h < |s.harts| && !s.harts[h].inEnclave && Fit(s, eid, {Fresh, Stopped})
    ensures var s' := Enter(c, s, h, eid, first); LifeOk(s'.enclaves, s'.harts)
  {
    hide ProgramSlots, Program, Switch, FirstEntry;
    var s' := Enter(c, s, h, eid, first);
    assert Counted(s.enclaves[eid]);
    NobodyInside(s.enclaves, s.harts, eid);
    assert forall k: nat, f: nat :: Inside(s'.harts, k, f) <==> if k == h then f == eid else Inside(s.harts, k, f);
    forall f: nat | f < |s'.enclaves| && s'.enclaves[f].state == Running
      ensures exists k: nat :: Inside(s'.harts, k, f)
    {
      if f == eid {
        assert Inside(s'.harts, h, f);
      } else {
        var k: nat :| Inside(s.harts, k, f);
        assert Inside(s'.harts, k, f);
      }
    }
  }

  lemma LeaveLife(c: Config, s: State, h: nat, edge: bool, pending: set<nat>)
    requires LifeOk(s.enclaves, s.harts) && h < |s.harts| && s.harts[h].inEnclave
    ensures Fit(s, s.harts[h].eid, {Running})
    ensures var s' := Leave(c, s, h, s.harts[h].eid, edge, pending); LifeOk(s'.enclaves, s'.harts)
  {
    hide ProgramSlots, Program, Switch, Delivered;
    var eid := s.harts[h].eid;
    assert Inside(s.harts, h, eid);
    assert Counted(s.enclaves[eid]);
    var s' := Leave(c, s, h, eid, edge, pending);
    assert forall k: nat, f: nat :: Inside(s'.harts, k, f) <==> k != h && Inside(s.harts, k, f);
    forall f: nat | f < |s'.enclaves| && s'.enclaves[f].state == Running
      ensures exists k: nat :: Inside(s'.harts, k, f)
    {
      var k: nat :| Inside(s.harts, k, f);
      assert Inside(s'.harts, k, f);
    }
  }

  lemma CreateLife(c: Config, s: State, h: nat, a: CreateArgs, verdict: U64)
    requires LifeOk(s.enclaves, s.harts) && h < |s.harts| && c.nReg > 0
    ensures var s' := CreateEnclave(c, s, h, a, verdict).0; LifeOk(s'.enclaves, s'.harts)
  {
    hide Program, Unprogram;
    var s', eid := CreateEnclave(c, s, h, a, verdict).0, FreeEid(s.enclaves, 0);
    assert SamePlaces(s.harts, s'.harts);
    if eid.Some? {
      IdleLife(s.enclaves, s.harts, s'.harts, eid.value, s'.enclaves[eid.value]);
    }
  }

  lemma {:induction false} DropPlaces(t: Table, harts: seq<Hart>, slots: seq<Slot>)
    ensures SamePlaces(harts, DropSlots(t, harts, slots).1)
  {
    if |slots| > 0 {
      DropPlaces(t, harts, slots[..|slots| - 1]);
    }
  }

  lemma DestroyLife(s: State, eid: nat)
    requires LifeOk(s.enclaves, s.harts)
    ensures var s' := DestroyEnclave(s, eid).0; LifeOk(s'.enclaves, s'.harts)
  {
    if eid < |s.enclaves| {
      var s' := DestroyEnclave(s, eid).0;
      DropPlaces(s.table, s.harts, s.enclaves[eid].slots);
      IdleLife(s.enclaves, s.harts, s'.harts, eid, s'.enclaves[eid]);
    }
  }

  lemma EntryLife(c: Config, s: State, h: nat, eid: nat)
    requires LifeOk(s.enclaves, s.harts) && h < |s.harts| && !s.harts[h].inEnclave
    ensures var s' := RunEnclave(c, s, h, eid).0; LifeOk(s'.enclaves, s'.harts)
    ensures var s' := ResumeEnclave(c, s, h, eid).0; LifeOk(s'.enclaves, s'.harts)
  {
    hide Enter;
    if eid < |s.enclaves| {
      assert Counted(s.enclaves[eid]);
      if Fit(s, eid, {Fresh}) {
        EnterLife(c, s, h, eid, true);
      } else if Fit(s, eid, {Stopped}) {
        EnterLife(c, s, h, eid, false);
      }
    }
  }

  /** Every call keeps the life cycle's invariant, whatever it is given and whatever it returns. */
  lemma EffectLife(c: Config, s: State, h: nat, call: Call)
    requires LifeOk(s.enclaves, s.harts) && h < |s.harts| && c.nReg > 0
    ensures var s' := Effect(c, s, h, call).0; LifeOk(s'.enclaves, s'.harts)
  {
    hide LifeOk, CreateEnclave, DestroyEnclave, RunEnclave, ResumeEnclave, Leave;
    if Permitted(s.harts[h], call) {
      match call
      case Create(a, verdict) => CreateLife(c, s, h, a, verdict);
      case Destroy(eid) => DestroyLife(s, Eid(eid));
      case Run(eid) => EntryLife(c, s, h, Eid(eid));
      case Resume(eid) => EntryLife(c, s, h, Eid(eid));
      case Stop(request, pending) => LeaveLife(c, s, h, request == STOP_EDGE_CALL_HOST, pending);
      case Exit(_, pending) => LeaveLife(c, s, h, false, pending);
      case Interrupt(pending) =>
        var s0 := OnHart(s, h, Interrupted(s.harts[h].side));
        SameLife(s.enclaves, s.harts, s0.harts);
        LeaveLife(c, s0, h, false, pending);
      case Compute(side) => SameLife(s.enclaves, s.harts, OnHart(s, h, side).harts);
    }
  }

  lemma StepLife(c: Config, s: State, h: nat, call: Call)
    requires LifeOk(s.enclaves, s.harts) && h < |s.harts| && c.nReg > 0
    ensures var s' := Step(c, s, h, call); LifeOk(s'.enclaves, s'.harts)
  {
    hide LifeOk, Effect;
    EffectLife(c, s, h, call);
    var (s', code) := Effect(c, s, h, call);
    SameLife(s'.enclaves, s'.harts, OnHart(s', h, Return(call, s'.harts[h].side, code)).harts);
  }

  /** From inside an enclave, stop, exit and an interrupt never fail. */
  lemma LeavingSucceeds(c: Config, s: State, h: nat, call: Call)
    requires LifeOk(s.enclaves, s.harts) && h < |s.harts| && c.nReg > 0
    requires s.harts[h].inEnclave && (call.Stop? || call.Exit? || call.Interrupt?)
    ensures Effect(c, s, h, call).1 != NOT_RUNNING
    ensures var s' := Step(c, s, h, call); !s'.harts[h].inEnclave && Fit(s', s.harts[h].eid, {Stopped})
  {
    assert Inside(s.harts, h, s.harts[h].eid);
    assert Counted(s.enclaves[s.harts[h].eid]);
  }

  // ---------------------------------------------------------------- whole runs

  datatype Event = Event(hart: nat, call: Call)

  /** A run ends at an event of a hart there is not. */
  function Exec(c: Config, s: State, run: seq<Event>): State
    requires c.nReg > 0
    decreases |run|
  {
    if |run| == 0 || run[0].hart >= |s.harts| then s
    else Exec(c, Step(c, s, run[0].hart, run[0].call), run[1..])
  }

  lemma {:induction false} RunLife(c: Config, s: State, run: seq<Event>)
    requires LifeOk(s.enclaves, s.harts) && c.nReg > 0
    ensures var s' := Exec(c, s, run); LifeOk(s'.enclaves, s'.harts)
    decreases |run|
  {
    if |run| > 0 && run[0].hart < |s.harts| {
      StepLife(c, s, run[0].hart, run[0].call);
      RunLife(c, Step(c, s, run[0].hart, run[0].call), run[1..]);
    }
  }

  /** Enclave eid is in one of these states at every point of the run. */
  predicate Stays(c: Config, s: State, run: seq<Event>, eid: nat, states: set<EState>)
    requires c.nReg > 0
    decreases |run|
  {
    && Fit(s, eid, states)
    && (|run| > 0 && run[0].hart < |s.harts| ==> Stays(c, Step(c, s, run[0].hart, run[0].call), run[1..], eid, states))
  }

  /** Hart k is inside enclave eid at every point of the run. */
  predicate Resides(c: Config, s: State, run: seq<Event>, k: nat, eid: nat)
    requires c.nReg > 0
    decreases |run|
  {
    && Inside(s.harts, k, eid)
    && (|run| > 0 && run[0].hart < |s.harts| ==> Resides(c, Step(c, s, run[0].hart, run[0].call), run[1..], k, eid))
  }

  // ---------------------------------------------------------------- who touches an enclave

  /** The only calls that can change enclave eid's record. */
  predicate Touches(s: State, h: nat, call: Call, eid: nat)
    requires h < |s.harts|
  {
    match call
    case Create(_, _) => FreeEid(s.enclaves, 0) == Some(eid)
    case Destroy(x) => Eid(x) == eid
    case Run(x) => Eid(x) == eid
    case Resume(x) => Eid(x) == eid
    case Stop(_, _) => Inside(s.harts, h, eid)
    case Exit(_, _) => Inside(s.harts, h, eid)
    case Interrupt(_) => Inside(s.harts, h, eid)
    case Compute(_) => false
  }

  lemma Untouched(c: Config, s: State, h: nat, call: Call, eid: nat)
    requires c.nReg > 0 && h < |s.harts| && eid < |s.enclaves|
    ensures var s' := Step(c, s, h, call);
      |s'.enclaves| == |s.enclaves| && (!Touches(s, h, call, eid) ==> s'.enclaves[eid] == s.enclaves[eid])
  {}

  /** The life cycle, one step at a time: only creation makes an enclave fresh, only destruction makes
      it invalid, and nothing leads back from stopped or running to fresh. */
  lemma Transition(c: Config, s: State, h: nat, call: Call, eid: nat)
    requires c.nReg > 0 && h < |s.harts| && eid < |s.enclaves| && Counted(s.enclaves[eid])
    ensures |Step(c, s, h, call).enclaves| == |s.enclaves|
    ensures var x, y := s.enclaves[eid].state, Step(c, s, h, call).enclaves[eid].state;
      || x == y
      || (x == Invalid && y == Fresh && call.Create?)
      || (x == Fresh && y == Running && call.Run?)
      || (x == Running && y == Stopped && (call.Stop? || call.Exit? || call.Interrupt?))
      || (x == Stopped && y == Running && call.Resume?)
      || ((x == Fresh || x == Stopped) && y == Invalid && call.Destroy?)
  {
    Untouched(c, s, h, call, eid);
  }

  /** An enclave that stays stopped, or stays fresh, over a step keeps its whole record. */
  lemma IdleKept(c: Config, s: State, h: nat, call: Call, eid: nat)
    requires LifeOk(s.enclaves, s.harts) && c.nReg > 0 && h < |s.harts| && Fit(s, eid, {Fresh, Stopped})
    requires Fit(Step(c, s, h, call), eid, {s.enclaves[eid].state})
    ensures Step(c, s, h, call).enclaves[eid] == s.enclaves[eid]
  {
    Untouched(c, s, h, call, eid);
    assert Counted(s.enclaves[eid]);
    NobodyInside(s.enclaves, s.harts, eid);
  }

  /** A running enclave changes only when its own hart leaves. */
  lemma RunningKept(c: Config, s: State, h: nat, call: Call, eid: nat)
    requires c.nReg > 0 && h < |s.harts| && Fit(s, eid, {Running}) && s.enclaves[eid].nThread == 1
    ensures var s' := Step(c, s, h, call);
      |s'.enclaves| == |s.enclaves|
        && (s'.enclaves[eid] == s.enclaves[eid] || (Inside(s.harts, h, eid) && !s'.harts[h].inEnclave))
  {
    Untouched(c, s, h, call, eid);
  }

  /** While a hart stays inside an enclave, no step of anyone changes the enclave's record. */
  lemma OccupiedKept(c: Config, s: State, h: nat, call: Call, k: nat, eid: nat)
    requires LifeOk(s.enclaves, s.harts) && c.nReg > 0 && h < |s.harts| && Inside(s.harts, k, eid)
    requires Inside(Step(c, s, h, call).harts, k, eid)
    ensures eid < |s.enclaves| && |Step(c, s, h, call).enclaves| == |s.enclaves|
    ensures Step(c, s, h, call).enclaves[eid] == s.enclaves[eid]
  {
    assert Counted(s.enclaves[eid]);
    RunningKept(c, s, h, call, eid);
  }

  lemma {:induction false} IdleRun(c: Config, s: State, run: seq<Event>, eid: nat, st: EState)
    requires LifeOk(s.enclaves, s.harts) && c.nReg > 0 && st in {Fresh, Stopped} && Stays(c, s, run, eid, {st})
    ensures Fit(Exec(c, s, run), eid, {st}) && Exec(c, s, run).enclaves[eid] == s.enclaves[eid]
    decreases |run|
  {
    if |run| > 0 && run[0].hart < |s.harts| {
      var s' := Step(c, s, run[0].hart, run[0].call);
      assert Fit(s', eid, {st});
      IdleKept(c, s, run[0].hart, run[0].call, eid);
      StepLife(c, s, run[0].hart, run[0].call);
      IdleRun(c, s', run[1..], eid, st);
    }
  }

  lemma {:induction false} OccupiedRun(c: Config, s: State, run: seq<Event>, k: nat, eid: nat)
    requires LifeOk(s.enclaves, s.harts) && c.nReg > 0 && Resides(c, s, run, k, eid)
    ensures Inside(Exec(c, s, run).harts, k, eid)
    ensures eid < |s.enclaves| && |Exec(c, s, run).enclaves| == |s.enclaves|
    ensures Exec(c, s, run).enclaves[eid] == s.enclaves[eid]
    decreases |run|
  {
    if |run| > 0 && run[0].hart < |s.harts| {
      var s' := Step(c, s, run[0].hart, run[0].call);
      assert Inside(s'.harts, k, eid);
      OccupiedKept(c, s, run[0].hart, run[0].call, k, eid);
      StepLife(c, s, run[0].hart, run[0].call);
      OccupiedRun(c, s', run[1..], k, eid);
    }
  }

  /** run_enclave succeeds at most once between a creation and the destruction: once an enclave has
      run, and as long as it is not destroyed, it is never fresh again and run is refused. */
  lemma {:induction false} RunsOnce(c: Config, s: State, run: seq<Event>, eid: nat, h: nat)
    requires LifeOk(s.enclaves, s.harts) && c.nReg > 0 && Fit(s, eid, {Stopped, Running})
    requires Stays(c, s, run, eid, {Fresh, Stopped, Running})
    ensures Fit(Exec(c, s, run), eid, {Stopped, Running})
    ensures h < |Exec(c, s, run).harts| ==> RunEnclave(c, Exec(c, s, run), h, eid) == (Exec(c, s, run), NOT_FRESH)
    decreases |run|
  {
    if |run| > 0 && run[0].hart < |s.harts| {
      var s' := Step(c, s, run[0].hart, run[0].call);
      assert Counted(s.enclaves[eid]);
      Transition(c, s, run[0].hart, run[0].call, eid);
      assert Fit(s', eid, {Fresh, Stopped, Running});
      StepLife(c, s, run[0].hart, run[0].call);
      RunsOnce(c, s', run[1..], eid, h);
    }
  }
}
