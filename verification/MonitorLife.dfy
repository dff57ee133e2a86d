/** Creation as a whole call: exactly when it keeps the invariant, and exactly when a creation that is refused
    leaves every hart as it was. */
module MonitorLife {
  import opened Bytes
  import opened Pmp
  import opened Regions
  import opened HartPmp
  import opened Monitor
  import opened MonitorCycle
  import opened MonitorInv
  import opened MonitorCreate
  import opened Options

  // ---------------------------------------------------------------- creation

  /** Clearing the bottom register's mark keeps the table's invariant: it has no private owner. */
  lemma UnmarkTable(t: Table, nReg: nat)
    requires TableOk(t, nReg) && nReg > 1
    ensures TableOk(t.(used := t.used - {nReg - 1}), nReg)
  {
    var t' := t.(used := t.used - {nReg - 1});
    assert forall i: nat :: Private(t', nReg, i) <==> Private(t, nReg, i);
    forall k | k in t'.used && k + 1 < nReg
      ensures OwnedReg(t', nReg, k)
    {
      assert OwnedReg(t, nReg, k);
      var i: nat :| Private(t, nReg, i) && k in Regs(t.regions[i]);
      assert Private(t', nReg, i) && k in Regs(t'.regions[i]);
    }
  }

  lemma UnmarkPmp(t: Table, nReg: nat, pmp: seq<Entry>, own: Option<nat>, shared: nat)
    requires PmpOk(t, nReg, pmp, own, shared)
    ensures PmpOk(t.(used := t.used - {nReg - 1}), nReg, pmp, own, shared)
  {
    var t' := t.(used := t.used - {nReg - 1});
    forall i: nat | Private(t', nReg, i)
      ensures Programmed(pmp, t'.regions[i], own == Some(i))
    {
      assert Private(t, nReg, i);
    }
  }

  lemma UnmarkHarts(c: Config, s: State, eid: nat, e: Enclave)
    requires HartsOk(c, s.table, s.enclaves, s.harts) && eid < |s.enclaves| && s.enclaves[eid].state == Invalid
    ensures HartsOk(c, s.table.(used := s.table.used - {c.nReg - 1}), s.enclaves[eid := e], s.harts)
  {
    var t := s.table.(used := s.table.used - {c.nReg - 1});
    forall k | 0 <= k < |s.harts|
      ensures HartOk(c, t, s.enclaves[eid := e], s.harts[k])
    {
      var hart := s.harts[k];
      assert HartOk(c, s.table, s.enclaves, hart);
      if hart.inEnclave {
        UnmarkPmp(s.table, c.nReg, hart.pmp, Some(EpmOf(s.enclaves[hart.eid])), UtmOf(s.enclaves[hart.eid]));
      } else {
        UnmarkPmp(s.table, c.nReg, hart.pmp, None, c.os);
      }
    }
  }

  lemma UnmarkEnclaves(c: Config, s: State, eid: nat, e: Enclave)
    requires EnclavesOk(c, s.table, s.enclaves) && Covered(c, s.table, s.enclaves)
    requires eid < |s.enclaves| && s.enclaves[eid].state == Invalid && e.state == Invalid && Shaped(e)
    ensures var t := s.table.(used := s.table.used - {c.nReg - 1});
      EnclavesOk(c, t, s.enclaves[eid := e]) && Covered(c, t, s.enclaves[eid := e])
  {
    var t, es := s.table.(used := s.table.used - {c.nReg - 1}), s.enclaves[eid := e];
    forall i | 0 <= i < |es|
      ensures EnclaveOk(c, t, es[i])
    {
      assert EnclaveOk(c, s.table, s.enclaves[i]);
    }
    forall i: nat | Private(t, c.nReg, i) && i != c.sm
      ensures Owned(es, i)
    {
      assert Private(s.table, c.nReg, i);
      assert Owned(s.enclaves, i);
      var k :| 0 <= k < |s.enclaves| && Live(s.enclaves[k]) && EpmOf(s.enclaves[k]) == i;
      assert es[k] == s.enclaves[k];
    }
  }

  /** The state a creation leaves when the platform or the measurement refuses it. */
  lemma Refused(c: Config, s: State, eid: nat, e: Enclave)
    requires Inv(c, s) && eid < |s.enclaves| && s.enclaves[eid].state == Invalid && e.state == Invalid && Shaped(e)
    ensures Inv(c, State(s.table.(used := s.table.used - {c.nReg - 1}), s.enclaves[eid := e], s.harts))
  {
    UnmarkTable(s.table, c.nReg);
    UnmarkHarts(c, s, eid, e);
    UnmarkEnclaves(c, s, eid, e);
    IdleLife(s.enclaves, s.harts, s.harts, eid, e);
  }

  lemma SharedRefused(c: Config, s: State, a: CreateArgs, t1: Table, epm: nat)
    requires Inv(c, s) && InitRegion(s.table, c.nReg, a.epmAddr, a.epmSize, Any, false) == (t1, Ok(epm))
    ensures FreeRegion(t1, epm).0 == s.table
  {
    PrivateReg(s.table, c.nReg, a.epmAddr, a.epmSize);
    AddThenFree(s.table, t1, epm);
    assert s.table.used - Regs(t1.regions[epm]) == s.table.used;
  }

  /** Taking a creation back, in the order of its unwinding and in the order of a destroy, gives back the
      table; it gives back the harts if and only if the private region stayed off the bottom register. */
  lemma TakenBack(c: Config, s: State, h: nat, a: CreateArgs, t1: Table, epm: nat, t2: Table, utm: nat)
    requires Inv(c, s) && h < |s.harts| && Placed2(c, s, a, t1, epm, t2, utm)
    ensures FreeRegion(FreeRegion(t2, utm).0, epm).0 == s.table.(used := s.table.used - {c.nReg - 1})
    ensures FreeRegion(FreeRegion(t2, epm).0, utm).0 == s.table.(used := s.table.used - {c.nReg - 1})
    ensures var harts := UnsetGlobal(SetGlobal(s.harts, t2, epm, false), t2, epm);
      && (harts == s.harts <==> AvoidsBottom(s.table, c.nReg, a.epmAddr, a.epmSize, Any))
      && (harts != s.harts ==> |harts[h].pmp| == c.nReg && harts[h].pmp[c.nReg - 1] == BLANK)
  {
    BothPlaced(c, s, a, t1, epm, t2, utm);
    BothFreed(c, s, t1, epm, t2, utm);
    if Private(t2, c.nReg, epm) {
      GlobalUndone(c, s, t1, epm, t2);
    } else {
      BottomLost(c, s, h, t2, epm);
    }
  }

  lemma NewShaped(c: Config, s: State, eid: nat, a: CreateArgs, epm: nat, utm: nat, scounteren: U64)
    requires EnclavesOk(c, s.table, s.enclaves) && eid < |s.enclaves|
    ensures Shaped(NewEnclave(s.enclaves[eid], a, epm, utm, scounteren, Invalid))
    ensures Shaped(NewEnclave(s.enclaves[eid], a, epm, utm, scounteren, Fresh))
  {
    assert EnclaveOk(c, s.table, s.enclaves[eid]);
  }

  // ---------------------------------------------------------------- exactly when

  /** create_enclave gets as far as the registers: an entry and both regions are to be had. */
  predicate Places(c: Config, s: State, a: CreateArgs)
    requires c.nReg > 0
  {
    var (t1, epm) := InitRegion(s.table, c.nReg, a.epmAddr, a.epmSize, Any, false);
    ArgsValid(a) && FreeEid(s.enclaves, 0).Some? && epm.Ok?
      && InitRegion(t1, c.nReg, a.utmAddr, a.utmSize, Bottom, false).1.Ok?
  }

  /** A creation is refused before it writes a register, or its private region stays off the bottom one:
      what a caller can work out beforehand. */
  predicate Spares(c: Config, s: State, a: CreateArgs)
    requires c.nReg > 0
  {
    Places(c, s, a) ==> AvoidsBottom(s.table, c.nReg, a.epmAddr, a.epmSize, Any)
  }

  lemma BlankBreaks(c: Config, s: State, h: nat)
    requires h < |s.harts| && |s.harts[h].pmp| == c.nReg > 0 && s.harts[h].pmp[c.nReg - 1] == BLANK
    ensures !Inv(c, s)
  {
    assert !HartOk(c, s.table, s.enclaves, s.harts[h]);
  }

  /** A refused creation that had placed both regions. */
  lemma PlacedThenRefused(c: Config, s: State, h: nat, a: CreateArgs, verdict: U64)
    requires Inv(c, s) && h < |s.harts| && Places(c, s, a) && verdict != 0
    ensures var (s', code) := CreateEnclave(c, s, h, a, verdict);
      && code == verdict && s'.table == s.table.(used := s.table.used - {c.nReg - 1})
      && (s'.harts == s.harts <==> Spares(c, s, a))
      && (Inv(c, s') <==> Spares(c, s, a))
  {
    var eid := FreeEid(s.enclaves, 0).value;
    var (t1, epm) := InitRegion(s.table, c.nReg, a.epmAddr, a.epmSize, Any, false);
    var (t2, utm) := InitRegion(t1, c.nReg, a.utmAddr, a.utmSize, Bottom, false);
    var e := NewEnclave(s.enclaves[eid], a, epm.rid, utm.rid, s.harts[h].side.csrs.scounteren, Invalid);
    var s' := CreateEnclave(c, s, h, a, verdict).0;
    TakenBack(c, s, h, a, t1, epm.rid, t2, utm.rid);
    if s'.harts == s.harts {
      NewShaped(c, s, eid, a, epm.rid, utm.rid, s.harts[h].side.csrs.scounteren);
      Refused(c, s, eid, e);
    } else {
      BlankBreaks(c, s', h);
    }
  }

  /** create_enclave that fails, at any of its steps, leaves every live enclave as it was, and the table
      too but for the bottom register's mark. It leaves the harts as they were, and keeps the invariant,
      if and only if it spares the bottom register. */
  lemma CreateUndone(c: Config, s: State, h: nat, a: CreateArgs, verdict: U64)
    requires Inv(c, s) && h < |s.harts| && CreateEnclave(c, s, h, a, verdict).1 != SUCCESS
    ensures var s' := CreateEnclave(c, s, h, a, verdict).0;
      && (s'.table == s.table || s'.table == s.table.(used := s.table.used - {c.nReg - 1}))
      && |s'.enclaves| == |s.enclaves|
      && (forall i :: 0 <= i < |s.enclaves| && s.enclaves[i].state != Invalid ==> s'.enclaves[i] == s.enclaves[i])
      && (s'.harts == s.harts <==> Spares(c, s, a))
      && (Inv(c, s') <==> Spares(c, s, a))
  {
    var (t1, epm) := InitRegion(s.table, c.nReg, a.epmAddr, a.epmSize, Any, false);
    if Places(c, s, a) {
      PlacedThenRefused(c, s, h, a, verdict);
    } else if ArgsValid(a) && FreeEid(s.enclaves, 0).Some? && epm.Ok? {
      SharedRefused(c, s, a, t1, epm.rid);
    }
  }

  /** What a creation that went through did. */
  lemma Created(c: Config, s: State, h: nat, a: CreateArgs, verdict: U64)
    returns (t1: Table, epm: nat, t2: Table, utm: nat, eid: nat, e: Enclave)
    requires c.nReg > 1 && h < |s.harts| && CreateEnclave(c, s, h, a, verdict).1 == SUCCESS
    ensures verdict == 0 && Placed2(c, s, a, t1, epm, t2, utm) && FreeEid(s.enclaves, 0) == Some(eid)
    ensures eid < |s.enclaves| && s.enclaves[eid].state == Invalid
    ensures e == NewEnclave(s.enclaves[eid], a, epm, utm, s.harts[h].side.csrs.scounteren, Fresh)
    ensures CreateEnclave(c, s, h, a, verdict).0 == State(t2, s.enclaves[eid := e], SetGlobal(s.harts, t2, epm, false))
  {
    eid := FreeEid(s.enclaves, 0).value;
    t1 := InitRegion(s.table, c.nReg, a.epmAddr, a.epmSize, Any, false).0;
    epm := InitRegion(s.table, c.nReg, a.epmAddr, a.epmSize, Any, false).1.rid;
    t2 := InitRegion(t1, c.nReg, a.utmAddr, a.utmSize, Bottom, false).0;
    utm := InitRegion(t1, c.nReg, a.utmAddr, a.utmSize, Bottom, false).1.rid;
    e := NewEnclave(s.enclaves[eid], a, epm, utm, s.harts[h].side.csrs.scounteren, Fresh);
  }

  lemma NewRegion(c: Config, s: State, a: CreateArgs, t1: Table, epm: nat, t2: Table, utm: nat)
    requires Inv(c, s) && Placed2(c, s, a, t1, epm, t2, utm)
    ensures c.nReg > 1 && (Private(t2, c.nReg, epm) <==> AvoidsBottom(s.table, c.nReg, a.epmAddr, a.epmSize, Any))
  {
    BothPlaced(c, s, a, t1, epm, t2, utm);
  }

  lemma NotPrivate(c: Config, s: State, eid: nat)
    requires eid < |s.enclaves| && Live(s.enclaves[eid]) && !Private(s.table, c.nReg, EpmOf(s.enclaves[eid]))
    ensures !Inv(c, s)
  {
    assert !EnclaveOk(c, s.table, s.enclaves[eid]);
  }

  lemma CreatedInv(c: Config, s: State, h: nat, a: CreateArgs, verdict: U64)
    requires c.nReg > 1 && Inv(c, s) && h < |s.harts| && CreateEnclave(c, s, h, a, verdict).1 == SUCCESS
    ensures Inv(c, CreateEnclave(c, s, h, a, verdict).0) <==> Spares(c, s, a)
  {
    hide Inv, AvoidsBottom;
    var t1, epm, t2, utm, eid, e := Created(c, s, h, a, verdict);
    NewRegion(c, s, a, t1, epm, t2, utm);
    if AvoidsBottom(s.table, c.nReg, a.epmAddr, a.epmSize, Any) {
      CreateKept(c, s, h, a, t1, epm, t2, utm, eid, e);
    } else {
      NotPrivate(c, CreateEnclave(c, s, h, a, verdict).0, eid);
    }
  }

  /** Whatever it returns, a creation keeps the invariant if and only if it spares the bottom register. */
  lemma CreateInv(c: Config, s: State, h: nat, a: CreateArgs, verdict: U64)
    requires Inv(c, s) && h < |s.harts|
    ensures Inv(c, CreateEnclave(c, s, h, a, verdict).0) <==> Spares(c, s, a)
  {
    if CreateEnclave(c, s, h, a, verdict).1 == SUCCESS {
      CreatedInv(c, s, h, a, verdict);
    } else {
      CreateUndone(c, s, h, a, verdict);
    }
  }
}
