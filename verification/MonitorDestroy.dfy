/** Destroying an enclave keeps the invariant and undoes its creation. */
module MonitorDestroy {
  import opened Pmp
  import opened Regions
  import opened HartPmp
  import opened Monitor
  import opened MonitorCycle
  import opened MonitorInv
  import opened MonitorLife
  import opened Options

  lemma {:induction false} DropFold(t: Table, harts: seq<Hart>, slots: seq<Slot>)
    requires |slots| >= 2 && slots[0].kind == Epm && slots[1].kind == Utm
    requires forall i :: 2 <= i < |slots| ==> slots[i].kind == NoRegion
    ensures DropSlots(t, harts, slots) == (FreeRegion(t, slots[0].rid).0, UnsetGlobal(harts, t, slots[0].rid))
  {
    if |slots| == 2 {
      assert slots[..1][..0] == [];
      assert DropSlots(t, harts, slots[..1][..0]) == (t, harts);
      assert DropSlots(t, harts, slots[..1]) == (FreeRegion(t, slots[0].rid).0, UnsetGlobal(harts, t, slots[0].rid));
    } else {
      DropFold(t, harts, slots[..|slots| - 1]);
    }
  }

  lemma UtmIndex(slots: seq<Slot>)
    requires |slots| >= 2 && slots[0].kind == Epm && slots[1].kind == Utm
    ensures SlotIndex(slots, Utm, 0) == Some(1)
  {
    assert SlotIndex(slots, Utm, 1) == Some(1);
  }

  /** destroy_enclave on a live enclave: both regions freed, the private one closed on every hart. */
  lemma DestroyResult(s: State, eid: nat)
    requires Fit(s, eid, {Fresh, Stopped}) && Shaped(s.enclaves[eid])
    requires s.enclaves[eid].slots[0].kind == Epm && s.enclaves[eid].slots[1].kind == Utm
    ensures var e := s.enclaves[eid];
      DestroyEnclave(s, eid) ==
        (State(FreeRegion(FreeRegion(s.table, EpmOf(e)).0, UtmOf(e)).0,
               s.enclaves[eid := Enclave(Invalid, ClearSlots(e.slots), 0, Params(0, 0, 0, 0, 0, 0, 0), e.thread)],
               UnsetGlobal(s.harts, s.table, EpmOf(e))),
         SUCCESS)
  {
    var e := s.enclaves[eid];
    DropFold(s.table, s.harts, e.slots);
    UtmIndex(e.slots);
  }

  /** A creation followed by the destruction of what it made gives back the region table, but for the
      bottom register's mark, and every other enclave. It gives back every hart's registers if and only if
      the creation spared the bottom one. */
  lemma CreateThenDestroy(c: Config, s: State, h: nat, a: CreateArgs)
    requires Inv(c, s) && h < |s.harts| && CreateEnclave(c, s, h, a, 0).1 == SUCCESS
    ensures var eid := FreeEid(s.enclaves, 0).value;
      var (s', code) := DestroyEnclave(CreateEnclave(c, s, h, a, 0).0, eid);
      && code == SUCCESS && (s'.harts == s.harts <==> Spares(c, s, a))
         && s'.table == s.table.(used := s.table.used - {c.nReg - 1})
      && |s'.enclaves| == |s.enclaves| && s'.enclaves[eid].state == Invalid
      && forall i :: 0 <= i < |s.enclaves| && i != eid ==> s'.enclaves[i] == s.enclaves[i]
  {
    var t1, epm, t2, utm, eid, e := Created(c, s, h, a, 0);
    var s1 := State(t2, s.enclaves[eid := e], SetGlobal(s.harts, t2, epm, false));
    NewShaped(c, s, eid, a, epm, utm, s.harts[h].side.csrs.scounteren);
    TakenBack(c, s, h, a, t1, epm, t2, utm);
    DestroyResult(s1, eid);
  }

  // ---------------------------------------------------------------- destruction keeps the invariant

  /** t2 is t without the two regions of one enclave. */
  ghost predicate Drops(t: Table, t2: Table, epm: nat, utm: nat) {
    && |t2.regions| == |t.regions| && t2.defined == t.defined - {epm, utm}
    && (forall i :: 0 <= i < |t.regions| ==> t2.regions[i] == if i == epm || i == utm then CLEARED else t.regions[i])
  }

  lemma DropTable(c: Config, t: Table, epm: nat, utm: nat)
    requires Base(c, t) && TableOk(t, c.nReg) && Private(t, c.nReg, epm) && Shared(t, c.nReg, utm) && epm != c.sm
    ensures var t2 := FreeRegion(FreeRegion(t, epm).0, utm).0;
      Drops(t, t2, epm, utm) && TableOk(t2, c.nReg) && Base(c, t2)
  {
    var t1 := FreeRegion(t, epm).0;
    FreeKeeps(t, c.nReg, epm);
    FreeKeeps(t1, c.nReg, utm);
    assert RegionOk(t.regions[utm], c.nReg);
    DropBase(c, t, epm, utm);
  }

  lemma DropBase(c: Config, t: Table, epm: nat, utm: nat)
    requires Base(c, t) && RegsApart(t, c.nReg) && Private(t, c.nReg, epm) && Shared(t, c.nReg, utm) && epm != c.sm
    requires t.regions[utm].mode == Napot
    ensures var t2 := FreeRegion(FreeRegion(t, epm).0, utm).0;
      Drops(t, t2, epm, utm) && Base(c, t2)
  {
    assert Regs(t.regions[epm]) !! Regs(t.regions[c.sm]);
    assert 0 in Regs(t.regions[c.sm]);
    assert Regs(t.regions[utm]) == {c.nReg - 1};
    var t2 := FreeRegion(FreeRegion(t, epm).0, utm).0;
    assert 0 in t2.used;
  }

  lemma DropEnclaves(c: Config, t: Table, t2: Table, es: seq<Enclave>, eid: nat, e: Enclave)
    requires EnclavesOk(c, t, es) && eid < |es| && Live(es[eid]) && Drops(t, t2, EpmOf(es[eid]), UtmOf(es[eid]))
    requires e.state == Invalid && Shaped(e)
    ensures EnclavesOk(c, t2, es[eid := e])
  {
    var es' := es[eid := e];
    assert EnclaveOk(c, t, es[eid]);
    forall i | 0 <= i < |es| && i != eid
      ensures EnclaveOk(c, t2, es'[i])
    {
      assert EnclaveOk(c, t, es[i]);
    }
  }

  lemma DropCovered(c: Config, t: Table, t2: Table, es: seq<Enclave>, eid: nat, e: Enclave)
    requires EnclavesOk(c, t, es) && Covered(c, t, es)
    requires eid < |es| && Live(es[eid]) && Drops(t, t2, EpmOf(es[eid]), UtmOf(es[eid]))
    ensures Covered(c, t2, es[eid := e])
  {
    var es' := es[eid := e];
    forall i: nat | Private(t2, c.nReg, i) && i != c.sm
      ensures Owned(es', i)
    {
      assert Private(t, c.nReg, i);
      assert Owned(es, i);
      var k :| 0 <= k < |es| && Live(es[k]) && EpmOf(es[k]) == i;
      assert k != eid && es'[k] == es[k];
    }
  }

  lemma DropPmp(nReg: nat, t: Table, pmp: seq<Entry>, own: Option<nat>, shared: nat, epm: nat, utm: nat)
    requires TableOk(t, nReg) && PmpOk(t, nReg, pmp, own, shared)
    requires Private(t, nReg, epm) && Shared(t, nReg, utm)
    requires shared != epm && shared != utm && own != Some(epm)
    ensures PmpOk(FreeRegion(FreeRegion(t, epm).0, utm).0, nReg, Unprogram(pmp, t, epm), own, shared)
  {
    var t1 := FreeRegion(t, epm).0;
    DropPrivate(t, nReg, pmp, own, shared, epm);
    FreeKeeps(t, nReg, epm);
    DropShared(t1, nReg, UnsetRegion(pmp, t.regions[epm]), own, shared, utm);
  }

  lemma DropHart(c: Config, s: State, eid: nat, e: Enclave, hart: Hart)
    requires Base(c, s.table) && TableOk(s.table, c.nReg) && EnclavesOk(c, s.table, s.enclaves)
    requires HartOk(c, s.table, s.enclaves, hart) && Fit(s, eid, {Fresh, Stopped})
    ensures var x := s.enclaves[eid];
      HartOk(c, FreeRegion(FreeRegion(s.table, EpmOf(x)).0, UtmOf(x)).0, s.enclaves[eid := e],
             hart.(pmp := Unprogram(hart.pmp, s.table, EpmOf(x))))
  {
    var x := s.enclaves[eid];
    assert EnclaveOk(c, s.table, x);
    if hart.inEnclave {
      var f := s.enclaves[hart.eid];
      assert EnclaveOk(c, s.table, f);
      DropPmp(c.nReg, s.table, hart.pmp, Some(EpmOf(f)), UtmOf(f), EpmOf(x), UtmOf(x));
    } else {
      DropPmp(c.nReg, s.table, hart.pmp, None, c.os, EpmOf(x), UtmOf(x));
    }
  }

  lemma DropHarts(c: Config, s: State, eid: nat, e: Enclave)
    requires Base(c, s.table) && TableOk(s.table, c.nReg) && EnclavesOk(c, s.table, s.enclaves)
    requires HartsOk(c, s.table, s.enclaves, s.harts) && Fit(s, eid, {Fresh, Stopped})
    ensures var x := s.enclaves[eid];
      HartsOk(c, FreeRegion(FreeRegion(s.table, EpmOf(x)).0, UtmOf(x)).0, s.enclaves[eid := e],
              UnsetGlobal(s.harts, s.table, EpmOf(x)))
  {
    var x := s.enclaves[eid];
    var t, harts := FreeRegion(FreeRegion(s.table, EpmOf(x)).0, UtmOf(x)).0, UnsetGlobal(s.harts, s.table, EpmOf(x));
    forall k | 0 <= k < |harts|
      ensures HartOk(c, t, s.enclaves[eid := e], harts[k])
    {
      DropHart(c, s, eid, e, s.harts[k]);
    }
  }

  lemma DestroyInv(c: Config, s: State, eid: nat)
    requires Inv(c, s)
    ensures Inv(c, DestroyEnclave(s, eid).0)
  {
    if eid < |s.enclaves| {
      assert Counted(s.enclaves[eid]);
      if Fit(s, eid, {Fresh, Stopped}) {
        Destroyed(c, s, eid);
      }
    }
  }

  lemma Destroyed(c: Config, s: State, eid: nat)
    requires Inv(c, s) && Fit(s, eid, {Fresh, Stopped})
    ensures Inv(c, DestroyEnclave(s, eid).0)
  {
    var x := s.enclaves[eid];
    assert EnclaveOk(c, s.table, x);
    DestroyResult(s, eid);
    var s' := DestroyEnclave(s, eid).0;
    DropTable(c, s.table, EpmOf(x), UtmOf(x));
    DropEnclaves(c, s.table, s'.table, s.enclaves, eid, s'.enclaves[eid]);
    DropCovered(c, s.table, s'.table, s.enclaves, eid, s'.enclaves[eid]);
    DropHarts(c, s, eid, s'.enclaves[eid]);
    DestroyLife(s, eid);
  }
}
