/** What a creation does to the region table, the enclaves and the registers: what it keeps when the private
    region has registers of its own, and what freeing both regions gives back. */
module MonitorCreate {
  import opened Bytes
  import opened Pmp
  import opened Regions
  import opened HartPmp
  import opened Monitor
  import opened MonitorCycle
  import opened MonitorInv
  import opened Options

  // ---------------------------------------------------------------- growing and shrinking the table

  /** Everything defined in t is in t2 unchanged. */
  ghost predicate Extends(t: Table, t2: Table) {
    && |t2.regions| == |t.regions| && t.defined <= t2.defined && t.used <= t2.used
    && (forall i :: 0 <= i < |t.regions| && i in t.defined ==> t2.regions[i] == t.regions[i])
  }

  /** A new region, placed where nothing was. */
  ghost predicate Adds(t: Table, t2: Table, rid: nat) {
    && rid < |t.regions| && rid !in t.defined && t2.defined == t.defined + {rid} && |t2.regions| == |t.regions|
    && t2.used == t.used + Regs(t2.regions[rid])
    && (forall i :: 0 <= i < |t.regions| && i != rid ==> t2.regions[i] == t.regions[i])
  }

  /** The register a private request is given when it avoids the bottom one. */
  lemma PrivateReg(t: Table, nReg: nat, start: nat, size: nat)
    requires nReg > 1 && 0 in t.used
    ensures var (t', out) := InitRegion(t, nReg, start, size, Any, false);
      out.Ok? ==>
        && Adds(t, t', out.rid) && Regs(t'.regions[out.rid]) !! t.used && t'.regions[out.rid].reg < nReg
        && (t'.regions[out.rid].reg + 1 < nReg <==> AvoidsBottom(t, nReg, start, size, Any))
  {
    InitResult(t, nReg, start, size, Any, false);
    var (t', out) := InitRegion(t, nReg, start, size, Any, false);
    if out.Ok? {
      var width := if PowerRegion(start, size) then 1 else 2;
      var reg := PickReg(t.used, nReg, Any, width);
      assert FreeAt(t.used, reg.value, width);
      assert reg.value != 0;
    }
  }

  /** Both requests of a creation that went through. */
  ghost predicate Placed2(c: Config, s: State, a: CreateArgs, t1: Table, epm: nat, t2: Table, utm: nat) {
    && c.nReg > 1 && ArgsValid(a)
    && InitRegion(s.table, c.nReg, a.epmAddr, a.epmSize, Any, false) == (t1, Ok(epm))
    && InitRegion(t1, c.nReg, a.utmAddr, a.utmSize, Bottom, false) == (t2, Ok(utm))
  }

  /** A range over the whole address space meets the monitor's region and is refused. */
  lemma NotWhole(c: Config, t: Table, start: nat, size: nat, pri: Priority)
    requires Base(c, t) && TableOk(t, c.nReg) && InitRegion(t, c.nReg, start, size, pri, false).1.Ok?
    ensures !IsWhole(start, size)
  {
    var sm := t.regions[c.sm];
    assert RegionOk(sm, c.nReg);
    assert IsWhole(start, size) ==> Intersects(sm, start, size);
  }

  lemma AddKeepsBase(c: Config, t: Table, t2: Table, rid: nat)
    requires Base(c, t) && Adds(t, t2, rid)
    ensures Base(c, t2) && Extends(t, t2)
  {
    forall i | 0 <= i < |t2.regions| && i !in t2.defined
      ensures t2.regions[i] == CLEARED
    {
      assert i != rid && i !in t.defined;
      assert t2.regions[i] == t.regions[i];
    }
  }

  /** Both regions of a creation, wherever the private one went. */
  lemma BothPlaced(c: Config, s: State, a: CreateArgs, t1: Table, epm: nat, t2: Table, utm: nat)
    requires Base(c, s.table) && Placed2(c, s, a, t1, epm, t2, utm)
    ensures Base(c, t1) && Base(c, t2) && Extends(s.table, t2)
    ensures Adds(s.table, t1, epm) && Adds(t1, t2, utm) && Regs(t1.regions[epm]) !! s.table.used
    ensures t2.regions[epm] == t1.regions[epm] && t1.regions[epm].reg < c.nReg
    ensures Shared(t2, c.nReg, utm) && t2.regions[utm].mode == Napot
    ensures Private(t2, c.nReg, epm) <==> AvoidsBottom(s.table, c.nReg, a.epmAddr, a.epmSize, Any)
  {
    PrivateReg(s.table, c.nReg, a.epmAddr, a.epmSize);
    AddKeepsBase(c, s.table, t1, epm);
    InitResult(t1, c.nReg, a.utmAddr, a.utmSize, Bottom, false);
    AddKeepsBase(c, t1, t2, utm);
  }

  lemma TwoRegions(c: Config, s: State, a: CreateArgs, t1: Table, epm: nat, t2: Table, utm: nat)
    requires Inv(c, s) && Placed2(c, s, a, t1, epm, t2, utm)
    requires AvoidsBottom(s.table, c.nReg, a.epmAddr, a.epmSize, Any)
    ensures TableOk(t1, c.nReg) && TableOk(t2, c.nReg)
  {
    BothPlaced(c, s, a, t1, epm, t2, utm);
    NotWhole(c, s.table, a.epmAddr, a.epmSize, Any);
    InitKeeps(s.table, c.nReg, a.epmAddr, a.epmSize, Any, false);
    NotWhole(c, t1, a.utmAddr, a.utmSize, Bottom);
    InitKeeps(t1, c.nReg, a.utmAddr, a.utmSize, Bottom, false);
  }

  // ---------------------------------------------------------------- creation keeps the invariant

  lemma ExtendEnclaves(c: Config, t: Table, t2: Table, es: seq<Enclave>, eid: nat, e: Enclave)
    requires EnclavesOk(c, t, es) && Extends(t, t2) && eid < |es| && es[eid].state == Invalid
    requires EnclaveOk(c, t2, e)
    requires Live(e) ==> EpmOf(e) !in t.defined && UtmOf(e) !in t.defined
    ensures EnclavesOk(c, t2, es[eid := e])
  {
    var es' := es[eid := e];
    forall i | 0 <= i < |es| && i != eid
      ensures EnclaveOk(c, t2, es'[i])
    {
      assert EnclaveOk(c, t, es[i]);
    }
    forall i | 0 <= i < |es| && i != eid && Live(es[i]) && Live(e)
      ensures EpmOf(es[i]) != EpmOf(e) && UtmOf(es[i]) != UtmOf(e)
    {
      assert EnclaveOk(c, t, es[i]);
    }
  }

  /** The new private regions are the monitor's, an old enclave's or the new one's. */
  lemma ExtendCovered(c: Config, t: Table, t2: Table, es: seq<Enclave>, eid: nat, e: Enclave, epm: nat, utm: nat)
    requires Covered(c, t, es) && Extends(t, t2) && eid < |es| && es[eid].state == Invalid
    requires t2.defined <= t.defined + {epm, utm} && Shared(t2, c.nReg, utm)
    requires Live(e) && EpmOf(e) == epm
    ensures Covered(c, t2, es[eid := e])
  {
    var es' := es[eid := e];
    forall i: nat | Private(t2, c.nReg, i) && i != c.sm
      ensures Owned(es', i)
    {
      if i == epm {
        assert Live(es'[eid]) && EpmOf(es'[eid]) == i;
      } else {
        assert Private(t, c.nReg, i);
        assert Owned(es, i);
        var k :| 0 <= k < |es| && Live(es[k]) && EpmOf(es[k]) == i;
        assert es'[k] == es[k];
      }
    }
  }

  lemma ExtendPmp(nReg: nat, t: Table, t1: Table, epm: nat, t2: Table, utm: nat, pmp: seq<Entry>, own: Option<nat>,
                  shared: nat)
    requires RegsApart(t, nReg) && PmpOk(t, nReg, pmp, own, shared)
    requires shared in t.defined && (own.Some? ==> own.value in t.defined)
    requires Adds(t, t1, epm) && Adds(t1, t2, utm) && Regs(t1.regions[epm]) !! t.used
    requires Private(t2, nReg, epm) && Shared(t2, nReg, utm) && t2.regions[utm].mode == Napot
    ensures PmpOk(t2, nReg, Program(pmp, t2, epm, false), own, shared)
  {
    var r := t1.regions[epm];
    assert t2.regions[epm] == r;
    AddPrivate(t, t1, nReg, pmp, own, shared, epm);
    AddShared(t1, t2, nReg, SetRegion(pmp, r, false), own, shared, utm);
  }

  lemma ExtendHart(c: Config, s: State, t1: Table, epm: nat, t2: Table, utm: nat, eid: nat, e: Enclave, hart: Hart)
    requires RegsApart(s.table, c.nReg) && Base(c, s.table) && EnclavesOk(c, s.table, s.enclaves)
    requires HartOk(c, s.table, s.enclaves, hart)
    requires Adds(s.table, t1, epm) && Adds(t1, t2, utm) && Regs(t1.regions[epm]) !! s.table.used
    requires Private(t2, c.nReg, epm) && Shared(t2, c.nReg, utm) && t2.regions[utm].mode == Napot
    requires eid < |s.enclaves| && s.enclaves[eid].state == Invalid
    ensures HartOk(c, t2, s.enclaves[eid := e], hart.(pmp := Program(hart.pmp, t2, epm, false)))
  {
    if hart.inEnclave {
      var f := s.enclaves[hart.eid];
      assert EnclaveOk(c, s.table, f);
      ExtendPmp(c.nReg, s.table, t1, epm, t2, utm, hart.pmp, Some(EpmOf(f)), UtmOf(f));
    } else {
      ExtendPmp(c.nReg, s.table, t1, epm, t2, utm, hart.pmp, None, c.os);
    }
  }

  lemma ExtendHarts(c: Config, s: State, t1: Table, epm: nat, t2: Table, utm: nat, eid: nat, e: Enclave)
    requires RegsApart(s.table, c.nReg) && Base(c, s.table) && EnclavesOk(c, s.table, s.enclaves)
    requires HartsOk(c, s.table, s.enclaves, s.harts)
    requires Adds(s.table, t1, epm) && Adds(t1, t2, utm) && Regs(t1.regions[epm]) !! s.table.used
    requires Private(t2, c.nReg, epm) && Shared(t2, c.nReg, utm) && t2.regions[utm].mode == Napot
    requires eid < |s.enclaves| && s.enclaves[eid].state == Invalid
    ensures HartsOk(c, t2, s.enclaves[eid := e], SetGlobal(s.harts, t2, epm, false))
  {
    var harts := SetGlobal(s.harts, t2, epm, false);
    forall k | 0 <= k < |harts|
      ensures HartOk(c, t2, s.enclaves[eid := e], harts[k])
    {
      ExtendHart(c, s, t1, epm, t2, utm, eid, e, s.harts[k]);
    }
  }

  lemma NewOk(c: Config, t: Table, old_: Enclave, a: CreateArgs, epm: nat, utm: nat, scounteren: U64)
    requires Shaped(old_) && Private(t, c.nReg, epm) && epm != c.sm && Shared(t, c.nReg, utm)
    ensures EnclaveOk(c, t, NewEnclave(old_, a, epm, utm, scounteren, Fresh))
  {}

  lemma Grown(c: Config, s: State, t1: Table, epm: nat, t2: Table, utm: nat, eid: nat, e: Enclave)
    requires Base(c, s.table) && RegsApart(s.table, c.nReg) && EnclavesOk(c, s.table, s.enclaves)
    requires Covered(c, s.table, s.enclaves) && HartsOk(c, s.table, s.enclaves, s.harts)
    requires Extends(s.table, t2) && Adds(s.table, t1, epm) && Adds(t1, t2, utm)
      && Regs(t1.regions[epm]) !! s.table.used
    requires Private(t2, c.nReg, epm) && Shared(t2, c.nReg, utm) && t2.regions[utm].mode == Napot
    requires eid < |s.enclaves| && s.enclaves[eid].state == Invalid
    requires EnclaveOk(c, t2, e) && e.state == Fresh && EpmOf(e) == epm && UtmOf(e) == utm
    ensures var es, harts := s.enclaves[eid := e], SetGlobal(s.harts, t2, epm, false);
      EnclavesOk(c, t2, es) && Covered(c, t2, es) && HartsOk(c, t2, es, harts)
  {
    assert t2.defined == s.table.defined + {epm} + {utm};
    ExtendEnclaves(c, s.table, t2, s.enclaves, eid, e);
    ExtendCovered(c, s.table, t2, s.enclaves, eid, e, epm, utm);
    ExtendHarts(c, s, t1, epm, t2, utm, eid, e);
  }

  lemma GrownLife(s: State, t: Table, rid: nat, eid: nat, e: Enclave)
    requires LifeOk(s.enclaves, s.harts) && eid < |s.enclaves| && s.enclaves[eid].state == Invalid
    requires e.state == Fresh && e.nThread == 0
    ensures LifeOk(s.enclaves[eid := e], SetGlobal(s.harts, t, rid, false))
  {
    IdleLife(s.enclaves, s.harts, SetGlobal(s.harts, t, rid, false), eid, e);
  }

  lemma CreateKept(c: Config, s: State, h: nat, a: CreateArgs, t1: Table, epm: nat, t2: Table, utm: nat, eid: nat,
                   e: Enclave)
    requires Inv(c, s) && h < |s.harts| && Placed2(c, s, a, t1, epm, t2, utm)
    requires AvoidsBottom(s.table, c.nReg, a.epmAddr, a.epmSize, Any)
    requires eid < |s.enclaves| && s.enclaves[eid].state == Invalid
    requires e == NewEnclave(s.enclaves[eid], a, epm, utm, s.harts[h].side.csrs.scounteren, Fresh)
    ensures Inv(c, State(t2, s.enclaves[eid := e], SetGlobal(s.harts, t2, epm, false)))
  {
    TwoRegions(c, s, a, t1, epm, t2, utm);
    BothPlaced(c, s, a, t1, epm, t2, utm);
    assert EnclaveOk(c, s.table, s.enclaves[eid]);
    NewOk(c, t2, s.enclaves[eid], a, epm, utm, s.harts[h].side.csrs.scounteren);
    Grown(c, s, t1, epm, t2, utm, eid, e);
    GrownLife(s, t2, epm, eid, e);
  }

  // ---------------------------------------------------------------- creation undone

  /** Placing a region and freeing it again. */
  lemma AddThenFree(t: Table, t2: Table, rid: nat)
    requires Adds(t, t2, rid) && t.regions[rid] == CLEARED
    ensures FreeRegion(t2, rid).0 == t.(used := t.used - Regs(t2.regions[rid]))
  {
    var r := FreeRegion(t2, rid).0;
    assert r.regions == t.regions;
    assert r.defined == t.defined;
    assert r.used == t.used - Regs(t2.regions[rid]);
  }

  lemma SetThenUnset(nReg: nat, t: Table, pmp: seq<Entry>, own: Option<nat>, shared: nat, r: Region)
    requires PmpOk(t, nReg, pmp, own, shared) && r.reg + 1 < nReg && Regs(r) !! t.used
    ensures UnsetRegion(SetRegion(pmp, r, false), r) == pmp
  {
    assert r.reg in Regs(r);
    assert pmp[r.reg] == BLANK;
    assert TwoEntries(r) ==> r.reg - 1 in Regs(r) && pmp[r.reg - 1] == BLANK;
  }

  lemma GlobalUndone(c: Config, s: State, t1: Table, epm: nat, t2: Table)
    requires HartsOk(c, s.table, s.enclaves, s.harts)
    requires Adds(s.table, t1, epm) && Regs(t1.regions[epm]) !! s.table.used
    requires Private(t2, c.nReg, epm) && t2.regions[epm] == t1.regions[epm]
    ensures UnsetGlobal(SetGlobal(s.harts, t2, epm, false), t2, epm) == s.harts
  {
    var r := UnsetGlobal(SetGlobal(s.harts, t2, epm, false), t2, epm);
    forall k | 0 <= k < |r|
      ensures r[k] == s.harts[k]
    {
      var hart := s.harts[k];
      assert HartOk(c, s.table, s.enclaves, hart);
      if hart.inEnclave {
        SetThenUnset(c.nReg, s.table, hart.pmp, Some(EpmOf(s.enclaves[hart.eid])), UtmOf(s.enclaves[hart.eid]),
          t2.regions[epm]);
      } else {
        SetThenUnset(c.nReg, s.table, hart.pmp, None, c.os, t2.regions[epm]);
      }
    }
  }

  /** On the bottom register setting and unsetting leaves a blank where the hart's shared region was. */
  lemma BottomLost(c: Config, s: State, h: nat, t: Table, rid: nat)
    requires HartsOk(c, s.table, s.enclaves, s.harts) && h < |s.harts|
    requires rid in t.defined && rid < |t.regions| && t.regions[rid].reg + 1 == c.nReg
    ensures var p := UnsetGlobal(SetGlobal(s.harts, t, rid, false), t, rid)[h].pmp;
      |p| == c.nReg > 0 && p[c.nReg - 1] == BLANK && s.harts[h].pmp != p
  {
    assert HartOk(c, s.table, s.enclaves, s.harts[h]);
  }

  /** The unwinding order of create_enclave and the order of destroy_enclave both give back the table,
      but for the shared bottom register's mark, which freeing the shared region always clears. */
  lemma BothFreed(c: Config, s: State, t1: Table, epm: nat, t2: Table, utm: nat)
    requires Base(c, s.table) && Base(c, t1) && Adds(s.table, t1, epm) && Adds(t1, t2, utm)
    requires Regs(t1.regions[epm]) !! s.table.used
    requires Shared(t2, c.nReg, utm) && t2.regions[utm].mode == Napot
    ensures FreeRegion(FreeRegion(t2, utm).0, epm).0 == s.table.(used := s.table.used - {c.nReg - 1})
    ensures FreeRegion(FreeRegion(t2, epm).0, utm).0 == s.table.(used := s.table.used - {c.nReg - 1})
  {
    AddThenFree(t1, t2, utm);
    var a := FreeRegion(FreeRegion(t2, utm).0, epm).0;
    var b := FreeRegion(FreeRegion(t2, epm).0, utm).0;
    assert a.regions == s.table.regions && b.regions == s.table.regions;
    assert a.defined == s.table.defined && b.defined == s.table.defined;
    assert a.used == s.table.used - {c.nReg - 1} && b.used == s.table.used - {c.nReg - 1};
  }
}
