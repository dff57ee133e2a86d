/** The invariant every call of the monitor keeps, and the isolation it gives. */
module MonitorInv {
  import opened Bytes
  import opened Pmp
  import opened Regions
  import opened HartPmp
  import opened Monitor
  import opened MonitorCycle
  import opened Options

  // ---------------------------------------------------------------- the invariant

  /** The slots past the first two are never filled. */
  predicate Shaped(e: Enclave) {
    forall i :: 2 <= i < |e.slots| ==> e.slots[i].kind == NoRegion
  }

  function EpmOf(e: Enclave): nat {
    e.slots[0].rid
  }

  function UtmOf(e: Enclave): nat {
    e.slots[1].rid
  }

  /** A region that excludes overlap, on the bottom register. */
  predicate Shared(t: Table, nReg: nat, i: nat) {
    i in t.defined && i < |t.regions| && t.regions[i].reg + 1 == nReg && !t.regions[i].overlap
  }

  predicate EnclaveOk(c: Config, t: Table, e: Enclave) {
    && Shaped(e)
    && (Live(e) ==>
          && e.slots[0].kind == Epm && e.slots[1].kind == Utm
          && Private(t, c.nReg, EpmOf(e)) && EpmOf(e) != c.sm && Shared(t, c.nReg, UtmOf(e)))
  }

  ghost predicate EnclavesOk(c: Config, t: Table, es: seq<Enclave>) {
    && (forall i :: 0 <= i < |es| ==> EnclaveOk(c, t, es[i]))
    && (forall i, j :: 0 <= i < |es| && 0 <= j < |es| && i != j && Live(es[i]) && Live(es[j]) ==>
          EpmOf(es[i]) != EpmOf(es[j]) && UtmOf(es[i]) != UtmOf(es[j]))
  }

  ghost predicate Owned(es: seq<Enclave>, rid: nat) {
    exists i :: 0 <= i < |es| && Live(es[i]) && EpmOf(es[i]) == rid
  }

  /** Every private region is the monitor's or a live enclave's. */
  ghost predicate Covered(c: Config, t: Table, es: seq<Enclave>) {
    forall i: nat :: Private(t, c.nReg, i) ==> i == c.sm || Owned(es, i)
  }

  /** The two regions made at boot; freed table entries are blank. */
  ghost predicate Base(c: Config, t: Table) {
    && c.nReg > 1 && Private(t, c.nReg, c.sm) && t.regions[c.sm].size > 0
    && c.os in t.defined && c.os < |t.regions| && t.regions[c.os].reg + 1 == c.nReg && t.regions[c.os].overlap
    && IsWhole(t.regions[c.os].addr, t.regions[c.os].size) && t.regions[c.os].mode == Napot
    && t.regions[c.sm].reg == 0 && 0 in t.used
    && (forall i :: 0 <= i < |t.regions| && i !in t.defined ==> t.regions[i] == CLEARED)
  }

  /** A hart is in a running enclave, with its two regions open, or outside, with the system's. */
  ghost predicate HartOk(c: Config, t: Table, es: seq<Enclave>, hart: Hart) {
    if hart.inEnclave then
      && hart.eid < |es| && es[hart.eid].state == Running
      && PmpOk(t, c.nReg, hart.pmp, Some(EpmOf(es[hart.eid])), UtmOf(es[hart.eid]))
    else PmpOk(t, c.nReg, hart.pmp, None, c.os)
  }

  ghost predicate HartsOk(c: Config, t: Table, es: seq<Enclave>, harts: seq<Hart>) {
    forall h :: 0 <= h < |harts| ==> HartOk(c, t, es, harts[h])
  }

  ghost predicate Inv(c: Config, s: State) {
    && Base(c, s.table) && TableOk(s.table, c.nReg)
    && EnclavesOk(c, s.table, s.enclaves) && Covered(c, s.table, s.enclaves)
    && HartsOk(c, s.table, s.enclaves, s.harts) && LifeOk(s.enclaves, s.harts)
  }

  // ---------------------------------------------------------------- isolation

  /** a lies in the region with this number. */
  predicate InRegion(t: Table, rid: nat, a: nat) {
    rid < |t.regions| && Contains(t.regions[rid], a)
  }

  /** a belongs to the monitor or to a live enclave's private memory. */
  ghost predicate Protected(c: Config, s: State, a: nat) {
    InRegion(s.table, c.sm, a) || exists e: nat :: InEpm(s, e, a)
  }

  predicate InEpm(s: State, e: nat, a: nat) {
    e < |s.enclaves| && Live(s.enclaves[e]) && InRegion(s.table, EpmOf(s.enclaves[e]), a)
  }

  predicate OwnMemory(s: State, e: nat, a: nat) {
    || InEpm(s, e, a)
    || (e < |s.enclaves| && Live(s.enclaves[e]) && InRegion(s.table, UtmOf(s.enclaves[e]), a))
  }

  /** What the hardware should let a hart reach: outside enclaves everything that is not protected;
      inside one exactly its two regions. */
  ghost predicate Isolated(c: Config, s: State) {
    forall h, a: nat :: 0 <= h < |s.harts| && a < TWO64 ==> Reaches(c, s, s.harts[h], a)
  }

  ghost predicate Reaches(c: Config, s: State, hart: Hart, a: nat) {
    Allowed(hart.pmp, a) <==> if hart.inEnclave then OwnMemory(s, hart.eid, a) else !Protected(c, s, a)
  }

  lemma PrivateIsProtected(c: Config, s: State, a: nat)
    requires Inv(c, s)
    ensures Protected(c, s, a) <==> exists i: nat :: Private(s.table, c.nReg, i) && Contains(s.table.regions[i], a)
  {
    var t, es := s.table, s.enclaves;
    if i: nat :| Private(t, c.nReg, i) && Contains(t.regions[i], a) {
      if i != c.sm {
        assert Owned(es, i);
        var e :| 0 <= e < |es| && Live(es[e]) && EpmOf(es[e]) == i;
        assert InEpm(s, e, a);
      }
    }
    if e: nat :| InEpm(s, e, a) {
      assert EnclaveOk(c, t, es[e]);
      assert Private(t, c.nReg, EpmOf(es[e]));
    }
  }

  /** The invariant isolates: every hart, every address. */
  lemma InvIsolates(c: Config, s: State)
    requires Inv(c, s)
    ensures Isolated(c, s)
  {
    forall h, a: nat | 0 <= h < |s.harts| && a < TWO64
      ensures Reaches(c, s, s.harts[h], a)
    {
      HartIsolated(c, s, h, a);
    }
  }

  lemma HartIsolated(c: Config, s: State, h: nat, a: nat)
    requires Inv(c, s) && h < |s.harts| && a < TWO64
    ensures Reaches(c, s, s.harts[h], a)
  {
    var hart := s.harts[h];
    assert HartOk(c, s.table, s.enclaves, hart);
    if hart.inEnclave {
      var e := s.enclaves[hart.eid];
      assert EnclaveOk(c, s.table, e);
      EnclaveReach(s.table, c.nReg, hart.pmp, EpmOf(e), UtmOf(e), a);
    } else {
      HostReach(s.table, c.nReg, hart.pmp, c.os, a);
      PrivateIsProtected(c, s, a);
    }
  }

  lemma Disjoint(t: Table, i: nat, j: nat, a: nat)
    requires (forall i :: i in t.defined ==> i < |t.regions|) && Apart(t)
    requires i in t.defined && j in t.defined && i != j && !t.regions[i].overlap && !t.regions[j].overlap
    ensures !(Contains(t.regions[i], a) && Contains(t.regions[j], a))
  {
    assert !Intersects(t.regions[i], t.regions[j].addr, t.regions[j].size);
  }

  // ---------------------------------------------------------------- entering and leaving keep it

  lemma {:induction false} SlotsFold(pmp: seq<Entry>, t: Table, slots: seq<Slot>, perm: bool)
    requires |slots| >= 2 && slots[0].kind == Epm && slots[1].kind == Utm
    requires forall i :: 2 <= i < |slots| ==> slots[i].kind == NoRegion
    ensures ProgramSlots(pmp, t, slots, perm) == Program(Program(pmp, t, slots[0].rid, perm), t, slots[1].rid, perm)
  {
    if |slots| == 2 {
      assert slots[..1][..0] == [];
      assert ProgramSlots(pmp, t, slots[..1], perm) == Program(pmp, t, slots[0].rid, perm);
    } else {
      SlotsFold(pmp, t, slots[..|slots| - 1], perm);
    }
  }

  /** Changing one enclave's state, thread count and thread keeps the table facts. */
  lemma SameSlots(c: Config, t: Table, es: seq<Enclave>, eid: nat, e: Enclave)
    requires EnclavesOk(c, t, es) && Covered(c, t, es) && eid < |es| && Live(es[eid])
    requires e.slots == es[eid].slots && Live(e)
    ensures EnclavesOk(c, t, es[eid := e]) && Covered(c, t, es[eid := e])
  {
    var es' := es[eid := e];
    forall i | 0 <= i < |es'|
      ensures EnclaveOk(c, t, es'[i])
    {
      assert EnclaveOk(c, t, es[i]);
    }
    assert EnclaveOk(c, t, es[eid]);
    forall i: nat | Private(t, c.nReg, i) && i != c.sm
      ensures Owned(es', i)
    {
      assert Owned(es, i);
      var k :| 0 <= k < |es| && Live(es[k]) && EpmOf(es[k]) == i;
      assert Live(es'[k]) && EpmOf(es'[k]) == i;
    }
  }

  lemma EnterPmp(c: Config, s: State, h: nat, eid: nat)
    requires Inv(c, s) && h < |s.harts| && !s.harts[h].inEnclave && Fit(s, eid, {Fresh, Stopped})
    ensures var e := s.enclaves[eid];
      PmpOk(s.table, c.nReg, ProgramSlots(Program(s.harts[h].pmp, s.table, c.os, false), s.table, e.slots, true),
            Some(EpmOf(e)), UtmOf(e))
  {
    var e, t := s.enclaves[eid], s.table;
    assert EnclaveOk(c, t, e) && HartOk(c, t, s.enclaves, s.harts[h]);
    SlotsFold(Program(s.harts[h].pmp, t, c.os, false), t, e.slots, true);
    EnterKeeps(t, c.nReg, s.harts[h].pmp, c.os, EpmOf(e), UtmOf(e));
  }

  /** Harts outside an enclave do not see its record change. */
  lemma OtherHarts(c: Config, t: Table, es: seq<Enclave>, harts: seq<Hart>, h: nat, eid: nat, e: Enclave, hart: Hart)
    requires HartsOk(c, t, es, harts) && h < |harts| && eid < |es|
    requires forall k: nat :: k != h ==> !Inside(harts, k, eid)
    requires HartOk(c, t, es[eid := e], hart)
    ensures HartsOk(c, t, es[eid := e], harts[h := hart])
  {
    forall k | 0 <= k < |harts| && k != h
      ensures HartOk(c, t, es[eid := e], harts[k])
    {
      assert HartOk(c, t, es, harts[k]);
      assert !Inside(harts, k, eid);
    }
  }

  lemma EnterInv(c: Config, s: State, h: nat, eid: nat, first: bool)
    requires Inv(c, s) && h < |s.harts| && !s.harts[h].inEnclave && Fit(s, eid, {Fresh, Stopped})
    ensures Inv(c, Enter(c, s, h, eid, first))
  {
    var s' := Enter(c, s, h, eid, first);
    assert EnclaveOk(c, s.table, s.enclaves[eid]);
    SameSlots(c, s.table, s.enclaves, eid, s'.enclaves[eid]);
    EnterPmp(c, s, h, eid);
    NobodyInside(s.enclaves, s.harts, eid);
    OtherHarts(c, s.table, s.enclaves, s.harts, h, eid, s'.enclaves[eid], s'.harts[h]);
    EnterLife(c, s, h, eid, first);
  }

  lemma LeavePmp(c: Config, s: State, h: nat)
    requires Inv(c, s) && h < |s.harts| && s.harts[h].inEnclave
    ensures s.harts[h].eid < |s.enclaves|
    ensures var e := s.enclaves[s.harts[h].eid];
      PmpOk(s.table, c.nReg, Program(ProgramSlots(s.harts[h].pmp, s.table, e.slots, false), s.table, c.os, true),
        None, c.os)
  {
    var t := s.table;
    assert HartOk(c, t, s.enclaves, s.harts[h]);
    var e := s.enclaves[s.harts[h].eid];
    assert EnclaveOk(c, t, e);
    SlotsFold(s.harts[h].pmp, t, e.slots, false);
    LeaveKeeps(t, c.nReg, s.harts[h].pmp, c.os, EpmOf(e), UtmOf(e));
  }

  lemma LeaveInv(c: Config, s: State, h: nat, edge: bool, pending: set<nat>)
    requires Inv(c, s) && h < |s.harts| && s.harts[h].inEnclave
    ensures Fit(s, s.harts[h].eid, {Running})
    ensures Inv(c, Leave(c, s, h, s.harts[h].eid, edge, pending))
  {
    var eid := s.harts[h].eid;
    assert HartOk(c, s.table, s.enclaves, s.harts[h]);
    var s' := Leave(c, s, h, eid, edge, pending);
    LeaveLife(c, s, h, edge, pending);
    assert Counted(s.enclaves[eid]);
    SameSlots(c, s.table, s.enclaves, eid, s'.enclaves[eid]);
    LeavePmp(c, s, h);
    assert Inside(s.harts, h, eid);
    OtherHarts(c, s.table, s.enclaves, s.harts, h, eid, s'.enclaves[eid], s'.harts[h]);
  }
}
