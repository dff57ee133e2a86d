/** One hart's PMP registers against the region table: what they must hold, how the monitor's writes
    keep that, and what the hardware then lets the hart reach. */
module HartPmp {
  import opened Bytes
  import opened Pmp
  import opened Regions
  import opened Options

  const BLANK: Entry := Entry(Off, false, 0)

  /** The registers hold region r with permission perm. */
  predicate Programmed(pmp: seq<Entry>, r: Region, perm: bool)
    requires r.reg < |pmp|
  {
    && pmp[r.reg] == Entry(r.mode, perm, PmpAddr(r))
    && (TwoEntries(r) ==> pmp[r.reg - 1] == Entry(Off, false, r.addr / 4))
  }

  /** Every private region is programmed, open to this hart only if it is its own; free registers are
      blank; the shared bottom register opens the region `shared`. */
  ghost predicate PmpOk(t: Table, nReg: nat, pmp: seq<Entry>, own: Option<nat>, shared: nat) {
    && |pmp| == nReg && nReg > 1 && shared < |t.regions|
    && Privates(t, nReg, pmp, own) && Blanks(t, nReg, pmp)
    && pmp[nReg - 1] == Entry(Napot, true, PmpAddr(t.regions[shared]))
  }

  ghost predicate Privates(t: Table, nReg: nat, pmp: seq<Entry>, own: Option<nat>)
    requires |pmp| == nReg
  {
    forall i: nat :: Private(t, nReg, i) ==> Programmed(pmp, t.regions[i], own == Some(i))
  }

  ghost predicate Blanks(t: Table, nReg: nat, pmp: seq<Entry>)
    requires |pmp| == nReg
  {
    forall k :: 0 <= k < nReg - 1 && k !in t.used ==> pmp[k] == BLANK
  }

  // ---------------------------------------------------------------- what the hardware allows

  /** Below the bottom register only the programmed entry of a private region is switched on. */
  lemma OnlyOwners(t: Table, nReg: nat, pmp: seq<Entry>, own: Option<nat>, k: nat)
    requires Exact(t, nReg) && |pmp| == nReg && Privates(t, nReg, pmp, own) && Blanks(t, nReg, pmp)
    requires k + 1 < nReg && pmp[k].mode != Off
    ensures exists i: nat :: Private(t, nReg, i) && t.regions[i].reg == k
  {
    assert k in t.used;
    assert OwnedReg(t, nReg, k);
    var i: nat :| Private(t, nReg, i) && k in Regs(t.regions[i]);
    assert Programmed(pmp, t.regions[i], own == Some(i));
  }

  /** So an entry there covers an address only for the private region that contains it. */
  lemma CoveredByOwner(t: Table, nReg: nat, pmp: seq<Entry>, own: Option<nat>, shared: nat, k: nat, a: nat)
    requires TableOk(t, nReg) && PmpOk(t, nReg, pmp, own, shared) && a < TWO64
    requires k + 1 < nReg && Matches(pmp, k, a)
    ensures exists i: nat :: Private(t, nReg, i) && t.regions[i].reg == k && Contains(t.regions[i], a)
  {
    OnlyOwners(t, nReg, pmp, own, k);
    var i: nat :| Private(t, nReg, i) && t.regions[i].reg == k;
    assert RegionOk(t.regions[i], nReg) && Programmed(pmp, t.regions[i], own == Some(i));
    ProgrammedMatches(pmp, t.regions[i], own == Some(i), a);
  }

  lemma ProgrammedMatches(pmp: seq<Entry>, r: Region, perm: bool, a: nat)
    requires r.reg < |pmp| && Programmed(pmp, r, perm) && Encodable(r) && a < TWO64
    ensures Matches(pmp, r.reg, a) <==> Contains(r, a) || IsWhole(r.addr, r.size)
  {
    SetMatches(pmp, r, perm, a);
    assert SetRegion(pmp, r, perm)[r.reg] == pmp[r.reg];
    assert TwoEntries(r) ==> SetRegion(pmp, r, perm)[r.reg - 1] == pmp[r.reg - 1];
    assert r.mode == Tor && r.reg > 0 ==> TwoEntries(r);
  }

  /** The region containing an address is unique among the private ones. */
  lemma OwnerUnique(t: Table, nReg: nat, i: nat, j: nat, a: nat)
    requires TableOk(t, nReg) && Private(t, nReg, i) && Private(t, nReg, j)
    requires Contains(t.regions[i], a) && Contains(t.regions[j], a)
    ensures i == j
  {
    assert RegionOk(t.regions[i], nReg) && RegionOk(t.regions[j], nReg);
    assert Intersects(t.regions[i], t.regions[j].addr, t.regions[j].size);
  }

  /** An address inside a private region is decided by that region's entry: only its owner gets in. */
  lemma InsidePrivate(t: Table, nReg: nat, pmp: seq<Entry>, own: Option<nat>, shared: nat, i: nat, a: nat)
    requires TableOk(t, nReg) && PmpOk(t, nReg, pmp, own, shared) && a < TWO64
    requires Private(t, nReg, i) && Contains(t.regions[i], a)
    ensures Allowed(pmp, a) <==> own == Some(i)
  {
    var r := t.regions[i];
    assert RegionOk(r, nReg) && Programmed(pmp, r, own == Some(i));
    ProgrammedMatches(pmp, r, own == Some(i), a);
    forall k | 0 <= k < nReg - 1 && Matches(pmp, k, a)
      ensures k == r.reg
    {
      CoveredByOwner(t, nReg, pmp, own, shared, k, a);
      var j: nat :| Private(t, nReg, j) && t.regions[j].reg == k && Contains(t.regions[j], a);
      OwnerUnique(t, nReg, i, j, a);
    }
    assert Decides(pmp, r.reg, a);
  }

  /** An address outside every private region is decided by the bottom register. */
  lemma OutsidePrivate(t: Table, nReg: nat, pmp: seq<Entry>, own: Option<nat>, shared: nat, a: nat)
    requires TableOk(t, nReg) && PmpOk(t, nReg, pmp, own, shared) && a < TWO64
    requires forall i: nat :: Private(t, nReg, i) ==> !Contains(t.regions[i], a)
    requires Encodable(t.regions[shared]) && t.regions[shared].mode == Napot
    ensures Allowed(pmp, a) <==>
      Contains(t.regions[shared], a) || IsWhole(t.regions[shared].addr, t.regions[shared].size)
  {
    forall k | 0 <= k < nReg - 1
      ensures !Matches(pmp, k, a)
    {
      if Matches(pmp, k, a) {
        CoveredByOwner(t, nReg, pmp, own, shared, k, a);
      }
    }
    var r := t.regions[shared].(reg := nReg - 1);
    ProgrammedMatches(pmp, r, true, a);
    assert Matches(pmp, nReg - 1, a) ==> Decides(pmp, nReg - 1, a);
  }

  /** Isolation of a hart outside enclaves: it reaches exactly what no private region holds. */
  lemma HostReach(t: Table, nReg: nat, pmp: seq<Entry>, os: nat, a: nat)
    requires TableOk(t, nReg) && PmpOk(t, nReg, pmp, None, os) && a < TWO64
    requires IsWhole(t.regions[os].addr, t.regions[os].size) && t.regions[os].mode == Napot
    ensures Allowed(pmp, a) <==> forall i: nat :: Private(t, nReg, i) ==> !Contains(t.regions[i], a)
  {
    if i: nat :| Private(t, nReg, i) && Contains(t.regions[i], a) {
      InsidePrivate(t, nReg, pmp, None, os, i, a);
    } else {
      OutsidePrivate(t, nReg, pmp, None, os, a);
    }
  }

  /** Isolation of a hart inside an enclave: it reaches exactly its private and its shared region. */
  lemma EnclaveReach(t: Table, nReg: nat, pmp: seq<Entry>, own: nat, shared: nat, a: nat)
    requires TableOk(t, nReg) && PmpOk(t, nReg, pmp, Some(own), shared) && a < TWO64
    requires Private(t, nReg, own) && shared in t.defined && !t.regions[shared].overlap
    requires t.regions[shared].reg == nReg - 1
    ensures Allowed(pmp, a) <==> Contains(t.regions[own], a) || Contains(t.regions[shared], a)
  {
    var s := t.regions[shared];
    assert RegionOk(s, nReg) && RegionOk(t.regions[own], nReg);
    if i: nat :| Private(t, nReg, i) && Contains(t.regions[i], a) {
      InsidePrivate(t, nReg, pmp, Some(own), shared, i, a);
      assert RegionOk(t.regions[i], nReg);
      assert !Intersects(t.regions[i], s.addr, s.size);
      if Contains(t.regions[own], a) {
        OwnerUnique(t, nReg, i, own, a);
      }
    } else {
      OutsidePrivate(t, nReg, pmp, Some(own), shared, a);
    }
  }

  // ---------------------------------------------------------------- what the monitor's writes keep

  /** pmp_set_global of a new private region, closed. */
  lemma AddPrivate(t: Table, t': Table, nReg: nat, pmp: seq<Entry>, own: Option<nat>, shared: nat, rid: nat)
    requires PmpOk(t, nReg, pmp, own, shared) && RegsApart(t, nReg)
    requires rid !in t.defined && rid < |t.regions| && rid != shared && own != Some(rid)
    requires |t'.regions| == |t.regions| && t'.defined == t.defined + {rid}
    requires forall i :: 0 <= i < |t.regions| && i != rid ==> t'.regions[i] == t.regions[i]
    requires Private(t', nReg, rid) && Regs(t'.regions[rid]) !! t.used && t'.used == t.used + Regs(t'.regions[rid])
    ensures PmpOk(t', nReg, SetRegion(pmp, t'.regions[rid], false), own, shared)
  {
    var r := t'.regions[rid];
    var p := SetRegion(pmp, r, false);
    forall i: nat | Private(t', nReg, i) && i != rid
      ensures Programmed(p, t'.regions[i], own == Some(i))
    {
      assert Private(t, nReg, i);
      assert Regs(t.regions[i]) <= t.used;
      assert t.regions[i].reg in Regs(t.regions[i]);
      assert r.reg in Regs(r);
    }
  }

  /** A new region on the bottom register changes no register. */
  lemma AddShared(t: Table, t': Table, nReg: nat, pmp: seq<Entry>, own: Option<nat>, shared: nat, rid: nat)
    requires PmpOk(t, nReg, pmp, own, shared)
    requires rid !in t.defined && rid < |t.regions| && rid != shared
    requires |t'.regions| == |t.regions| && t'.defined == t.defined + {rid}
    requires forall i :: 0 <= i < |t.regions| && i != rid ==> t'.regions[i] == t.regions[i]
    requires t'.regions[rid].reg == nReg - 1 && t'.used == t.used + {nReg - 1}
    ensures PmpOk(t', nReg, pmp, own, shared)
  {
    forall i: nat | Private(t', nReg, i)
      ensures Programmed(pmp, t'.regions[i], own == Some(i))
    {
      assert Private(t, nReg, i);
    }
  }

  /** pmp_unset_global of a private region, then freeing it. */
  lemma DropPrivate(t: Table, nReg: nat, pmp: seq<Entry>, own: Option<nat>, shared: nat, rid: nat)
    requires RegsApart(t, nReg) && PmpOk(t, nReg, pmp, own, shared)
    requires Private(t, nReg, rid) && rid != shared && own != Some(rid)
    ensures PmpOk(FreeRegion(t, rid).0, nReg, UnsetRegion(pmp, t.regions[rid]), own, shared)
  {
    DropPrivates(t, nReg, pmp, own, rid);
    var r := t.regions[rid];
    assert Regs(r) <= t.used && r.reg in Regs(r);
  }

  lemma DropPrivates(t: Table, nReg: nat, pmp: seq<Entry>, own: Option<nat>, rid: nat)
    requires RegsApart(t, nReg) && |pmp| == nReg && Privates(t, nReg, pmp, own) && Private(t, nReg, rid)
    ensures Privates(FreeRegion(t, rid).0, nReg, UnsetRegion(pmp, t.regions[rid]), own)
  {
    var t' := FreeRegion(t, rid).0;
    var r := t.regions[rid];
    forall i: nat | Private(t', nReg, i)
      ensures Programmed(UnsetRegion(pmp, r), t'.regions[i], own == Some(i))
    {
      assert Private(t, nReg, i) && i != rid;
      assert Programmed(pmp, t.regions[i], own == Some(i));
      assert Regs(t.regions[i]) !! Regs(r);
      assert t.regions[i].reg in Regs(t.regions[i]) && r.reg in Regs(r);
    }
  }

  /** Freeing a region on the bottom register that this hart does not have open. */
  lemma DropShared(t: Table, nReg: nat, pmp: seq<Entry>, own: Option<nat>, shared: nat, rid: nat)
    requires TableOk(t, nReg) && PmpOk(t, nReg, pmp, own, shared)
    requires rid in t.defined && t.regions[rid].reg == nReg - 1 && rid != shared
    ensures PmpOk(FreeRegion(t, rid).0, nReg, pmp, own, shared)
  {
    var t' := FreeRegion(t, rid).0;
    assert RegionOk(t.regions[rid], nReg);
    forall i: nat | Private(t', nReg, i)
      ensures Programmed(pmp, t'.regions[i], own == Some(i))
    {
      assert Private(t, nReg, i);
    }
  }

  /** Reprogramming one private region. */
  lemma SetPrivate(t: Table, nReg: nat, pmp: seq<Entry>, own: Option<nat>, rid: nat, perm: bool)
    requires |pmp| == nReg && RegsApart(t, nReg) && Private(t, nReg, rid)
    requires Privates(t, nReg, pmp, own) && Blanks(t, nReg, pmp) && (own == None || own == Some(rid))
    ensures var p := SetRegion(pmp, t.regions[rid], perm);
      Privates(t, nReg, p, if perm then Some(rid) else None) && Blanks(t, nReg, p) && p[nReg - 1] == pmp[nReg - 1]
  {
    var r := t.regions[rid];
    var p := SetRegion(pmp, r, perm);
    assert Regs(r) <= t.used && r.reg in Regs(r);
    forall i: nat | Private(t, nReg, i) && i != rid
      ensures Programmed(p, t.regions[i], false)
    {
      assert Programmed(pmp, t.regions[i], false);
      assert Regs(t.regions[i]) !! Regs(r) && t.regions[i].reg in Regs(t.regions[i]);
    }
  }

  /** Reprogramming the bottom register. */
  lemma SetShared(t: Table, nReg: nat, pmp: seq<Entry>, own: Option<nat>, r: Region, perm: bool)
    requires |pmp| == nReg && nReg > 1 && r.reg == nReg - 1 && r.mode == Napot
    requires Privates(t, nReg, pmp, own) && Blanks(t, nReg, pmp)
    ensures var p := SetRegion(pmp, r, perm);
      Privates(t, nReg, p, own) && Blanks(t, nReg, p) && p[nReg - 1] == Entry(Napot, perm, PmpAddr(r))
  {
    var p := SetRegion(pmp, r, perm);
    forall i: nat | Private(t, nReg, i)
      ensures Programmed(p, t.regions[i], own == Some(i))
    {
      assert Programmed(pmp, t.regions[i], own == Some(i));
    }
  }

  /** Entry: close the system region, open the private one, open the shared one, in this order. */
  lemma EnterKeeps(t: Table, nReg: nat, pmp: seq<Entry>, os: nat, epm: nat, utm: nat)
    requires TableOk(t, nReg) && PmpOk(t, nReg, pmp, None, os)
    requires os in t.defined && t.regions[os].reg == nReg - 1
    requires Private(t, nReg, epm) && utm in t.defined && t.regions[utm].reg == nReg - 1
    ensures var p := SetRegion(SetRegion(SetRegion(pmp, t.regions[os], false), t.regions[epm], true),
                             t.regions[utm], true);
      PmpOk(t, nReg, p, Some(epm), utm)
  {
    assert RegionOk(t.regions[os], nReg) && RegionOk(t.regions[utm], nReg);
    var p1 := SetRegion(pmp, t.regions[os], false);
    SetShared(t, nReg, pmp, None, t.regions[os], false);
    SetPrivate(t, nReg, p1, None, epm, true);
    SetShared(t, nReg, SetRegion(p1, t.regions[epm], true), Some(epm), t.regions[utm], true);
  }

  /** Leaving: close the private one, close the shared one, open the system region, in this order. */
  lemma LeaveKeeps(t: Table, nReg: nat, pmp: seq<Entry>, os: nat, epm: nat, utm: nat)
    requires TableOk(t, nReg) && PmpOk(t, nReg, pmp, Some(epm), utm)
    requires os in t.defined && t.regions[os].reg == nReg - 1
    requires Private(t, nReg, epm) && utm in t.defined && t.regions[utm].reg == nReg - 1
    ensures var p := SetRegion(SetRegion(SetRegion(pmp, t.regions[epm], false), t.regions[utm], false),
                             t.regions[os], true);
      PmpOk(t, nReg, p, None, os)
  {
    assert RegionOk(t.regions[os], nReg) && RegionOk(t.regions[utm], nReg);
    var p1 := SetRegion(pmp, t.regions[epm], false);
    SetPrivate(t, nReg, pmp, Some(epm), epm, false);
    SetShared(t, nReg, p1, None, t.regions[utm], false);
    SetShared(t, nReg, SetRegion(p1, t.regions[utm], false), None, t.regions[os], true);
  }
}
