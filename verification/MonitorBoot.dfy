/** The boot state keeps the invariant. */
module MonitorBoot {
  import opened Bytes
  import opened Pmp
  import opened Regions
  import opened HartPmp
  import opened Context
  import opened Monitor
  import opened MonitorCycle
  import opened MonitorInv
  import opened Options

  // ---------------------------------------------------------------- sm_init

  function BootTable(nReg: nat, maxRegion: nat, smBase: U64, smSize: U64): (Table, Outcome, Outcome)
    requires nReg > 0
  {
    var (t1, sm) := InitRegion(Table(seq(maxRegion, _ => CLEARED), {}, {}), nReg, smBase, smSize, Top, false);
    var (t2, os) := InitRegion(t1, nReg, 0, ALL_ONES, Bottom, true);
    (t2, sm, os)
  }

  function BootHart(c: Config, t: Table, side: Side): Hart {
    Hart(Program(Program(seq(c.nReg, _ => BLANK), t, c.sm, false), t, c.os, true), false, 0, side)
  }

  function Boot(c: Config, t: Table, threads: seq<Thread>, sides: seq<Side>): State {
    State(t,
          seq(|threads|, i requires 0 <= i < |threads| =>
            Enclave(Invalid, [Slot(0, NoRegion), Slot(0, NoRegion)], 0, Params(0, 0, 0, 0, 0, 0, 0), threads[i])),
          seq(|sides|, i requires 0 <= i < |sides| => BootHart(c, t, sides[i])))
  }

  lemma BootTableOk(nReg: nat, maxRegion: nat, smBase: U64, smSize: U64)
    requires nReg > 1 && !IsWhole(smBase, smSize)
    ensures var (t, sm, os) := BootTable(nReg, maxRegion, smBase, smSize);
      sm.Ok? && os.Ok? ==>
        && TableOk(t, nReg) && Base(Config(nReg, sm.rid, os.rid), t) && t.defined == {sm.rid, os.rid}
        && t.used == {0, nReg - 1}
  {
    var t0 := Table(seq(maxRegion, _ => CLEARED), {}, {});
    var (t1, sm) := InitRegion(t0, nReg, smBase, smSize, Top, false);
    var (t2, os) := InitRegion(t1, nReg, 0, ALL_ONES, Bottom, true);
    if sm.Ok? && os.Ok? {
      assert TableOk(t0, nReg);
      InitKeeps(t0, nReg, smBase, smSize, Top, false);
      InitResult(t0, nReg, smBase, smSize, Top, false);
      InitKeeps(t1, nReg, 0, ALL_ONES, Bottom, true);
      InitResult(t1, nReg, 0, ALL_ONES, Bottom, true);
      assert RegionOk(t2.regions[os.rid], nReg);
    }
  }

  lemma BootPmp(c: Config, t: Table)
    requires Base(c, t) && t.defined == {c.sm, c.os} && t.used == {0, c.nReg - 1}
    ensures PmpOk(t, c.nReg, Program(Program(seq(c.nReg, _ => BLANK), t, c.sm, false), t, c.os, true), None, c.os)
  {
    var p := Program(Program(seq(c.nReg, _ => BLANK), t, c.sm, false), t, c.os, true);
    assert Programmed(p, t.regions[c.sm], false);
  }

  /** After boot the invariant holds: nothing but the monitor is private, and every hart is outside. */
  lemma BootInv(nReg: nat, maxRegion: nat, smBase: U64, smSize: U64, threads: seq<Thread>, sides: seq<Side>)
    requires nReg > 1 && !IsWhole(smBase, smSize)
    ensures var (t, sm, os) := BootTable(nReg, maxRegion, smBase, smSize);
      sm.Ok? && os.Ok? ==> var c := Config(nReg, sm.rid, os.rid); Inv(c, Boot(c, t, threads, sides))
  {
    var (t, sm, os) := BootTable(nReg, maxRegion, smBase, smSize);
    BootTableOk(nReg, maxRegion, smBase, smSize);
    if sm.Ok? && os.Ok? {
      var c := Config(nReg, sm.rid, os.rid);
      BootPmp(c, t);
      var s := Boot(c, t, threads, sides);
      assert forall h: nat, e: nat :: !Inside(s.harts, h, e);
    }
  }
}
