/** The monitor's table of protected regions: two bitmaps and an array, shared by all harts. */
module Regions {
  import opened Arith
  import opened Bytes
  import opened Pmp
  import opened Options

  datatype Priority = Any | Top | Bottom

  /** regions[], region_def_bitmap and reg_bitmap; a bitmap is the set of its set bits. */
  datatype Table = Table(regions: seq<Region>, defined: set<nat>, used: set<nat>)

  datatype Outcome =
    Ok(rid: nat) | SizeInvalid | Overlapping | NotPageGranular | ImpossibleTor | MaxReached | NoSuchRegion

  const CLEARED: Region := Region(0, 0, Off, false, 0)

  // ---------------------------------------------------------------- bitmap search

  predicate FreeAt(bits: set<nat>, i: nat, width: nat) {
    forall k :: i <= k < i + width ==> k !in bits
  }

  /** search_rightmost_unset with a mask of `width` ones: the lowest run of clear bits. */
  function Search(bits: set<nat>, max: nat, width: nat, i: nat): (r: Option<nat>)
    ensures r.Some? ==> i <= r.value && r.value + width <= max && FreeAt(bits, r.value, width)
    ensures forall j :: i <= j && j + width <= max && (r.None? || j < r.value) ==> !FreeAt(bits, j, width)
    decreases max - i
  {
    if i + width > max then None
    else if FreeAt(bits, i, width) then Some(i)
    else if i == max then None
    else Search(bits, max, width, i + 1)
  }

  // ---------------------------------------------------------------- overlap

  predicate Intersects(r: Region, addr: nat, size: nat) {
    r.addr < addr + size && r.addr + r.size > addr
  }

  /** detect_region_overlap: a range that wraps counts as overlapping. */
  predicate Collides(t: Table, addr: nat, size: nat) {
    addr + size >= TWO64
    || exists i ::
         0 <= i < |t.regions| && i in t.defined && !t.regions[i].overlap && Intersects(t.regions[i], addr, size)
  }

  // ---------------------------------------------------------------- allocation

  /** The source's test that only one bit is set. */
  predicate OneBit(n: nat) {
    n == 1 || (n > 1 && n % 2 == 0 && OneBit(n / 2))
  }

  /** It holds of the powers of two and of nothing else. */
  lemma {:induction false} OneBitIsPow2(n: nat)
    ensures OneBit(n) <==> IsPow2(n)
  {
    if n == 1 {
      assert n == Pow2(0);
    } else if OneBit(n) {
      OneBitIsPow2(n / 2);
      var k: nat :| n / 2 == Pow2(k);
      assert n == Pow2(k + 1);
    } else if IsPow2(n) {
      var k: nat :| n == Pow2(k);
      assert n / 2 == Pow2(k - 1);
      OneBitIsPow2(n / 2);
    }
  }

  predicate PowerRegion(start: nat, size: nat) {
    IsWhole(start, size) || (OneBit(size) && start % size == 0)
  }

  function PickReg(used: set<nat>, nReg: nat, pri: Priority, width: nat): Option<nat>
    requires nReg > 0
  {
    match pri
    case Any => Search(used, nReg, width, 0)
    case Top => if 0 in used then None else Some(0)
    case Bottom => Some(nReg - 1)
  }

  /** Enter a region into the table at the lowest free index. */
  function Place(t: Table, start: nat, size: nat, mode: Mode, overlap: bool, reg: Option<nat>): (Table, Outcome) {
    var rid := Search(t.defined, |t.regions|, 1, 0);
    if rid.None? || reg.None? then (t, MaxReached)
    else
      var upper := if mode == Tor && reg.value > 0 then reg.value + 1 else reg.value;
      var r := Region(start, size, mode, overlap, upper);
      (Table(t.regions[rid.value := r], t.defined + {rid.value}, t.used + {reg.value, upper}), Ok(rid.value))
  }

  /** pmp_region_init. */
  function InitRegion(t: Table, nReg: nat, start: nat, size: nat, pri: Priority, overlap: bool): (Table, Outcome)
    requires nReg > 0
  {
    if size == 0 then (t, SizeInvalid)
    else if !overlap && Collides(t, start, size) then (t, Overlapping)
    else if (size != ALL_ONES && size % PGSIZE != 0) || start % PGSIZE != 0 then (t, NotPageGranular)
    else if PowerRegion(start, size) then Place(t, start, size, Napot, overlap, PickReg(t.used, nReg, pri, 1))
    else if pri != Any && (pri != Top || start != 0) then (t, ImpossibleTor)
    else Place(t, start, size, Tor, overlap, PickReg(t.used, nReg, pri, 2))
  }

  /** pmp_region_free_atomic. */
  function FreeRegion(t: Table, rid: nat): (Table, Outcome) {
    if rid !in t.defined || rid >= |t.regions| then (t, NoSuchRegion)
    else (Table(t.regions[rid := CLEARED], t.defined - {rid}, t.used - Regs(t.regions[rid])), Ok(rid))
  }

  // ---------------------------------------------------------------- the invariant

  /** A region with registers of its own: everything but the ones on the shared bottom register. */
  predicate Private(t: Table, nReg: nat, i: nat) {
    i in t.defined && i < |t.regions| && t.regions[i].reg + 1 < nReg
  }

  ghost predicate RegionOk(r: Region, nReg: nat) {
    && Encodable(r) && r.reg < nReg
    && (r.reg + 1 == nReg ==> r.mode == Napot)
    && (r.reg + 1 < nReg ==> !r.overlap)
    && (!r.overlap ==> !IsWhole(r.addr, r.size) && r.addr + r.size < TWO64)
  }

  /** Regions are encodable and do not wrap; regions that exclude overlap are disjoint; private
      regions own disjoint registers; below the bottom register the bitmap is exact. */
  ghost predicate TableOk(t: Table, nReg: nat) {
    && (forall i :: i in t.defined ==> i < |t.regions| && RegionOk(t.regions[i], nReg))
    && Apart(t) && RegsApart(t, nReg) && Exact(t, nReg)
  }

  /** Regions that exclude overlap are disjoint. */
  ghost predicate Apart(t: Table)
    requires forall i :: i in t.defined ==> i < |t.regions|
  {
    forall i, j :: i in t.defined && j in t.defined && i != j && !t.regions[i].overlap && !t.regions[j].overlap ==>
      !Intersects(t.regions[i], t.regions[j].addr, t.regions[j].size)
  }

  /** Private regions own disjoint registers, marked in the bitmap. */
  ghost predicate RegsApart(t: Table, nReg: nat) {
    && (forall i: nat, j: nat :: Private(t, nReg, i) && Private(t, nReg, j) && i != j ==>
          Regs(t.regions[i]) !! Regs(t.regions[j]))
    && (forall i: nat :: Private(t, nReg, i) ==> Regs(t.regions[i]) <= t.used)
  }

  /** Every marked register below the bottom one is owned. */
  ghost predicate Exact(t: Table, nReg: nat) {
    forall k :: k in t.used ==> k < nReg && (k + 1 < nReg ==> OwnedReg(t, nReg, k))
  }

  ghost predicate OwnedReg(t: Table, nReg: nat, k: nat) {
    exists i: nat :: Private(t, nReg, i) && k in Regs(t.regions[i])
  }

  /** The registers a request will be given stay off the bottom one: what a caller can check
      beforehand for a request of any priority. */
  predicate AvoidsBottom(t: Table, nReg: nat, start: nat, size: nat, pri: Priority)
    requires nReg > 0
  {
    var width := if PowerRegion(start, size) then 1 else 2;
    pri == Any ==> var reg := PickReg(t.used, nReg, Any, width); reg.None? || reg.value + width < nReg
  }

  /** The register a new region is given is not owned, unless it is the shared one. */
  ghost predicate Vacant(t: Table, nReg: nat, mode: Mode, reg: nat) {
    var upper := if mode == Tor && reg > 0 then reg + 1 else reg;
    upper + 1 < nReg ==> reg !in t.used && upper !in t.used
  }

  lemma PlaceApart(t: Table, start: nat, size: nat, mode: Mode, overlap: bool, reg: Option<nat>)
    requires (forall i :: i in t.defined ==> i < |t.regions|) && Apart(t)
    requires !overlap ==> !Collides(t, start, size)
    ensures var t' := Place(t, start, size, mode, overlap, reg).0;
      (forall i :: i in t'.defined ==> i < |t'.regions|) && Apart(t')
  {
    var (t', out) := Place(t, start, size, mode, overlap, reg);
    if out.Ok? && !overlap {
      assert FreeAt(t.defined, out.rid, 1);
      var r := t'.regions[out.rid];
      forall i | i in t.defined && i != out.rid && !t.regions[i].overlap
        ensures !Intersects(t'.regions[i], r.addr, r.size) && !Intersects(r, t'.regions[i].addr, t'.regions[i].size)
      {
        assert !Intersects(t.regions[i], start, size);
      }
    }
  }

  lemma PlaceRegs(t: Table, nReg: nat, start: nat, size: nat, mode: Mode, overlap: bool, reg: Option<nat>)
    requires RegsApart(t, nReg) && Exact(t, nReg)
    requires reg.Some? ==> Vacant(t, nReg, mode, reg.value)
    requires reg.Some? ==> (if mode == Tor && reg.value > 0 then reg.value + 1 else reg.value) < nReg
    requires mode == Tor && reg.Some? ==> reg.value == 0 || reg.value + 2 < nReg
    ensures var t' := Place(t, start, size, mode, overlap, reg).0;
      RegsApart(t', nReg) && Exact(t', nReg)
  {
    var (t', out) := Place(t, start, size, mode, overlap, reg);
    if out.Ok? {
      var rid := out.rid;
      assert FreeAt(t.defined, rid, 1);
      assert rid !in t.defined;
      var r := t'.regions[rid];
      forall i: nat | i != rid
        ensures Private(t', nReg, i) <==> Private(t, nReg, i)
        ensures Private(t, nReg, i) ==> t'.regions[i] == t.regions[i]
      {}
      assert Regs(r) == {reg.value, r.reg};
      forall k | k in t'.used && k + 1 < nReg
        ensures OwnedReg(t', nReg, k)
      {
        if k in t.used {
          assert OwnedReg(t, nReg, k);
          var i: nat :| Private(t, nReg, i) && k in Regs(t.regions[i]);
          assert Private(t', nReg, i) && k in Regs(t'.regions[i]);
        } else {
          assert Private(t', nReg, rid) && k in Regs(t'.regions[rid]);
        }
      }
    }
  }

  /** pmp_region_init keeps the table's invariant as long as it does not hand the shared register out
      as a private one. */
  lemma InitKeeps(t: Table, nReg: nat, start: nat, size: nat, pri: Priority, overlap: bool)
    requires TableOk(t, nReg) && nReg > 1 && (overlap ==> pri == Bottom) && start < TWO64
    requires pri == Any ==> 0 in t.used
    requires overlap || !IsWhole(start, size)
    requires AvoidsBottom(t, nReg, start, size, pri)
    ensures TableOk(InitRegion(t, nReg, start, size, pri, overlap).0, nReg)
  {
    var out := InitRegion(t, nReg, start, size, pri, overlap).1;
    if out.Ok? {
      if PowerRegion(start, size) {
        var reg := PickReg(t.used, nReg, pri, 1);
        assert pri == Any ==> FreeAt(t.used, reg.value, 1);
        PlaceApart(t, start, size, Napot, overlap, reg);
        PlaceRegs(t, nReg, start, size, Napot, overlap, reg);
        if !IsWhole(start, size) {
          OneBitIsPow2(size);
          PowerPage(size);
        }
      } else {
        var reg := PickReg(t.used, nReg, pri, 2);
        assert pri == Any ==> FreeAt(t.used, reg.value, 2);
        PlaceApart(t, start, size, Tor, overlap, reg);
        PlaceRegs(t, nReg, start, size, Tor, overlap, reg);
      }
    }
  }

  lemma PowerPage(size: nat)
    requires size > 0 && size % PGSIZE == 0
    ensures size >= PGSIZE
  {}

  /** What a successful pmp_region_init did: one new entry at a free index, everything else as it was. */
  lemma InitResult(t: Table, nReg: nat, start: nat, size: nat, pri: Priority, overlap: bool)
    requires nReg > 1 && (pri == Any ==> 0 in t.used)
    ensures var (t', out) := InitRegion(t, nReg, start, size, pri, overlap);
      && (!out.Ok? ==> t' == t)
      && (out.Ok? ==>
            && out.rid < |t.regions| && out.rid !in t.defined && t'.defined == t.defined + {out.rid}
            && |t'.regions| == |t.regions|
            && (forall i :: 0 <= i < |t.regions| && i != out.rid ==> t'.regions[i] == t.regions[i])
            && var r := t'.regions[out.rid];
               && r.addr == start && r.size == size && r.overlap == overlap
               && t'.used == t.used + Regs(r)
               && (!overlap ==> start + size < TWO64 && !Collides(t, start, size))
               && (pri == Bottom ==> r.reg == nReg - 1 && r.mode == Napot)
               && (pri == Top ==> r.reg == 0)
               && (pri == Any ==> Regs(r) !! t.used && r.reg < nReg))
  {
    var (t', out) := InitRegion(t, nReg, start, size, pri, overlap);
    if out.Ok? {
      assert FreeAt(t.defined, out.rid, 1);
      if PowerRegion(start, size) {
        var reg := PickReg(t.used, nReg, pri, 1);
        assert pri == Any ==> FreeAt(t.used, reg.value, 1);
      } else {
        var reg := PickReg(t.used, nReg, pri, 2);
        assert pri == Any ==> FreeAt(t.used, reg.value, 2);
      }
    }
  }

  /** pmp_region_free_atomic keeps the table's invariant: only the freed region's registers are
      unmarked, and below the bottom one they were its own. */
  lemma FreeKeeps(t: Table, nReg: nat, rid: nat)
    requires TableOk(t, nReg) && nReg > 1 && rid in t.defined
    ensures var (t', out) := FreeRegion(t, rid);
      out == Ok(rid) && TableOk(t', nReg)
  {
    var t' := FreeRegion(t, rid).0;
    forall i: nat
      ensures Private(t', nReg, i) <==> Private(t, nReg, i) && i != rid
    {}
    forall k | k in t'.used && k + 1 < nReg
      ensures OwnedReg(t', nReg, k)
    {
      assert OwnedReg(t, nReg, k);
      var i: nat :| Private(t, nReg, i) && k in Regs(t.regions[i]);
      assert Private(t', nReg, i) && k in Regs(t'.regions[i]);
    }
  }

  // ---------------------------------------------------------------- the mutable table

  /** search_rightmost_unset. */
  method SearchUnset(bits: set<nat>, max: nat, width: nat) returns (r: Option<nat>)
    requires width > 0
    ensures r == Search(bits, max, width, 0)
  {
    var i := 0;
    while i + width <= max
      invariant 0 <= i <= max
      invariant Search(bits, max, width, i) == Search(bits, max, width, 0)
      decreases max - i
    {
      if forall k :: i <= k < i + width ==> k !in bits {
        return Some(i);
      }
      i := i + 1;
    }
    r := None;
  }

  /** Regions that exclude overlap end below 2^64: all the overlap test needs of the table. */
  predicate NoWrap(t: Table) {
    forall i :: 0 <= i < |t.regions| && i in t.defined && !t.regions[i].overlap ==>
      t.regions[i].addr + t.regions[i].size < TWO64
  }

  class RegionTable {
    const nReg: nat
    var regions: seq<Region>
    var defined: set<nat>
    var used: set<nat>

    ghost function T(): Table
      reads this
    {
      Table(regions, defined, used)
    }

    ghost predicate Valid()
      reads this
    {
      nReg > 1 && NoWrap(T())
    }

    constructor (nReg: nat, maxRegion: nat)
      requires nReg > 1
      ensures Valid() && this.nReg == nReg && T() == Table(seq(maxRegion, _ => CLEARED), {}, {})
    {
      this.nReg := nReg;
      regions := seq(maxRegion, _ => CLEARED);
      defined, used := {}, {};
    }

    /** detect_region_overlap; the end of a table entry is computed modulo 2^64 as in the source. */
    method DetectOverlap(addr: U64, size: U64) returns (hit: bool)
      requires Valid()
      ensures hit <==> Collides(T(), addr, size)
    {
      if addr + size >= TWO64 {
        return true;
      }
      hit := false;
      for i := 0 to |regions|
        invariant hit <==>
          exists j :: 0 <= j < i && j in defined && !regions[j].overlap && Intersects(regions[j], addr, size)
      {
        if i in defined && !regions[i].overlap {
          var r := regions[i];
          assert (r.addr + r.size) % TWO64 == r.addr + r.size;
          hit := hit || (r.addr < addr + size && (r.addr + r.size) % TWO64 > addr);
        }
      }
    }

    /** pmp_region_init. */
    method Init(start: U64, size: U64, pri: Priority, overlap: bool) returns (out: Outcome)
      requires Valid()
      modifies this
      ensures Valid() && (T(), out) == InitRegion(old(T()), nReg, start, size, pri, overlap)
    {
      if size == 0 {
        return SizeInvalid;
      }
      if !overlap {
        var hit := DetectOverlap(start, size);
        if hit {
          return Overlapping;
        }
      }
      if (size != ALL_ONES && size % PGSIZE != 0) || start % PGSIZE != 0 {
        return NotPageGranular;
      }
      if PowerRegion(start, size) {
        out := PlaceRegion(start, size, Napot, pri, overlap, 1);
      } else if pri != Any && (pri != Top || start != 0) {
        return ImpossibleTor;
      } else {
        out := PlaceRegion(start, size, Tor, pri, overlap, 2);
      }
    }

    /** napot_region_init and tor_region_init after their assertions. */
    method PlaceRegion(start: U64, size: U64, mode: Mode, pri: Priority, overlap: bool,
                       width: nat) returns (out: Outcome)
      requires nReg > 1 && width > 0
      modifies this
      ensures (T(), out) == Place(old(T()), start, size, mode, overlap, PickReg(old(used), nReg, pri, width))
    {
      var rid := SearchUnset(defined, |regions|, 1);
      if rid.None? {
        return MaxReached;
      }
      var reg;
      match pri {
        case Any =>
          reg := SearchUnset(used, nReg, width);
        case Top =>
          reg := if 0 in used then None else Some(0);
        case Bottom =>
          reg := Some(nReg - 1);
      }
      if reg.None? {
        return MaxReached;
      }
      var upper := if mode == Tor && reg.value > 0 then reg.value + 1 else reg.value;
      regions := regions[rid.value := Region(start, size, mode, overlap, upper)];
      defined := defined + {rid.value};
      used := used + {reg.value, upper};
      out := Ok(rid.value);
    }

    /** pmp_region_free_atomic. */
    method Free(rid: nat) returns (out: Outcome)
      requires Valid()
      modifies this
      ensures Valid() && (T(), out) == FreeRegion(old(T()), rid)
    {
      if rid !in defined || rid >= |regions| {
        return NoSuchRegion;
      }
      var r := regions[rid];
      defined := defined - {rid};
      used := used - {r.reg};
      if TwoEntries(r) {
        used := used - {r.reg - 1};
      }
      regions := regions[rid := CLEARED];
      assert used == old(used) - Regs(r);
      out := Ok(rid);
    }
  }
}
