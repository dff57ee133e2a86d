/** What a context switch exchanges: the general registers, the supervisor control registers, the
    program counter and the status word, swapped with the enclave's thread record. */
module Context {
  import opened Bytes

  /** x0 to x31; slot 0 is the memory word that stands in for the zero register. */
  type RegFile = s: seq<U64> | |s| == 32 witness seq(32, _ => 0)

  /** The ten supervisor registers the monitor swaps; sip is given by the numbers of its set bits. */
  datatype Csrs = Csrs(sstatus: U64, sie: U64, stvec: U64, scounteren: U64, sscratch: U64,
                       sepc: U64, scause: U64, sbadaddr: U64, sip: set<nat>, satp: U64)

  /** The trap frame. */
  datatype Frame = Frame(x: RegFile, mepc: U64, mstatus: bv64)

  /** struct thread_state: the other side of the switch. */
  datatype Thread = Thread(x: RegFile, mepc: U64, mstatus: bv64, csrs: Csrs)

  const A0: nat := 10
  const A1: nat := 11

  // SIE, SPIE, SPP, MPP, FS, SUM and MXR
  const MSTATUS_MASK: bv64 := 0xC_7922

  /** The fields the mask is made of, at the positions the privileged architecture gives them. */
  datatype Status = Status(sie: bv64, spie: bv64, spp: bv64, mpp: bv64, fs: bv64, sum: bv64, mxr: bv64)

  function Fields(w: bv64): Status {
    Status((w >> 1) & 1, (w >> 5) & 1, (w >> 8) & 1, (w >> 11) & 3, (w >> 13) & 3, (w >> 18) & 1, (w >> 19) & 1)
  }

  /** Every other bit: 0, 2 to 4, 6, 7, 9, 10, 15 to 17 and 20 to 63. */
  function Others(w: bv64): bv64 {
    w & 0xFFFF_FFFF_FFF3_86DD
  }

  /** Fields and other bits are all there is. */
  lemma StatusWhole(v: bv64, w: bv64)
    requires Fields(v) == Fields(w) && Others(v) == Others(w)
    ensures v == w
  {
    FieldBits(v);
    FieldBits(w);
  }

  lemma FieldBits(w: bv64)
    ensures var f := Fields(w);
      w == Others(w) | (f.sie << 1) | (f.spie << 5) | (f.spp << 8) | (f.mpp << 11) | (f.fs << 13) |
           (f.sum << 18) | (f.mxr << 19)
  {}

  const MPP_S: bv64 := 0x800    // 1 << MSTATUS_MPP_SHIFT

  /** One side of a context: what a switch hands over. */
  datatype Side = Side(frame: Frame, csrs: Csrs)

  // ---------------------------------------------------------------- thread.c

  /** swap_prev_state: registers and supervisor registers change places, and slot 0 of the saved side
      records whether the next return to it keeps a0. */
  method SwapState(thread: Thread, frame: Frame, csrs: Csrs, returnOnResume: bool)
    returns (thread': Thread, frame': Frame, csrs': Csrs)
    ensures frame' == frame.(x := thread.x) && csrs' == thread.csrs
    ensures thread' == thread.(x := frame.x[0 := if returnOnResume then 0 else 1], csrs := csrs)
  {
    var prev: seq<U64>, cur: seq<U64> := thread.x, frame.x;
    var i := 0;
    while i < 32
      invariant 0 <= i <= 32 && |prev| == |cur| == 32
      invariant prev[..i] == frame.x[..i] && cur[..i] == thread.x[..i]
      invariant prev[i..] == thread.x[i..] && cur[i..] == frame.x[i..]
    {
      var tmp := prev[i];
      prev := prev[i := cur[i]];
      cur := cur[i := tmp];
      i := i + 1;
    }
    assert prev == frame.x && cur == thread.x;
    prev := prev[0 := if returnOnResume then 0 else 1];
    thread' := thread.(x := prev, csrs := csrs);
    frame' := frame.(x := cur);
    csrs' := thread.csrs;
  }

  /** swap_prev_mstatus: the masked fields come from the other side. */
  function SwapStatus(current: bv64, saved: bv64): bv64 {
    (current & !MSTATUS_MASK) | saved
  }

  /** The seven fields are those of the saved word, whatever the current one has; any other bit is set if
      it is in either. */
  lemma StatusFields(current: bv64, saved: bv64)
    ensures Fields(SwapStatus(current, saved)) == Fields(saved)
    ensures Others(SwapStatus(current, saved)) == Others(saved) | Others(current)
  {}

  /** The three swaps together. */
  function Switch(thread: Thread, s: Side, returnOnResume: bool): (Thread, Side) {
    (Thread(s.frame.x[0 := if returnOnResume then 0 else 1], s.frame.mepc, s.frame.mstatus, s.csrs),
     Side(Frame(thread.x, thread.mepc, SwapStatus(s.frame.mstatus, thread.mstatus)), thread.csrs))
  }

  // ---------------------------------------------------------------- pending interrupts

  const SSIP: nat := 1
  const MSIP: nat := 3
  const STIP: nat := 5
  const MTIP: nat := 7
  const SEIP: nat := 9
  const MEIP: nat := 11

  /** The supervisor interrupts that stand for the machine interrupts pending in mip. */
  function Raised(pending: set<nat>): set<nat> {
    (if MTIP in pending then {STIP} else {}) + (if MSIP in pending then {SSIP} else {}) +
    (if MEIP in pending then {SEIP} else {})
  }

  /** After the swap, pending machine interrupts are handed to the host. */
  function Delivered(s: Side, pending: set<nat>): Side {
    s.(csrs := s.csrs.(sip := s.csrs.sip + Raised(pending)))
  }

  /** The host's sip gains exactly the bits of what was pending, and is unchanged if and only if each of
      those was set already. */
  lemma DeliveredBits(s: Side, pending: set<nat>)
    ensures forall i :: i in Delivered(s, pending).csrs.sip <==>
              i in s.csrs.sip || (i in {1, 5, 9} && i + 2 in pending)
    ensures Delivered(s, pending) == s <==> Raised(pending) <= s.csrs.sip
  {
    assert s.csrs.sip + Raised(pending) == s.csrs.sip <==> Raised(pending) <= s.csrs.sip;
  }

  /** The three conditional stores to mip, as they show in sip. */
  method Deliver(sip: set<nat>, pending: set<nat>) returns (r: set<nat>)
    ensures r == sip + Raised(pending)
  {
    r := sip;
    if MTIP in pending {
      r := r + {STIP};
    }
    if MSIP in pending {
      r := r + {SSIP};
    }
    if MEIP in pending {
      r := r + {SEIP};
    }
  }

  // ---------------------------------------------------------------- sm-sbi.c and sbi_trap_hack.c

  function Plus4(pc: U64): U64 {
    (pc + 4) % TWO64
  }

  function Minus4(pc: U64): U64 {
    (pc + TWO64 - 4) % TWO64
  }

  lemma PcRoundTrip(pc: U64)
    ensures Plus4(Minus4(pc)) == pc
  {}

  /** First entry: the parameters of context_switch_to_enclave in a1 to a7, the entry point less the 4
      that the call's epilogue adds, supervisor mode, translation off. */
  function FirstEntry(s: Side, base: U64, args: seq<U64>): Side
    requires |args| == 7
  {
    Side(Frame(s.frame.x[..A1] + args + s.frame.x[18..], Minus4(base), MPP_S), s.csrs.(satp := 0))
  }

  function Epilogue(s: Side, a0: U64): Side {
    s.(frame := s.frame.(x := s.frame.x[A0 := a0], mepc := Plus4(s.frame.mepc)))
  }

  /** sbi_sm_resume_enclave's epilogue: a0 is replaced only if slot 0 is clear. */
  function ResumeEpilogue(s: Side, a0: U64): Side {
    if s.frame.x[0] == 0 then Epilogue(s, a0) else s.(frame := s.frame.(mepc := Plus4(s.frame.mepc)))
  }

  function ExitEpilogue(s: Side, a0: U64, a1: U64): Side {
    var t := Epilogue(s, a0);
    t.(frame := t.frame.(x := t.frame.x[A1 := a1]))
  }

  /** The timer and software-interrupt path winds the program counter back before it stops. */
  function Interrupted(s: Side): Side {
    s.(frame := s.frame.(mepc := Minus4(s.frame.mepc)))
  }
}
