/** Page-table entries: a physical page number above ten flag bits. */
module Vm {
  import opened Arith
  import opened Bytes

  const PPN_LIMIT: nat := 0x40_0000_0000_0000   // 2^54: what fits above the flags

  type Pte = U64

  /** pte_create: the flags of `kind` with the valid bit set. */
  function PteCreate(ppn: nat, kind: nat): (p: Pte)
    requires ppn < PPN_LIMIT
  {
    ppn * 1024 + kind % 1024 / 2 * 2 + 1
  }

  /** pte_create_invalid: the flags of `kind` with the valid bit cleared. */
  function PteCreateInvalid(ppn: nat, kind: nat): (p: Pte)
    requires ppn < PPN_LIMIT
  {
    ppn * 1024 + kind % 1024 / 2 * 2
  }

  /** ptd_create: a pointer to the next table. */
  function PtdCreate(ppn: nat): (p: Pte)
    requires ppn < PPN_LIMIT
  {
    PteCreate(ppn, 1)
  }

  function PtePpn(p: Pte): (r: nat)
    ensures r < PPN_LIMIT
  {
    p / 1024
  }

  function Flags(p: Pte): nat {
    p % 1024
  }

  predicate IsValid(p: Pte) {
    p % 2 == 1
  }

  predicate IsUser(p: Pte) {
    (p / 16) % 2 == 1
  }

  /** Bit b of an entry or of a flag word. */
  predicate HasFlag(n: nat, b: nat)
    decreases b
  {
    if b == 0 then n % 2 == 1 else HasFlag(n / 2, b - 1)
  }

  /** Below bit j only the remainder by 2^j matters. */
  lemma {:induction false} LowFlags(n: nat, j: nat, b: nat)
    requires b < j
    ensures HasFlag(n % Pow2(j), b) == HasFlag(n, b)
    decreases b
  {
    HalfMod(n, Pow2(j - 1));
    if b > 0 {
      LowFlags(n / 2, j - 1, b - 1);
    }
  }

  lemma HalfMod(n: nat, m: nat)
    requires m > 0
    ensures n % (2 * m) / 2 == n / 2 % m && n % (2 * m) % 2 == n % 2
  {
    var q, r := n / 2 / m, n / 2 % m;
    DivMod(n, 2);
    DivMod(n / 2, m);
    Associate(2, m, q);
    Distribute(2, m * q, r);
    ModUnique(n, q, 2 * r + n % 2, 2 * m);
  }

  /** A built entry has the flags of `kind` and the valid bit. */
  lemma CreatedFlags(ppn: nat, kind: nat, b: nat)
    requires ppn < PPN_LIMIT && b < 10
    ensures HasFlag(PteCreate(ppn, kind), b) <==> b == 0 || HasFlag(kind, b)
    ensures HasFlag(PteCreateInvalid(ppn, kind), b) <==> b != 0 && HasFlag(kind, b)
  {
    PteRoundTrip(ppn, kind);
    assert Pow2(10) == 1024;
    LowFlags(kind, 10, b);
    LowFlags(PteCreate(ppn, kind), 10, b);
    LowFlags(PteCreateInvalid(ppn, kind), 10, b);
  }

  /** A pointer to a table has the valid bit alone: with any of bits 1 to 3 it would be a leaf. */
  lemma PointerFlags(ppn: nat, b: nat)
    requires ppn < PPN_LIMIT && b < 10
    ensures HasFlag(PtdCreate(ppn), b) <==> b == 0
  {
    CreatedFlags(ppn, 1, b);
    NoFlags(b);
  }

  lemma {:induction false} NoFlags(b: nat)
    ensures !HasFlag(0, b) && (HasFlag(1, b) <==> b == 0)
  {
    if b > 0 {
      NoFlags(b - 1);
    }
  }

  /** Building an entry and taking it apart again: the page number and every flag but the valid bit
      come back, and the valid bit is what the builder says. */
  lemma PteRoundTrip(ppn: nat, kind: nat)
    requires ppn < PPN_LIMIT
    ensures PtePpn(PteCreate(ppn, kind)) == ppn && PtePpn(PteCreateInvalid(ppn, kind)) == ppn
    ensures IsValid(PteCreate(ppn, kind)) && !IsValid(PteCreateInvalid(ppn, kind))
    ensures Flags(PteCreate(ppn, kind)) / 2 == (kind % 1024) / 2 == Flags(PteCreateInvalid(ppn, kind)) / 2
  {
    var u := kind % 1024 / 2;
    ModUnique(ppn * 1024 + u * 2, ppn, u * 2, 1024);
    ModUnique(ppn * 1024 + u * 2, ppn * 512 + u, 0, 2);
    ModUnique(ppn * 1024 + u * 2 + 1, ppn, u * 2 + 1, 1024);
    ModUnique(ppn * 1024 + u * 2 + 1, ppn * 512 + u, 1, 2);
  }

  /** The user bit in terms of the flags above the valid bit. */
  predicate UserBit(upper: nat) {
    (upper / 8) % 2 == 1
  }

  lemma UserFlag(p: Pte)
    ensures IsUser(p) == UserBit(Flags(p) / 2)
  {
    var q, f := p / 1024, Flags(p);
    DivMod(p, 1024);
    DivMod(f, 16);
    ModUnique(p, 64 * q + f / 16, f % 16, 16);
    ModShift(f / 16, 32 * q, 2);
    DivDiv(f, 2, 8);
  }

  lemma FlagsSmall(p: Pte)
    ensures Flags(p) % 1024 == Flags(p)
  {}

  /** Swapping a page out and in again keeps it a user page. */
  lemma PteUserKept(ppn: nat, p: Pte)
    requires ppn < PPN_LIMIT
    ensures IsUser(PteCreate(ppn, Flags(p))) == IsUser(p) == IsUser(PteCreateInvalid(ppn, Flags(p)))
  {
    var c, i := PteCreate(ppn, Flags(p)), PteCreateInvalid(ppn, Flags(p));
    FlagsSmall(p);
    PteRoundTrip(ppn, Flags(p));
    SameUser(c, p);
    SameUser(i, p);
  }

  lemma SameUser(p: Pte, q: Pte)
    requires Flags(p) / 2 == Flags(q) / 2
    ensures IsUser(p) == IsUser(q)
  {
    UserFlag(p);
    UserFlag(q);
  }
}
