/** Page-table entries and virtual addresses of the Sv39 scheme (kernel/riscv.h). */
module Sv39 {

  const PGSIZE := 4096
  const ENTRIES := 512
  /** One beyond the highest page number that xv6 uses: MAXVA / PGSIZE. */
  const MAXVPN := 0x400_0000

  /** PTE_R, PTE_W, PTE_X, PTE_U, PTE_G, PTE_A, and the three bits that xv6 leaves alone,
      the dirty bit among them. */
  datatype Perm = Perm(r: bool, w: bool, x: bool, u: bool, g: bool, a: bool, rest: nat)
  {
    /** Points to memory rather than to another table. */
    predicate Leaf() { r || w || x }

    /** What the kernel asked for, without the accessed and dirty bits that the hardware sets. */
    function Core(): Perm { this.(a := false, rest := 0) }
  }

  datatype Pte = Pte(ppn: nat, v: bool, perm: Perm)

  const NO_PERM := Perm(false, false, false, false, false, false, 0)
  const ZERO := Pte(0, false, NO_PERM)

  type Table = t: seq<Pte> | |t| == ENTRIES witness seq(ENTRIES, _ => ZERO)

  function ZeroTable(): (t: Table)
    ensures forall i :: 0 <= i < ENTRIES ==> t[i] == ZERO
  {
    seq(ENTRIES, (i: nat) => ZERO)
  }

  // ---- entries as 64-bit words ----

  function Bit(b: bool): nat { if b then 1 else 0 }

  /** PTE_FLAGS(*pte) */
  function FlagBits(p: Pte): nat
  {
    Bit(p.v) + 2 * Bit(p.perm.r) + 4 * Bit(p.perm.w) + 8 * Bit(p.perm.x) + 16 * Bit(p.perm.u)
    + 32 * Bit(p.perm.g) + 64 * Bit(p.perm.a) + 128 * p.perm.rest
  }

  /** PA2PTE(pa) | flags */
  function Encode(p: Pte): nat { p.ppn * 1024 + FlagBits(p) }

  function Shift(b: bool, rest: nat): nat { Bit(b) + 2 * rest }

  function Half(w: nat): nat { w / 2 }

  predicate Odd(w: nat) { w % 2 == 1 }

  function Decode(w: nat): Pte
  {
    var w1 := Half(w); var w2 := Half(w1); var w3 := Half(w2); var w4 := Half(w3); var w5 := Half(w4);
    var w6 := Half(w5); var w7 := Half(w6);
    Pte(w7 / 8, Odd(w), Perm(Odd(w1), Odd(w2), Odd(w3), Odd(w4), Odd(w5), Odd(w6), w7 % 8))
  }

  lemma ShiftReads(b: bool, rest: nat)
    ensures Half(Shift(b, rest)) == rest && Odd(Shift(b, rest)) == b
  {
  }

  /** An entry's word determines the entry. */
  lemma EntryRoundTrip(p: Pte)
    requires p.perm.rest < 8
    ensures Decode(Encode(p)) == p
  {
    hide Shift, Bit, Encode, FlagBits, Half, Odd;
    var w7 := p.perm.rest + 8 * p.ppn;
    var w6 := Shift(p.perm.a, w7);
    var w5 := Shift(p.perm.g, w6);
    var w4 := Shift(p.perm.u, w5);
    var w3 := Shift(p.perm.x, w4);
    var w2 := Shift(p.perm.w, w3);
    var w1 := Shift(p.perm.r, w2);
    Horner(p);
    ShiftReads(p.perm.a, w7);
    ShiftReads(p.perm.g, w6);
    ShiftReads(p.perm.u, w5);
    ShiftReads(p.perm.x, w4);
    ShiftReads(p.perm.w, w3);
    ShiftReads(p.perm.r, w2);
    ShiftReads(p.v, w1);
  }

  /** PTE2PA is the frame's address, PTE_FLAGS the flags. */
  lemma EntryFields(p: Pte)
    requires p.perm.rest < 8
    ensures Encode(p) / 1024 * 4096 == p.ppn * PGSIZE && Encode(p) % 1024 == FlagBits(p)
  {
    hide FlagBits;
    FlagBound(p);
  }

  lemma Horner(p: Pte)
    ensures Encode(p) == Shift(p.v, Shift(p.perm.r, Shift(p.perm.w, Shift(p.perm.x, Shift(p.perm.u,
                           Shift(p.perm.g, Shift(p.perm.a, p.perm.rest + 8 * p.ppn)))))))
  {
  }

  lemma FlagBound(p: Pte)
    requires p.perm.rest < 8
    ensures FlagBits(p) < 1024
  {
  }

  // ---- page numbers ----

  /** PX(level, va) for the page number of va. */
  function Px(level: nat, vpn: nat): (k: nat)
    requires level < 3
    ensures k < ENTRIES
  {
    if level == 0 then vpn % ENTRIES
    else if level == 1 then vpn / ENTRIES % ENTRIES
    else vpn / ENTRIES / ENTRIES % ENTRIES
  }

  /** Distinct pages below MAXVA reach distinct slots. */
  lemma PxInjective(v: nat, w: nat)
    requires v < MAXVPN && w < MAXVPN
    requires Px(0, v) == Px(0, w) && Px(1, v) == Px(1, w) && Px(2, v) == Px(2, w)
    ensures v == w
  {
  }

  /** xv6 uses the lower half of the address space, and so of a root table. */
  lemma PxTop(v: nat)
    requires v < MAXVPN
    ensures Px(2, v) < ENTRIES / 2
  {
  }

  /** The page that three indices lead to. */
  function PageOf(i: nat, j: nat, k: nat): nat { (i * ENTRIES + j) * ENTRIES + k }

  lemma PageOfPx(i: nat, j: nat, k: nat)
    requires i < ENTRIES / 2 && j < ENTRIES && k < ENTRIES
    ensures PageOf(i, j, k) < MAXVPN
    ensures Px(2, PageOf(i, j, k)) == i && Px(1, PageOf(i, j, k)) == j && Px(0, PageOf(i, j, k)) == k
  {
  }
}
